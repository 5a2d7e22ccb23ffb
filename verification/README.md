# A verified model of utrace

utrace attaches to a running i386 program, plants trap instructions at function entries and return addresses, and
logs every call with its arguments and every return with its value. This project models that tracer in Dafny and
proves what its parts promise one another.

The centre is `Tracer.dfy`: the tracer as a state machine over tracee text, breakpoint dictionary, per-thread shadow
call stacks and log. A step is one stop reported by waitpid, and stops are arbitrary: any thread, any kind, any
registers, in any order. Around it:

- `RefCounts`, `TextSafety`, `Interleaving`, `LineJoin`, `Completeness`, `LostCalls`, `Attribution`, `StaleFrames` prove
  invariants of that machine over all runs, and where one can fail, exactly when. In `Completeness` the tracee is part of
  the picture: a call or a return is a stop only where the text holds the trap at that moment. `Attribution` asks whose
  return a logged return is, `Continuing` how the tracee goes on after a stop: over a lifted breakpoint, from a system
  call's entry to its exit, or for good.
- `Memory`, `Patch`, `Dict`, `Breakpoints`, `Threads`, `Printer`, `Process` hold the same behaviour in the source's own
  imperative form (a chained hash table on the heap, word-wise patching, thread structures, a printer that keeps one
  open line). `Process.Round` is one turn of the main loop, proved to take exactly the step of `Tracer.Step`, and
  `Session.Trace` a whole session over these structures, proved to come to exactly what `Tracer.Run` comes to and to
  write exactly `Session.Written`: what is proved about runs of the state machine holds of it. `Session.TraceProgram`
  starts from a program's symbol table and the `-e` option, `CountOnly.Count` ends in the report of `-c`.
- `LogText` says what the log's lines and columns look like, `LogReader` how they read back, `Narration` that a stop's
  text tells what the stop did, and `Session` what a whole session's log looks like.
  `CountOnly` says what `-c` changes.
- `ConfigParser`/`ConfigReader`/`ConfigFields`/`ConfigFile`, `Display`, `Summary`, `SymbolFilter`, `TgidCache` cover the
  codecs and tables beside the core: signature parsing, string display, `-c` accounting, the `-e` filter, thread id to
  process id lookup.

Methods take a ghost argument or field that holds the state they represent (`Shows(s)`) and end in
`Shows(the state after the matching function)`.

## Where the code does not do what it seems to promise

Each point names the members that prove it. Where a property fails for some inputs, the exact condition under which it
holds is proved.

- Text safety needs single steps not to overlap. `continue_enabling_breakpoint` saves the current byte without looking
  at the count or at what is there. `TextSafety.StepExact` gives the exact condition for one stop and
  `TextSafety.RunSafeExact` for whole runs, `TextSafety.RunKeepsExact` the sharper property of all runs in which stops
  during a step come from the stepping thread,
  and `Interleaving.CorruptingRun` six stops after which detaching leaves a trap in the text.
- Return tracing is not complete when a signal arrives in the middle of a single step: the signal's continuation drops
  the step but `breakpoint_being_enabled` stays set, so that the thread's next trap is taken for the step's end
  (`utrace-0.1/process_event.c:103-116`, `utrace-0.1/process_event.c:246-251`). `Completeness.ActExact` and
  `Completeness.RunComplete` give the exact condition for one action and for whole runs, `Completeness.RunOrderly` the
  runs in which nothing is missed, and `LostCalls.LostCallRun` a run from attachment on that loses a call. The same
  condition says when a trap that is reached without returning cuts off a live call.
- A return need not be logged as that of the call that returned. The tracer takes the highest frame with that return
  address (`utrace-0.1/process_event.c:253-254`), which after a longjmp out of a recursion may be that of a call that was
  left: its open line may be finished with the other call's value. `Attribution.OwnReturn` gives the exact condition for
  one return, `Attribution.ReturnAfterUnwind` for the first one after a longjmp, `Attribution.RunMatched` the exact
  condition under which frames and live calls stay the same over a run, `Attribution.RunTells` the runs in which every
  call and return is logged for what it is, and `StaleFrames.StaleFrameRun` a run from attachment on in which one is not,
  although no call, return or trap is missed.
- `reg_tid` stores and returns the loop counter, which has run out, where the chosen slot `idx_ava` is meant
  (`utrace-0.1/proc.c:99-104`). `Threads.ThreadTable.RegTid` uses the chosen slot; what the code as written does is in
  `Threads.RegTidAsWritten` and `Threads.RegisterAsWrittenMisses`.
- `calc_time_spent` adds a second on a borrow instead of taking one away (`utrace-0.1/process_event.c:192`):
  `Summary.TimeSpentIsElapsed` proves the charged time right if and only if there is no borrow. The accounting takes
  the charged times as given.
- The cache's replacement is called least frequently used, but its running minimum is never lowered
  (`utrace-0.1/sysdeps/linux-gnu/proc.c:92-93`): `TgidCache.VictimIsLastBelow` says
  which slot gives way, `TgidCache.NotLeastUsed` gives lookups from an empty cache on after which it is the most used one.
- The index() call in `str2type` also accepts the end of the line as the end of a type name
  (`utrace-0.1/read_config_file.c:52-53`). No line is accepted that way: `ConfigFields.LineEndRejected`.
- An empty argument is accepted as one of unknown type, because the check that should reject it looks at the return type
  (`utrace-0.1/read_config_file.c:137-141`): `ConfigFields.UnknownIsBlank` says exactly when,
  `ConfigFields.EmptyIntArgument` gives a line.
- The repository's README shows the thread id and no parenthesis on "resumed" lines. The code has already set
  `current_pid` to zero when it prints such a line and ends the arguments with ") "
  (`utrace-0.1/output.c:171`, `utrace-0.1/output.c:261-294`), so such a line never shows the thread where it
  seems to: `LogText.ResumedLine`.

## Model

| member | source | states |
|---|---|---|
| Patch.EnableBreakpoint | utrace-0.1/sysdeps/linux-gnu/breakpoint.c:20-34 | for any instruction length and word size, exactly the instruction's bytes are saved and overwritten, although whole words are read and written |
| Patch.SaveAndSplice | utrace-0.1/sysdeps/linux-gnu/breakpoint.c:24-29 | the inner loop saves the covered bytes of the word, replaces just those and leaves other saved bytes alone |
| Patch.DisableBreakpoint | utrace-0.1/sysdeps/linux-gnu/breakpoint.c:45-57 | exactly the saved bytes are written back |
| Patch.WordsCover | utrace-0.1/sysdeps/linux-gnu/breakpoint.c:20 | the loop bound visits exactly the words that start inside the instruction |
| Patch.DisableUndoesEnable | utrace-0.1/sysdeps/linux-gnu/breakpoint.c:12-58 | disabling after enabling is the identity on memory |
| Patch.AnyOrderRestores | utrace-0.1/sysdeps/linux-gnu/breakpoint.c:12-58 | any sequence of enabling and disabling non-overlapping breakpoints, also within one word, keeps memory equal to the original with the planted sites overwritten; with none left it is the original |
| Dict.Dict.constructor | utrace-0.1/dict.c:33-49 | a new table holds nothing |
| Dict.Dict.Enter | utrace-0.1/dict.c:67-93 | the pair is added to the history the table stands for, the chains on the heap stay well formed |
| Dict.Dict.Append | utrace-0.1/dict.c:85-89 | the new entry ends up last in its bucket's chain and no other chain changes |
| Dict.Dict.Find | utrace-0.1/dict.c:95-111 | the walk along one chain answers like a search of everything ever entered, oldest first |
| Dict.Dict.ApplyToAll | utrace-0.1/dict.c:113-127 | the pairs visited are, as a multiset, the pairs entered |
| Dict.Dict.WalkChain | utrace-0.1/dict.c:121-125 | the inner loop visits the bucket's pairs in entry order |
| Dict.FirstInBucket | utrace-0.1/dict.c:97-110 | searching only the key's own bucket gives the same answer as searching all entries |
| Dict.FirstEntryWins | utrace-0.1/dict.c:67-111 | for any hash that agrees with the comparison, lookup gives the earliest value entered under an equal key, and nothing exactly when there is none |
| Dict.VisitsEachOnce | utrace-0.1/dict.c:113-127 | bucket by bucket, every entered pair is visited exactly once |
| Dict.TabulatedFinds | utrace-0.1/breakpoints.c:21-25 | a table with one entry per key finds exactly what the map it tabulates holds |
| Dict.TabulatesPermuted | utrace-0.1/dict.c:113-127 | the visits tabulate the same map as the entries, each key once |
| Tracer.FindFrame | utrace-0.1/process_event.c:253-254 | the highest frame with that return address, or none |
| Tracer.FindSymbol | utrace-0.1/process_event.c:289-299 | the first symbol entered at that address, or none |
| Tracer.FindTid | utrace-0.1/wait_for_something.c:176-183 | the first slot that holds the thread id, or none |
| Tracer.Pop | utrace-0.1/process_event.c:355-372 | one frame fewer, unless an assertion fails |
| RefCounts.InsertCounts | utrace-0.1/breakpoints.c:27-47 | insertion raises exactly one address's count by one |
| RefCounts.DeleteCounts | utrace-0.1/breakpoints.c:49-59 | deletion lowers exactly one count by one, and its assertions hold when the count was positive |
| RefCounts.PopKeeps | utrace-0.1/process_event.c:355-372 | popping any frame, function or system call, keeps counts conserved and never fails an assertion |
| RefCounts.PopToKeeps | utrace-0.1/process_event.c:273-275 | so does unwinding any number of frames |
| RefCounts.PushSyscallKeeps | utrace-0.1/process_event.c:306-326 | pushing a system call, or dropping it at full depth, keeps counts conserved |
| RefCounts.PushSymfuncKeeps | utrace-0.1/process_event.c:328-353 | pushing a function frame, or dropping it at full depth, keeps counts conserved |
| RefCounts.FrameInDictionary | utrace-0.1/process_event.c:281-284 | the return address of a frame on any stack has a structure with a positive count, so address2bpstruct is not null there |
| RefCounts.SymbolInDictionary | utrace-0.1/process_event.c:296 | the entry of a kept symbol has a structure with a positive count |
| RefCounts.ReturnedKeeps | utrace-0.1/process_event.c:273-282 | a return to frame i leaves exactly the frames below it and counts conserved |
| RefCounts.CalledKeeps | utrace-0.1/process_event.c:291-295 | a call keeps counts conserved |
| RefCounts.BreakpointKeeps | utrace-0.1/process_event.c:240-304 | every trap stop keeps the invariant and neither fails an assertion nor dereferences null |
| RefCounts.SyscallKeeps | utrace-0.1/process_event.c:158-173 | every system call entry keeps the invariant; execve is never pushed |
| RefCounts.SysretKeeps | utrace-0.1/process_event.c:225-229 | every system call return keeps the invariant |
| RefCounts.LocateKeeps | utrace-0.1/wait_for_something.c:74-78 | finding or registering the stopped thread keeps thread ids distinct and the invariant |
| RefCounts.StepKeeps | utrace-0.1/wait_for_something.c:36-145 | from any state of the invariant, no stop fails an assertion, dereferences a null breakpoint or reaches the exec branch, and the invariant holds afterwards |
| RefCounts.AttachInv | utrace-0.1/breakpoints.c:155-161 | a session starts in the invariant |
| RefCounts.RunKeeps | utrace-0.1/ltrace.c:139 | in every run and over all threads, each count is the number of kept symbols at the address plus the number of frames returning there, and depths stay within 0..99 |
| RefCounts.SysretPopsItsCall | utrace-0.1/sysdeps/linux-gnu/i386/trace.c:37-45 | a stop taken for a system call's return pops exactly that call's frame, which is not execve |
| TextSafety.InsertSafe | utrace-0.1/breakpoints.c:27-47 | inserting keeps every byte original or an active trap |
| TextSafety.DeleteSafe | utrace-0.1/breakpoints.c:49-59 | deleting an active breakpoint keeps the text safe, even while it is stepped over |
| TextSafety.ContinueSafe | utrace-0.1/sysdeps/linux-gnu/trace.c:159-173 | lifting a breakpoint to step over it keeps the text safe |
| TextSafety.ReinsertExact | utrace-0.1/process_event.c:246-251 | putting a breakpoint back keeps the text safe if and only if it is still wanted and not already planted |
| TextSafety.BreakpointSafe | utrace-0.1/process_event.c:253-304 | every call, return and unknown trap keeps the text safe |
| TextSafety.ArmingSavesOriginal | utrace-0.1/sysdeps/linux-gnu/breakpoint.c:24-29 | in undisturbed runs no breakpoint is ever armed over a trap: the byte saved is the original one |
| TextSafety.DetachRestores | utrace-0.1/breakpoints.c:105-112 | letting go at any moment, even in mid-step, leaves the original text at every address |
| TextSafety.StepExact | utrace-0.1/process_event.c:240-304 | over arbitrary interleavings, a stop keeps the text safe if and only if it is not the end of a step over a breakpoint that is no longer wanted or already back |
| TextSafety.StepKeepsExact | utrace-0.1/process_event.c:240-304 | when only the stepping thread's stop is processed, a byte is the trap exactly when its count is positive and it is not being stepped over, and original otherwise |
| TextSafety.FirstStopArms | utrace-0.1/wait_for_something.c:90-102 | the first stop plants every counted breakpoint and nothing else |
| TextSafety.RunSafeExact | utrace-0.1/process_event.c:246-251 | up to any stop of any run, the text has been safe since the first stop if and only if no stop handed back a breakpoint that must not go back in |
| TextSafety.RunKeepsExact | utrace-0.1/ltrace.c:139 | the same over every undisturbed run from attachment on |
| Continuing.LetGo | utrace-0.1/process_event.c:103-111 | a stopped thread's stop lets the tracee go if and only if the user has interrupted the tracer and it is the signal sent for that, and then the text is the original at every address |
| Continuing.RunLetsGo | utrace-0.1/process_event.c:103-111 | a session ended by a stop was ended by an interrupt and leaves the original text, if no stop before had handed back a breakpoint that must not go back in |
| Continuing.HowItEnds | utrace-0.1/wait_for_something.c:109-145 | after the first stop the session ends exactly when the process has, on an interrupt, when there is no room for the thread, or when waitpid reports something else |
| Continuing.EndIsLogged | utrace-0.1/process_event.c:118-137 | the process's end is logged as one line, and nothing else changes |
| Continuing.ComesBack | utrace-0.1/process_event.c:158-167 | breakpoints that had all been lifted come back exactly with the first system call other than clone |
| Continuing.TrapContinues | utrace-0.1/process_event.c:282-297 | after every trap outside a step at a traced entry or a frame's return address the original byte is back there, and the thread is to step over it exactly when the breakpoint is still counted |
| Continuing.StopContinues | utrace-0.1/sysdeps/linux-gnu/trace.c:159-173 | the same for a stop of any thread, known or new |
| Continuing.Enters | utrace-0.1/process_event.c:158-173 | a system call's entry pushes its frame, unless it is execve or there is no room, and changes no count |
| Continuing.Leaves | utrace-0.1/process_event.c:225-229 | its exit takes the frame away and changes no count |
| Continuing.EntryThenExit | utrace-0.1/sysdeps/linux-gnu/i386/trace.c:37-45 | whatever other threads do and whatever signals arrive in between, the thread's next stop in the same system call is its exit if and only if the entry was pushed, and the exit gives the thread its stack back |
| Interleaving.CallStarts | utrace-0.1/process_event.c:289-297 | a call by an idle thread ends with that thread stepping over the lifted breakpoint |
| Interleaving.StepEnds | utrace-0.1/sysdeps/linux-gnu/trace.c:153-157 | the end of a step saves whatever byte is there and plants the trap over it |
| Interleaving.OverlapCorrupts | utrace-0.1/process_event.c:246-251 | for every such state and pair of threads, two overlapping steps over one breakpoint leave a trap that disabling all breakpoints does not remove |
| Interleaving.CorruptingRun | utrace-0.1/process_event.c:246-251 | such a run exists from attachment on |
| LineJoin.PrintsBalance | utrace-0.1/output.c:126-308 | calls printed = joined + unfinished + open, whatever is printed |
| LineJoin.ReturnJoined | utrace-0.1/output.c:261-276 | a return printed after its frame is popped is joined exactly when the open line is its own call's |
| LineJoin.StepKeepsJoined | utrace-0.1/process_event.c:67-101 | every stop of every thread keeps that, with hidden system call frames, unwinds and calls dropped at full depth |
| LineJoin.RunJoins | utrace-0.1/output.c:176-308 | in every run, a return is finished on the open line if and only if what was printed last is the call of the frame it pops, and each call has one line |
| Completeness.EmbedsIsSubsequence | utrace-0.1/process_event.c:253-287 | greedy matching from the top of the stack decides subsequences |
| Completeness.ReturnFindsFrame | utrace-0.1/process_event.c:253-254 | the frame the tracer takes for a return leaves the remaining live calls below it, even with repeated return addresses |
| Completeness.TrapMoves | utrace-0.1/process_event.c:253-304 | a trap outside a step cuts the stack at the highest frame returning there or pushes one frame, and touches no other thread's stack |
| Completeness.SyscallMoves | utrace-0.1/process_event.c:158-173 | a system call entry adds at most a frame that returns nowhere |
| Completeness.SysretMoves | utrace-0.1/process_event.c:225-229 | a system call return takes such a frame away |
| Completeness.HeardTrap | utrace-0.1/process_event.c:253-304 | the same for a trap stop of any thread, known or new, outside a step |
| Completeness.OtherwiseSame | utrace-0.1/process_event.c:246-251 | every other stop, a trap taken for the end of a step and the session's first stop included, leaves the return addresses alone |
| Completeness.CallFollows | utrace-0.1/process_event.c:289-297 | after a call the live calls are in the shadow stack if and only if the text held the trap, no step was pending and there was room, or the return address makes no difference |
| Completeness.ReturnFollows | utrace-0.1/process_event.c:253-286 | a return keeps them there, seen by the tracer or not, also while a step is pending |
| Completeness.UnwindFollows | utrace-0.1/process_event.c:253-286 | so does a longjmp past any number of live calls |
| Completeness.OtherFollows | utrace-0.1/process_event.c:240-304 | after any other stop, if and only if it was no trap outside a step, or the frames it cuts off held no live call the rest lacks and any frame it pushes returns to no traced entry; traps reached by jumps or by falling through included |
| Completeness.ActExact | utrace-0.1/process_event.c:240-304 | whatever a thread does, the live calls of all threads stay in the shadow stacks, and no frame returns to a traced entry, if and only if the condition for its action holds |
| Completeness.LiveReturnsCounted | utrace-0.1/process_event.c:328-353 | the return address of every live traced call keeps a positive count |
| Completeness.CallsAndReturnsTrap | utrace-0.1/process_event.c:240-304 | with exact text and no step under way, every traced entry and every live return address holds the trap |
| Completeness.RunComplete | utrace-0.1/process_event.c:240-304 | up to any moment of any run of calls, returns, longjmps and stops, the live calls have been subsequences of the shadow stacks, and no frame has returned to a traced entry, throughout if and only if every action met its condition |
| Completeness.RunKeepsText | utrace-0.1/process_event.c:240-304 | in every run in which only the stepping thread acts during a step, the text is exact after the first stop |
| Completeness.RunOrderly | utrace-0.1/process_event.c:240-304 | if steps also end before the thread goes on and stacks have room, every call of a traced function runs into a trap and is taken for a call, and every return of a live one for a return of some frame, neither for the end of a step |
| Attribution.FoundAlike | utrace-0.1/process_event.c:253-254 | the highest frame with a return address is that of the last call on the stack that returns there |
| Attribution.ReturnShown | utrace-0.1/process_event.c:253-286 | a heard return is logged under the number and the depth of the highest frame that returns to the same address |
| Attribution.OwnReturn | utrace-0.1/process_event.c:253-286 | it is logged as the return of the call that returned if and only if no frame above that call's frame returns to the same address |
| Attribution.MatchedIsComplete | utrace-0.1/process_event.c:328-353 | function frames that are the live calls one for one make the tracer complete |
| Attribution.ActMatched | utrace-0.1/process_event.c:240-304 | whatever a thread does, the function frames of all threads stay exactly the live calls if and only if the call is heard and has room, the return is heard, nothing is left without returning and no other trap cuts or pushes a frame |
| Attribution.ReturnAfterUnwind | utrace-0.1/process_event.c:253-286 | after a longjmp the next heard return is logged as that of the last call, left or not, that returns to its address: as its own if and only if no call that was left returns there |
| Attribution.RunMatched | utrace-0.1/process_event.c:240-304 | up to any moment of any run, frames and live calls have matched throughout if and only if every action met that condition |
| Attribution.RunTells | utrace-0.1/output.c:176-308 | in orderly runs without such traps and longjmps each call gets a line under its own number, each return is logged under the number of the call that returned, on that call's line if and only if nothing was printed since, and no other return is logged but a system call's |
| StaleFrames.StaleFrameRun | utrace-0.1/process_event.c:253-254 | a run from attachment on, orderly throughout, in which a return is logged as that of another call: call, call again from the same site, longjmp, return |
| LostCalls.SignalKeepsStep | utrace-0.1/process_event.c:103-116 | a signal in the middle of a step changes nothing but the log: the step stays pending |
| LostCalls.SignalLosesCall | utrace-0.1/process_event.c:246-251 | the thread's next traced call is then lost, unless the shadow stack happens to hold its return address already |
| LostCalls.LostCallRun | utrace-0.1/process_event.c:246-251 | such a run exists from attachment on: call, signal, call |
| Breakpoints.EnableEachEffect | utrace-0.1/breakpoints.c:61-66 | visiting addresses once each saves and overwrites exactly the active ones |
| Breakpoints.DisableEachEffect | utrace-0.1/breakpoints.c:98-103 | visiting addresses writes back exactly the active ones |
| Breakpoints.EnableOneByOne | utrace-0.1/breakpoints.c:68-96 | enabling one breakpoint after the other, in any order, is enabling all at once |
| Breakpoints.DisableOneByOne | utrace-0.1/breakpoints.c:105-112 | the same for disabling |
| Breakpoints.Breakpoints.Find | utrace-0.1/breakpoints.c:21-25 | the structure for an address, null exactly when the dictionary has none |
| Breakpoints.Breakpoints.Insert | utrace-0.1/breakpoints.c:27-47 | over the heap table and the tracee's memory: makes a structure if needed, counts, plants on the first reference |
| Breakpoints.Breakpoints.Delete | utrace-0.1/breakpoints.c:49-59 | counts down and lifts at zero |
| Breakpoints.Breakpoints.VisitAll | utrace-0.1/breakpoints.c:88-90 | every breakpoint of the dictionary exactly once |
| Breakpoints.Breakpoints.EnableAll | utrace-0.1/breakpoints.c:68-96 | the table walk plants exactly the breakpoints with a count, when not enabled yet |
| Breakpoints.Breakpoints.DisableAll | utrace-0.1/breakpoints.c:105-112 | the table walk lifts exactly the breakpoints with a count, when enabled |
| Breakpoints.Breakpoints.InsertAll | utrace-0.1/breakpoints.c:155-159 | every kept symbol's breakpoint is entered and counted |
| Threads.RegisterAdds | utrace-0.1/proc.c:71-105 | registering in the chosen slot adds exactly one live thread and keeps ids distinct |
| Threads.DeregisterRemoves | utrace-0.1/proc.c:107-138 | deregistering removes exactly that thread, or nothing when it is unknown |
| Threads.RegTidAsWritten | utrace-0.1/proc.c:74-104 | the loop as written: what it records, remembers as hot and returns is its counter, which has run out |
| Threads.RegisterAsWrittenMisses | utrace-0.1/proc.c:98-104 | so the slot returned and remembered is none of the table, and get_proc is right only for slot 0 |
| Threads.ThreadTable.Tid2Thread | utrace-0.1/wait_for_something.c:163-184 | the hot index never changes the answer of the plain scan |
| Threads.ThreadTable.RegTid | utrace-0.1/proc.c:71-105 | finds a known thread, or fills, remembers and returns the first free slot, which is what is meant, or reports that there is none |
| Threads.ThreadTable.DeregTid | utrace-0.1/proc.c:107-138 | empties the thread's slot and forgets a hot index to it |
| Threads.ThreadTable.GetProcInverts | utrace-0.1/proc.c:153-158 | get_proc of a registered thread is its process, for all 256 slots |
| Threads.ThreadTable.Push | utrace-0.1/process_event.c:340-348 | writes the frame array and raises the depth of one thread only |
| Threads.ThreadTable.Drop | utrace-0.1/process_event.c:371 | lowers the depth of one thread only |
| Process.Process.BreakpointsInit | utrace-0.1/breakpoints.c:155-161 | every kept symbol is entered |
| Process.Process.CallstackPushSyscall | utrace-0.1/process_event.c:306-326 | pushes, or drops the frame at depth 99 |
| Process.Process.CallstackPushSymfunc | utrace-0.1/process_event.c:328-353 | inserts the return breakpoint and pushes, or does neither at depth 99 |
| Process.Process.CallstackPop | utrace-0.1/process_event.c:355-372 | pops and, for a function, deletes the return breakpoint |
| Process.Process.CallstackPopTo | utrace-0.1/process_event.c:273-275 | the unwinding loop pops frame by frame down to the given depth |
| Process.Process.ContinueAfterBreakpoint | utrace-0.1/sysdeps/linux-gnu/trace.c:159-173 | lifts a wanted breakpoint and remembers it for the step |
| Process.Process.ReinsertBreakpoint | utrace-0.1/process_event.c:246-251 | plants the remembered breakpoint again and forgets it |
| Process.Process.FindFrame | utrace-0.1/process_event.c:253-254 | the scan finds the highest matching frame |
| Process.Process.FindSymbol | utrace-0.1/process_event.c:289-300 | the scan finds the first matching symbol |
| Process.Process.ProcessReturn | utrace-0.1/process_event.c:273-285 | unwinds, pops, writes the return of the frame's function at the frame's depth and continues over the breakpoint |
| Process.Process.ProcessCall | utrace-0.1/process_event.c:291-297 | writes the call with the depth before the push, pushes and continues over the breakpoint |
| Process.Process.ProcessBreakpoint | utrace-0.1/process_event.c:240-304 | takes the step of the state machine for a trap and writes its text: nothing after a step, the returning or called function's line, or a message |
| Process.Process.ProcessSyscall | utrace-0.1/process_event.c:158-173 | takes the step of the state machine for a system call |
| Process.Process.ProcessSysret | utrace-0.1/process_event.c:225-229 | takes the step of the state machine for a system call's return |
| Process.Process.FindThread | utrace-0.1/wait_for_something.c:74-78 | the thread's slot, registering it when it is new |
| Process.Process.SyscallP | utrace-0.1/sysdeps/linux-gnu/i386/trace.c:29-48 | 2 for a return of the call on top of the stack, 1 for another call, 0 otherwise |
| Process.Process.ClassifyStop | utrace-0.1/wait_for_something.c:109-144 | the event, told apart in the source's order |
| Process.Process.ProcessEvent | utrace-0.1/process_event.c:67-116 | takes the state machine's step for every event and writes exactly that event's text |
| Process.Process.Round | utrace-0.1/ltrace.c:139 | one turn of the main loop takes exactly the state machine's step, writes exactly that event's text and keeps the invariant |
| LogText.ListSplit | utrace-0.1/output.c:209-219 | an argument list splits anywhere into two lists with one comma between |
| LogText.EveryArgumentOnce | utrace-0.1/output.c:284-291 | the call's and the return's argument texts together are all arguments, once each, in index order |
| LogText.LeftKeepsLines | utrace-0.1/output.c:183-224 | after a call the output is complete lines plus one open line of exactly current_column characters |
| LogText.LineKeepsLines | utrace-0.1/output.c:126-147 | a message breaks off an open line, and leaves none open |
| LogText.PadAligns | utrace-0.1/output.c:149-154 | '=' lands in column max(length, opt_a - 1), with blanks before it |
| LogText.RightCompletesLine | utrace-0.1/output.c:261-307 | a return completes a line made of what was on it, its own text, padding to the column, '=' and the value |
| LogText.ResumedLine | utrace-0.1/output.c:261-294 | a resumed line shows a zero where a call's line shows the thread, and ends its arguments with a parenthesis |
| LogReader.ArgumentsParted | utrace-0.1/output.c:209-219 | of a known function all but the last params_right arguments stand at the call, the others at the return |
| LogReader.UnknownArguments | utrace-0.1/output.c:201-207 | of an unknown function five arguments of unknown type stand at the call and none at the return |
| LogReader.CallShowsEarly | utrace-0.1/output.c:201-219 | a call's line depends on the arguments before those alone |
| LogReader.ReturnShowsLate | utrace-0.1/output.c:277-300 | a return's line depends on the waiting arguments and argument -1 alone, a void function's on no value |
| LogReader.PlusParts | utrace-0.1/read_config_file.c:130-135 | in terms of a configuration line: the arguments from the first '+' on wait |
| LogReader.ValueShown | utrace-0.1/output.c:277-307 | a return's line ends in '= ', argument -1 shown as the function's return type says, or "<void>", and the time |
| LogReader.MarkReads | utrace-0.1/output.c:155-174 | every mark reads back: thread, indentation, call or return, depth |
| LogReader.MarkColumns | utrace-0.1/output.c:155-174 | marks of threads with up to five digits and depths with up to two stand in columns |
| LogReader.CallReads | utrace-0.1/output.c:183-224 | a call's line reads back as its thread, depth, function and early arguments |
| LogReader.ReturnReads | utrace-0.1/output.c:261-294 | a return on a line of its own reads back as its depth, function and waiting arguments |
| LogReader.ReturnJoins | utrace-0.1/output.c:261-294 | a return on its call's line adds the waiting arguments |
| LogReader.PrefixReads | utrace-0.1/output.c:36-101 | a line's prefix names the process or the thread, holds the time stamp and indents calls alone |
| LogReader.MessageReads | utrace-0.1/output.c:126-147 | a message is a line of its own |
| Narration.CallTold | utrace-0.1/process_event.c:289-297 | a call is logged under the name of the symbol whose frame it pushes, with its thread and depth |
| Narration.ReturnTold | utrace-0.1/process_event.c:273-285 | a return is logged under the name of the frame it takes away, at that frame's depth |
| Narration.MessageTold | utrace-0.1/process_event.c:103-137 | signals, the process's end and traps nothing is known of are logged as one whole line |
| Narration.SyscallTold | utrace-0.1/process_event.c:158-163 | a system call's entry is logged under its name under -S, and else not at all |
| Narration.SysretTold | utrace-0.1/process_event.c:225-232 | so is its exit |
| Narration.NotTold | utrace-0.1/process_event.c:246-251 | the first stop, the end of a step and an interrupt are not logged |
| Narration.CallAgrees | utrace-0.1/output.c:183-186 | a call's text breaks the open line off exactly when its item says so |
| Narration.ReturnAgrees | utrace-0.1/output.c:261-276 | a return's text goes on the open line exactly when its item is joined, and breaks one off exactly when its item says so |
| Narration.MessageAgrees | utrace-0.1/output.c:126-147 | so for a message, also one without text, which only closes the line |
| Narration.UnderCount | utrace-0.1/output.c:126-260 | under -c nothing is written |
| Printer.FindFunction | utrace-0.1/output.c:103-124 | the first configured function of that name, or none |
| Printer.Printer.BeginOfLine | utrace-0.1/output.c:36-101 | writes the line's prefix and counts its columns |
| Printer.Printer.Name2Func | utrace-0.1/output.c:103-124 | the list walk finds the first function of that name |
| Printer.Printer.ShowArgs | utrace-0.1/output.c:209-212 | the loop writes the arguments in order, separated by commas, and counts their columns |
| Printer.Printer.OutputLeft | utrace-0.1/output.c:176-224 | writes the text and makes the state change specified for a call, nothing under -c |
| Printer.Printer.OutputRight | utrace-0.1/output.c:261-307 | writes the text and makes the state change specified for a return |
| Printer.Printer.OutputLine | utrace-0.1/output.c:126-147 | the same for a message, also one without text |
| Session.StepMoves | utrace-0.1/process_event.c:240-304 | a stop cuts stacks or adds one frame, of a kept symbol or a system call, and changes no symbols |
| Session.EventKeepsLines | utrace-0.1/process_event.c:67-116 | whatever the event, the log stays complete lines plus at most one open line |
| Session.RunKeepsLines | utrace-0.1/output.c:126-308 | in every session and interleaving the log is complete lines and, exactly while current_pid is set, one open line of current_column characters |
| Session.StaysOver | utrace-0.1/ltrace.c:139 | once the session is over no later stop changes its outcome or its log |
| Session.Open | utrace-0.1/proc.c:17-35 | a new process structure with every kept symbol entered; execute_program then fills in the process id |
| Session.RegisteredEarly | utrace-0.1/proc.c:56-67 | open_pid's registration of the process id as a thread's changes nothing when that thread is the first to stop |
| Session.Trace | utrace-0.1/ltrace.c:139 | the main loop over the real structures comes to the state machine's run and has written exactly its text |
| Session.TraceProgram | utrace-0.1/breakpoints.c:131-161 | from the symbol table through the -e option, both in place, to the end of the session: the run of the symbols selected |
| Session.ChosenExactly | utrace-0.1/breakpoints.c:131-151 | exactly the candidates are traced, or with -e those whose name is between its commas, or behind a '!' the others |
| Session.ChosenEntered | utrace-0.1/elf.c:332-337 | whatever is selected, no traced function is entered at address zero |
| CountOnly.LedgerIsCharges | utrace-0.1/output.c:230-260 | under -c a session has charged exactly its returns, in order, each under its frame's function, and with -S system calls' |
| CountOnly.NothingWritten | utrace-0.1/output.c:126-260 | and writes nothing |
| CountOnly.RunAside | utrace-0.1/output.c:126-308 | with -c and without, every session passes through the same states, but for the log |
| CountOnly.EveryReturnCharged | utrace-0.1/output.c:230-260 | at any moment of any session there is one charge for each return the log would show without -c |
| CountOnly.Count | utrace-0.1/ltrace.c:73-79 | a session under -c ends in a report with one exact row for each function that returned, and the exact totals |
| ConfigParser.ScanBackExact | utrace-0.1/read_config_file.c:73-93 | the scan's position and counter decide whether a matching parenthesis lies to the left |
| ConfigParser.ArgumentListFound | utrace-0.1/read_config_file.c:73-93 | the result is the '(' matching the last ')', and there is none exactly when no such parenthesis exists |
| ConfigParser.OneNameAt | utrace-0.1/read_config_file.c:51-58 | at most one type name stands at a position, so a name is never taken for a prefix of it |
| ConfigParser.TypeTableGood | utrace-0.1/read_config_file.c:27-45 | the tracer's table has distinct names without terminators or parentheses |
| ConfigParser.ParsePrinted | utrace-0.1/read_config_file.c:98-157 | parsing inverts printing for any good type table |
| ConfigParser.SignatureRoundTrip | utrace-0.1/read_config_file.c:98-157 | for the tracer's own table: every return type, every name not starting with a space (unbalanced parentheses included), up to 32 arguments, any '+' marks, spacing and parenthesis-free trailing text come back, with params_right counted from the first '+' |
| ConfigParser.TableNames | utrace-0.1/read_config_file.c:27-45 | the table has each known type once, under its own name |
| ConfigParser.TypeReads | utrace-0.1/read_config_file.c:47-60 | a type's name reads as that type |
| ConfigParser.TypeEnds | utrace-0.1/read_config_file.c:51-53 | inside a line exactly a space, a comma, a closing parenthesis and a '#' end a type's name |
| ConfigParser.ParsedFits | utrace-0.1/read_config_file.c:126-153 | whatever the line, 0 <= params_right <= num_params <= 32 |
| ConfigFields.ListFields | utrace-0.1/read_config_file.c:126-152 | each argument read is the next text between commas, of unknown type exactly when that text is blank |
| ConfigFields.UnknownIsBlank | utrace-0.1/read_config_file.c:137-141 | an accepted line has an argument of unknown type exactly where its list has only spaces and perhaps a '+' |
| ConfigFields.EmptyIntArgument | utrace-0.1/read_config_file.c:137-141 | "int f(,int)" is accepted with an unknown first argument |
| ConfigFields.LineEndRejected | utrace-0.1/read_config_file.c:52-53 | a type name that only the line's end terminates is never part of an accepted line |
| ConfigReader.EatSpaces | utrace-0.1/read_config_file.c:62-67 | the cursor moves past the blanks and stays in bounds |
| ConfigReader.Str2Type | utrace-0.1/read_config_file.c:47-60 | the type at the cursor, and the cursor behind it |
| ConfigReader.StartOfArgSig | utrace-0.1/read_config_file.c:73-93 | terminates in bounds with the scan's answer |
| ConfigReader.ReadArg | utrace-0.1/read_config_file.c:127-151 | one round of the argument loop |
| ConfigReader.ReadArgs | utrace-0.1/read_config_file.c:125-153 | fills at most 32 argument types and counts params_right |
| ConfigReader.ProcessLine | utrace-0.1/read_config_file.c:98-157 | parses the line in place as the parser on strings does, and changes nothing but one '(' |
| ConfigFile.LastLineWins | utrace-0.1/read_config_file.c:173-181 | a function's description is that of the last accepted line that names it, and there is none exactly when no line does |
| ConfigFile.ReadConfigFile | utrace-0.1/read_config_file.c:173-181 | the loop reads a file's lines into the list, in front of what earlier files gave |
| Display.PrefixIs | utrace-0.1/sysdeps/linux-gnu/trace.c:175-195 | the bytes before the first NUL, capped, are the only sequence with that property |
| Display.Umovestr | utrace-0.1/sysdeps/linux-gnu/trace.c:175-195 | for any word size the buffer gets exactly that prefix and a NUL, at most len + 1 bytes |
| Display.ReadsChar | utrace-0.1/display_args.c:63-79 | each shown byte from 1 to 255 can be read back, whatever follows |
| Display.UnescapeInverts | utrace-0.1/display_args.c:63-79 | the escape code is uniquely decodable: unescaping gives back the bytes |
| Display.CharShown | utrace-0.1/display_args.c:63-79 | a byte is shown in printable characters: itself, a letter behind a backslash for the five with a C escape, or three octal digits |
| Display.EscapePrintable | utrace-0.1/display_args.c:63-79 | so is a string |
| Display.NullShown | utrace-0.1/display_args.c:92-95 | NULL is shown for the null pointer alone |
| Display.NothingShown | utrace-0.1/display_args.c:96-113 | with a negative limit only the quotes are shown |
| Display.StringDisplay.DisplayString | utrace-0.1/display_args.c:85-116 | prints the quoted, escaped prefix within both limits |
| Display.StringDisplay.DisplayStringN | utrace-0.1/display_args.c:118-126 | uses its limit for one string only |
| Display.ShownTells | utrace-0.1/display_args.c:103-113 | what is between the quotes reads back as the prefix, and dots follow exactly when -s is the limit in force and the string goes on |
| Summary.RowExact | utrace-0.1/output.c:252-260 | a row holds the number of returns and the exact sum of times charged, with microseconds in 0..1000000 |
| Summary.CarriesPastMillion | utrace-0.1/output.c:252-257 | a second is carried only past a million microseconds: a row's microseconds are zero if and only if all charged ones were |
| Summary.RowsAddUp | utrace-0.1/summary.c:30-32 | over all rows, counts give the number of returns and times the total charged |
| Summary.ComparOrders | utrace-0.1/summary.c:37-49 | compar's sign agrees with total microseconds |
| Summary.ReportDescends | utrace-0.1/summary.c:60 | rows sorted by compar come in order of falling total time |
| Summary.RoundsHalfUp | utrace-0.1/summary.c:67-72 | the printed percentage is the exact one rounded half up to hundredths |
| Summary.PercentagesSum | utrace-0.1/summary.c:64-76 | n printed percentages of the whole sum to within n/2 hundredths of 100.00 |
| Summary.TimeSpentIsElapsed | utrace-0.1/process_event.c:186-195 | the charged time is the elapsed time if and only if no borrow is needed; else it is two seconds more |
| Summary.Hash | utrace-0.1/dict.c:131-144 | the loop computes the string hash by which the tables are keyed |
| Summary.HashIs | utrace-0.1/dict.c:131-144 | the hash is the exclusive or of the characters' bits, the one at place n shifted by (5n-1) mod 24 + 1 and the first not at all |
| Summary.Counter.Add | utrace-0.1/output.c:250-258 | one return is added with the source's carry |
| Summary.Accounting.Return | utrace-0.1/output.c:230-260 | one more return in the ledger the table of counters stands for |
| Summary.Accounting.Summarise | utrace-0.1/summary.c:17-35 | one line for each function that returned, with its exact row; tot_count is the number of returns and tot_usecs the total charged |
| Summary.ReportAddsUp | utrace-0.1/summary.c:51-79 | any such report's lines add up to all returns and all time |
| Summary.ReportPercentages | utrace-0.1/summary.c:64-76 | the percentages of a report's lines sum to within n/2 hundredths of 100.00 |
| SymbolFilter.JoinTokens | utrace-0.1/options.c:213-232 | the names joined by commas are the expression, up to one comma at its very end |
| SymbolFilter.TokensHaveNoComma | utrace-0.1/options.c:213-232 | no name has a comma, and only the empty expression has no names |
| SymbolFilter.TokensJoin | utrace-0.1/options.c:213-232 | every list of comma-free names comes back from its expression, save an empty last one |
| SymbolFilter.Strchr | utrace-0.1/options.c:215 | the first comma of the string at the cursor, or its end, in bounds |
| SymbolFilter.Expressions.Take | utrace-0.1/options.c:215-226 | cutting one name off in place leaves all names found earlier as they were |
| SymbolFilter.Expressions.Split | utrace-0.1/options.c:213-232 | the list gets all names of the expression, last one first, in front of the earlier ones |
| SymbolFilter.Expressions.Process | utrace-0.1/options.c:202-234 | the same with the leading '!' taken off and opt_e_enable cleared by it |
| SymbolFilter.Word.Matches | utrace-0.1/breakpoints.c:140 | strcmp against a name inside the cut buffer |
| SymbolFilter.SymbolList.Unlink | utrace-0.1/breakpoints.c:145-146 | removes one node through the pointer to it; the list stays acyclic |
| SymbolFilter.SymbolList.Keep | utrace-0.1/breakpoints.c:136-144 | a symbol is kept exactly when its being on the list equals the enable flag |
| SymbolFilter.SymbolList.Filter | utrace-0.1/breakpoints.c:133-151 | the in-place removal leaves exactly the kept symbols of the list, and everything when the list of names is empty |
| SymbolFilter.FunctionsAre | utrace-0.1/elf.c:325-356 | exactly the global functions of the program's own code are candidates |
| SymbolFilter.TraceableEntry | utrace-0.1/elf.c:332-337 | the condition on an entry's bytes |
| SymbolFilter.LastEntryNamed | utrace-0.1/process_event.c:289-299 | when several entries name one address, the last one's name is taken |
| SymbolFilter.ReadElf | utrace-0.1/elf.c:325-361 | the loop prepends each of them to the list |
| SymbolFilter.SymbolList.Add | utrace-0.1/elf.c:178-205 | a symbol in front of the list; the list stays acyclic |
| SymbolFilter.SymbolList.Symbols | utrace-0.1/breakpoints.c:155-159 | the walk meets every symbol of the list once, in order |
| SymbolFilter.KeptInOrder | utrace-0.1/breakpoints.c:135-150 | each wanted symbol is kept once, in the place of the wanted ones before it |
| SymbolFilter.KeptAreWanted | utrace-0.1/breakpoints.c:135-150 | exactly the wanted symbols are kept |
| SymbolFilter.ExpressionSelects | utrace-0.1/options.c:202-234 | what one option leaves: the symbols named between its commas, or after a '!' the others, or all when nothing is named |
| SymbolFilter.MarkExcludes | utrace-0.1/options.c:207-211 | an expression selects the symbols between its commas, and the same behind a '!' all others |
| SymbolFilter.Select | utrace-0.1/breakpoints.c:133-151 | splitting the option in place and filtering the list in place leave exactly the selected symbols, in order |
| TgidCache.ParseInverts | utrace-0.1/sysdeps/linux-gnu/proc.c:144-175 | parsing a status text inverts decimal printing below 10^9 and gives 0 from ten digits on, whatever comes after the number |
| TgidCache.StatusEnds | utrace-0.1/sysdeps/linux-gnu/proc.c:194-202 | a status text with a line end after the number meets the parser's requirement, although the buffer is not terminated |
| TgidCache.Strstr | utrace-0.1/sysdeps/linux-gnu/proc.c:147 | the first tag before the end, found in bounds |
| TgidCache.CopyDigits | utrace-0.1/sysdeps/linux-gnu/proc.c:165-173 | copies the digits without overrunning the ten-character buffer |
| TgidCache.ParseTgidStr | utrace-0.1/sysdeps/linux-gnu/proc.c:144-175 | computes the specified number, in bounds |
| TgidCache.GetSound | utrace-0.1/sysdeps/linux-gnu/proc.c:51-68 | a hit is the right answer |
| TgidCache.PutSound | utrace-0.1/sysdeps/linux-gnu/proc.c:70-100 | occupied slots stay a prefix with distinct pids and right answers, also when one is replaced |
| TgidCache.Transparent | utrace-0.1/sysdeps/linux-gnu/proc.c:180-208 | over a fixed assignment, any sequence of lookups and flushes gives the uncached answers |
| TgidCache.NoAnswerLeaves | utrace-0.1/sysdeps/linux-gnu/proc.c:200-206 | a lookup without an answer leaves the cache as it was |
| TgidCache.VictimIsLastBelow | utrace-0.1/sysdeps/linux-gnu/proc.c:92-98 | the slot replaced is the last one whose count is below the limit, or the first when there is none |
| TgidCache.NotLeastUsed | utrace-0.1/sysdeps/linux-gnu/proc.c:92-98 | from an empty cache on, ten processes asked for and the tenth any number of times more: an eleventh drives out just that one, and the nine never used again stay |
| TgidCache.VictimIsLast | utrace-0.1/sysdeps/linux-gnu/proc.c:92-98 | the slot replaced is always the last one, so it is the least used one exactly when the last one is |
| TgidCache.Cache.Get | utrace-0.1/sysdeps/linux-gnu/proc.c:51-68 | the array scan does what the function on slots does |
| TgidCache.Cache.Put | utrace-0.1/sysdeps/linux-gnu/proc.c:70-100 | the same for entering a pair |
| TgidCache.Cache.Flush | utrace-0.1/sysdeps/linux-gnu/proc.c:102-107 | every slot is free again |
| TgidCache.Cache.Pid2Tgid | utrace-0.1/sysdeps/linux-gnu/proc.c:180-208 | cache, parser and cache again, as specified |

## Left out

- The kernel's side: ptrace errors, waitpid, register writes such as setting the instruction pointer, signal delivery.
  Registers, the stacked return address and elapsed times come with each stop; peeks and pokes read and write a byte map
  that is defined at every address.
- A successful execve: the tracee's calls are taken to go on after it.
- Following forks with -f and re-initialisation after exec. With -f the source passes a thread where a process is
  expected; the exec branch is proved unreachable on i386.
- A waitpid interrupted by a signal, and a process that is not the traced one: one process is modelled.
- What happens after a detach or an exit: remove_proc frees the process structure.
- The PowerPC branches and the other ports, whose code has not followed the change to thread structures.
- Debug output (-d), instruction pointers (-i, which the program disables) and C++ demangling (-C).
- Mapping ELF files, whose symbol table comes as its entries with their section's name; the option parser apart from -e, PATH search, system call and signal names.
- Out-of-memory paths, dict_clear and duplicated strings' lifetime.
- display_arg's formats other than strings: the text of an argument or return value is a parameter of the printer.
  display_format's directive scan is not modelled.
- Error messages of the configuration parser; fgets gives the lines it reads, each up to its first NUL.
- 32-bit overflow in counts, columns, string limits and the accounting, where the model's integers are unbounded. The
  string hash, the program counter's decrement and the thread's child index wrap as in the source.
- qsort itself: the report's order is proved for any list sorted by compar. The text layout of the report is left out.
- dict_apply_to_all calls back in the middle of its walk. The model's walk returns the pairs in the order of the calls,
  and the callbacks then run over them; they never enter anything into the table.
- Threads.ThreadTable.RegTid: uses the chosen slot where the source uses the exhausted counter, which
  Threads.RegTidAsWritten models.
- Threads.RegisterAdds: holds of the chosen slot.
- Threads.ThreadTable.GetProcInverts: holds of the index of the chosen slot, which the source means to store.
- Printer.Printer.BeginOfLine: the -r and -t time stamps are a parameter.
- TgidCache.ParseTgidStr: a buffer with neither a NUL nor a line end behind the tag, which the source overruns, is excluded.
- Process.Process.Round: under -c the charges are kept in order; CountOnly.Count enters them in the table once the session
  is over, where the source enters each at once. The elapsed times come with each stop.
- RefCounts.SysretKeeps: the -f branches for fork and clone are left out.
- Completeness.SysretMoves: the same.
- Session.Open: the registration of the main thread in open_pid is not part of it; Session.RegisteredEarly says when it
  makes no difference.
- Display.StringDisplay.DisplayString: limits below -2, for which the source allocates no room for the final NUL, are excluded.
- Display.StringDisplay.DisplayStringN: the same.
- TgidCache.Cache.Pid2Tgid: the status file is taken as read; when the process is gone the source parses an uninitialised buffer.
- The serial number of a call and the list of printed items exist only in the model, to say which call a line belongs to;
  nothing branches on them.
