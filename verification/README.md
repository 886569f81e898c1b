# A verified model of the debugger, the trap tracer, the assembly programs and setjmp/longjmp

The model covers the parts of the repository that control machine state.

* **The debugger of `project4`.** It plants `0xcc` by rewriting an 8-byte word of the tracee and
  remembers the whole word; on a hit it writes the word back and steps `rip` back; before each
  resume it re-arms listed addresses above `rip`. `Sessions` states every command branch by branch,
  `DebuggerCommands` has the commands as methods that poke an array and scan a list, each proved to
  compute its session function, and the theorems about sessions follow: what each command may change
  and when it is refused (`Commands`), what every run of commands keeps (`ImageInvariant`, `Runs`), that the debugged run is a stuttering copy of the undebugged
  one (`Transparency`, `FaithfulRuns`), how often it can stutter (`Stuttering`), and where it stops
  (`Arming`). The processor is abstract: a program is its text, the length
  of the instruction at each address, and a function that executes one instruction and reads the
  text only through that instruction's own bytes (`Tracee`).
* **The tracer of `CTF/ptrace/no_more_traps`,** which puts overwritten opcodes back one trap at a
  time, on the same tracee (`NoMoreTraps`).
* **Two assembly programs,** `recur.asm` and `bubble.asm`, as instruction sequences for a processor
  with sixteen 64-bit registers and byte memory (`Machine`, `Processors`, `Recur`, `Bubble`).
  Instructions are addressed by index. `Stepping` holds the rules for reasoning one instruction at a
  time.
* **`setjmp` and `longjmp`** with the system-call stub, on that processor (`SetJmp`), and the program
  `jmp1.c` that drives a table of functions through them (`JumpDriver`).
* **The signal-set functions** of `libmini.c` (`SignalSets`).

`Words` has little-endian words over bytes and the bit operations, for all of them.
`dafny verify dfyconfig.toml` checks the project.

## Where the code does not do what one would expect

Each is kept as it is; the model says exactly when the code does meet the property.

* A hit steps `rip` back twice or more when a later-listed breakpoint lies one byte below
  (`Transparency.HitExact`, `Witnesses.HitCascades`).
* A single step that lands one byte past a listed address is taken for a hit, so a one-byte
  instruction with a breakpoint on it runs and is then shown as still to run
  (`Transparency.SiExact`, `Witnesses.SiRunsTwice`).
* Only listed addresses above `rip` are re-armed, so a breakpoint in a loop stops the program once:
  the hit takes the `0xcc` away, and a continue from there runs through the address the next time
  around, listed as it still is (`Arming.StopsExactly`, `Arming.DisarmsExact`,
  `Witnesses.LoopMissed`).
* `delete` finds an entry by its id and erases by using the id as an index. While ids are indexes
  that is the same entry. They stay so exactly under last-in-first-out deletes; after any other, a
  later delete erases a different entry or reads past the list (`ImageInvariant.DeleteNumbers`,
  `Witnesses.DeleteThenWrongEntry`, `Witnesses.DeleteThenOutOfRange`).
* A delete leaves the saved words sound exactly when no word saved later still holds the erased
  entry's `0xcc`; otherwise that word, written back, puts `0xcc` at an address that is no longer
  listed, and the process passes over the instruction there (`ImageInvariant.DeleteExact`,
  `ImageInvariant.DeleteDamages`, `Witnesses.EarlierDeleteSkips`).
* A stop at a breakpoint leaves no planted byte under `rip`, but a command before the next `cont`
  can put one there, and not only `break`: a last-in-first-out delete writes its saved word back,
  `0xcc` of other entries included (`Stuttering.PlantsExact`, `Witnesses.DeleteStalls`).
* `project4/README.md` allows `load` only when nothing is loaded; the code also accepts it while a
  program is running, and the session can then neither continue nor start anything
  (`Runs.LoadExact`, `Witnesses.LoadWedges`).
* `project3/README.md` says that `setjmp` preserves the signal mask. `rdi` is zero when the address
  of the mask slot is computed from it, so the slot is not written; `longjmp` installs whatever it
  holds. The mask comes back exactly when the slot held it before `setjmp` was called
  (`SetJmp.MaskExact`, `SetJmp.MaskLost`).
* `longjmp(env, 0)` makes `setjmp` return 0, where section 7.13.2.1 of C11 asks for 1; `val` is an
  int, so that is whenever the low half of `rsi` is 0 (`SetJmp.ValueExact`).
* `add esp, 8` in `recur.asm` clears the upper half of `rsp`. It leaves the stack pointer right
  exactly when the frame lies below 2^32; with a frame above, for every n that recurses, `rsp` ends
  up below 2^32, and in the first page above 2^32 the routine faults (`Recur.AddEspExact`,
  `Recur.LosesStack`, `Recur.FaultsAbove`).
* `to_hex` does not know upper-case digits (`NoMoreTraps.DecodeExact`), and at the end of the stream it
  decodes to all ones, which overwrites the seven bytes after the trap as well
  (`NoMoreTraps.StreamRunsOut`).

## Model

| member | source | states |
|---|---|---|
| FaithfulRuns.TransparentRun | project4/hw4.cpp:460-535 | After any sequence of commands - breakpoints, continues, single steps, deletes, restarts, register changes - that keeps to the stated conditions, the prompt shows a state of the undebugged run from the last start or register change, and the instructions completed over all the commands since then, put end to end, are that run up to the state shown. |
| FaithfulRuns.PromptsAscend | project4/hw4.cpp:475-533 | From one prompt to any later one with no start or register change between, the position on the undebugged run does not fall, and the completed instructions continue those completed before. |
| FaithfulRuns.TransparentFromStart | project4/hw4.cpp:3-9 | The same from the first prompt on, with nothing loaded. |
| FaithfulRuns.CommandFollows | project4/hw4.cpp:491-532 | Each such command completes exactly the native instructions from the current position on, leaves the session at the position they lead to, and a process that is gone has exited natively. |
| FaithfulRuns.BreakFollows | project4/hw4.cpp:231-259 | Setting a breakpoint outside instructions and not one below an earlier one keeps the session on the undebugged run. |
| FaithfulRuns.DeleteFollows | project4/hw4.cpp:112-127 | A delete of an entry whose 0xcc no later word holds keeps the session on the undebugged run. |
| Transparency.ContFollows | project4/hw4.cpp:356-364 | A continue completes exactly the native instructions from the current state up to the stop, none skipped, repeated or altered, and shows the native state reached or the native exit. |
| Transparency.AfterStop | project4/hw4.cpp:50-79 | What is shown after a stop: the native exit, the state past the program's own int3, or the native state at a breakpoint with the original byte back. |
| Transparency.HitExact | project4/hw4.cpp:65-72 | After a trap at an entry rip is the breakpoint if and only if no later entry lies one below it; then exactly that entry's word was written back and its byte is the original. |
| Transparency.ScanExact | project4/hw4.cpp:65-73 | The scan never raises rip, and leaves it alone if and only if no listed address is one below it. |
| Transparency.StutterExact | project4/hw4.cpp:356-364 | A continue makes no native step if and only if a planted 0xcc is under rip; then the state is unchanged and the original byte is back, so two continues in a row make progress. |
| Transparency.ProgressAfterHit | project4/hw4.cpp:65-72 | A stop at a breakpoint is at a listed address and leaves no planted byte under rip, so a continue given at once makes a native step. |
| Stuttering.PlantsExact | project4/hw4.cpp:491-532 | Faithful command by faithful command, away from a planted byte: one is under rip afterwards if and only if the command was a break at rip, a delete that writes another listed entry's 0xcc back under rip, a register change onto a planted byte, a single step onto a re-armed address, or a resume stopped by the program's own int3 just before one. |
| Stuttering.StuttersAreBounded | project4/hw4.cpp:356-364 | Over every faithful run, the resumes that complete no instruction are at most as many as the commands that put a planted byte under rip, and one more if one was there at first. |
| Stuttering.ProgressUntilPlanted | project4/hw4.cpp:65-72 | From a prompt with no planted byte under rip, as after every stop at a breakpoint, every resume completes at least one native instruction as long as no command puts such a byte there. |
| Transparency.NoOverrun | project4/hw4.cpp:41-49 | Up to its stop a continue completes no instruction at a listed address above the starting rip, nor at a listed address that already held 0xcc. |
| Arming.StopsExactly | project4/hw4.cpp:41-49 | A continue stops exactly at the first native state, from the current one on, that is at a listed address above the starting rip or holding 0xcc, or at the program's own int3, or at the exit if there is none. |
| Arming.RestartExact | project4/hw4.cpp:385-396 | A started process has the original text byte for byte, whatever was listed, planted or saved before, and the list is kept; its first continue, and a run from LOADED, stop exactly at the first native state listed above the entry or at the program's own int3, or at the exit. |
| Arming.HoldsExact | project4/hw4.cpp:491-532 | Command by command, whether a listed address holds 0xcc afterwards: what a word written back over it had saved there; otherwise 0xcc if it was there, if a break asks for it, or if a resume from below re-arms it. |
| Arming.DisarmsExact | project4/hw4.cpp:69 | A listed address loses its 0xcc by a command if and only if the command writes back a word, of a hit or of the entry it erases, that saved another byte there. |
| Transparency.SiExact | project4/hw4.cpp:218-226 | Away from a planted byte, a single step reaches the next native state if and only if that state's rip is not one past a listed address; otherwise rip falls short of it. |
| Transparency.SiArms | project4/hw4.cpp:223-224 | A single step on the undebugged run from a byte that is not planted, unless it lands one byte past a listed address, re-arms: afterwards the text has 0xcc at every listed address above the old rip and is otherwise unchanged. |
| Transparency.SiFalseHit | project4/hw4.cpp:65-72 | If it does land one past a listed address, the re-armed text has that entry's word written back, and rip is at the entry, on its original byte. |
| Transparency.SiStutters | project4/hw4.cpp:218-226 | On a planted byte a single step changes no register and puts the original byte back. |
| Commands.RefusedChangesNothing | project4/hw4.cpp:356-402 | A command that is not accepted leaves the whole session as it was: break, cont, si, delete and set outside RUNNING, break without an address, delete of an id not listed, start unless LOADED without a process, run with neither, load while LOADED, and load of a file that is not a 64-bit ELF. |
| Commands.PhaseExact | project4/hw4.cpp:365-397 | What each accepted command makes of phase, pid and the rest: load gives LOADED and changes nothing else; start gives RUNNING with the new pid, the original text, the entry registers and the old list; cont, si and run give RUNNING, or LOADED without a pid exactly when the process exits; the others keep phase and pid. |
| Commands.ListExact | project4/hw4.cpp:241-256 | The list changes if and only if an accepted break is at an address neither listed nor holding 0xcc, or an accepted delete erases an entry. |
| Commands.NothingWithoutLoad | project4/hw4.cpp:442-449 | From the first prompt, a script changes nothing at all as long as it loads no 64-bit ELF file, and after one that does a program is loaded or running. |
| Runs.InvariantOverRun | project4/hw4.cpp:460-535 | Over every disciplined run: text bytes are original, or 0xcc at a listed address; saved words are sound; listed addresses are nonzero and distinct; RUNNING exactly when pid is nonzero. |
| Runs.ExecExact | project4/hw4.cpp:491-532 | One command keeps that invariant if and only if it is not a delete of an entry whose 0xcc a word saved later still holds, and not a load over a running program. |
| Runs.NumbersExact | project4/hw4.cpp:117-123 | While every id is an index, one command keeps it so if and only if it is not a delete of an earlier entry. |
| Runs.LifoOverRun | project4/hw4.cpp:112-127 | Over every run of last-in-first-out deletes without a load over a running program, every id is an index, every delete is disciplined and the invariant holds. |
| Runs.Teardown | project4/hw4.cpp:112-127 | From every such state, deleting all breakpoints last first is possible and leaves the text byte for byte the original, registers and session state untouched. |
| Runs.LoadExact | project4/hw4.cpp:398-452 | A load keeps the invariant if and only if it does not replace a running program. |
| Runs.WedgedForever | project4/hw4.cpp:375-383 | LOADED with a process attached: no sequence of commands changes anything any more. |
| ImageInvariant.DeleteExact | project4/hw4.cpp:117-125 | A delete keeps the invariant on text and saved words if and only if no word saved later than the erased entry holds its 0xcc. |
| ImageInvariant.DeleteDamages | project4/hw4.cpp:69 | Otherwise that later word, when it is next written back, puts 0xcc at an address no longer listed, over an original byte. |
| ImageInvariant.DeleteEffect | project4/hw4.cpp:121-122 | Any delete that finds its id erases the entry at that index, restores its byte and leaves every other byte original or 0xcc at an address still listed. |
| ImageInvariant.DeleteNumbers | project4/hw4.cpp:117-123 | While ids are indexes a delete erases the entry it matched; ids stay indexes if and only if that was the last entry or there was none. |
| ImageInvariant.DeleteLast | project4/hw4.cpp:117-123 | Deleting the last entry removes exactly it and leaves every byte original or at an address still listed. |
| ImageInvariant.RearmKeeps | project4/hw4.cpp:41-49 | Re-arming changes no entry; afterwards a listed address holds 0xcc if and only if it is above rip or held it before, and no other byte has changed. |
| ImageInvariant.BreakKeeps | project4/hw4.cpp:231-259 | Setting a breakpoint keeps the invariant, including the soundness of a saved word that contains other breakpoints' 0xcc. |
| ImageInvariant.BreakEffect | project4/hw4.cpp:241-256 | Rewriting the word changes exactly one byte of the text, to 0xcc, and lists the address once with the word found there. |
| ImageInvariant.PokeSaved | project4/hw4.cpp:69 | Writing back the saved word of any entry leaves every byte original or listed 0xcc, and the entry's own byte original. |
| ImageInvariant.ScanKeeps | project4/hw4.cpp:65-73 | The scan keeps the invariant even when it cascades. |
| DebuggerCommands.Debugger.constructor | project4/hw4.cpp:3-9 | A new debugger has nothing loaded, nothing listed and no process. |
| DebuggerCommands.Debugger.Bp | project4/hw4.cpp:231-259 | The method changes list and text as the session function says, and reports the address whose word cannot be written, which ends the debugger. |
| DebuggerCommands.Debugger.ChkBp | project4/hw4.cpp:41-49 | The loop over the list computes the session's re-arming. |
| DebuggerCommands.Debugger.ChkStat | project4/hw4.cpp:50-79 | The report of waitpid handled as the session function says: exit, or the scan. |
| DebuggerCommands.Debugger.Cont | project4/hw4.cpp:356-364 | Re-arm, resume, handle the stop. |
| DebuggerCommands.Debugger.Si | project4/hw4.cpp:218-226 | Re-arm, one instruction, handle the stop. |
| DebuggerCommands.Debugger.Del | project4/hw4.cpp:112-127 | Finds by id, writes back and erases by index. |
| DebuggerCommands.Debugger.Run | project4/hw4.cpp:365-374 | Continue while RUNNING, start and continue while LOADED, otherwise nothing. |
| DebuggerCommands.Debugger.Start | project4/hw4.cpp:375-397 | A fresh process with the original text, only when LOADED without a process; the list survives. |
| DebuggerCommands.Debugger.LoadFile | project4/hw4.cpp:398-452 | The state part of load. |
| DebuggerCommands.Debugger.SetRegs | project4/hw4.cpp:160-189 | Register changes apply only while RUNNING. |
| DebuggerCommands.Debugger.Interact | project4/hw4.cpp:475-533 | The command loop over a whole script computes the run the theorems above speak about. |
| Tracee.RunAgrees | project4/hw4.cpp:362 | A patched text runs like the original, state by state, until it traps at a patched byte, traps at its own int3, or exits. |
| Tracee.StopIsStable | project4/hw4.cpp:52 | Where a process stops does not depend on how long the debugger is prepared to wait. |
| Tracee.RunUntilStop | project4/hw4.cpp:362-363 | The loop that runs the process returns the stop and the states passed through. |
| Witnesses.HitCascades | project4/hw4.cpp:65-72 | A script from the first prompt whose hit ends on a state that the undebugged run never has. |
| Witnesses.SiRunsTwice | project4/hw4.cpp:66 | A script from the first prompt in which si shows an executed instruction as still to run. |
| Witnesses.LoopMissed | project4/hw4.cpp:46 | A script from the first prompt: a breakpoint in a loop stops its program the first time around and is run through, though still listed, the second time. |
| Witnesses.DeleteStalls | project4/hw4.cpp:121 | A script from the first prompt: stopped at a breakpoint, a last-in-first-out delete puts 0xcc back under rip, and the next continue changes nothing. |
| Witnesses.EarlierDeleteSkips | project4/hw4.cpp:117-123 | A script from the first prompt: after deleting an earlier entry, a hit writes 0xcc to an unlisted address, and the next continue passes over the instruction there. |
| Witnesses.DeleteThenOutOfRange | project4/hw4.cpp:118-122 | After deleting any earlier entry, deleting the last one by its id indexes past the end of the list. |
| Witnesses.DeleteThenWrongEntry | project4/hw4.cpp:118-122 | And deleting one in between by its id erases the entry after it. |
| Witnesses.LoadWedges | project4/hw4.cpp:399-402 | Loading over a running program leaves a session that no commands change. |
| NoMoreTraps.Simulates | CTF/ptrace/no_more_traps/test.cpp:62-86 | Whether the program exits or not: if the stream begins with the opcodes that the first n native steps ask for, in order of first use, then after any number of events within n the process has gone through exactly the first native states; every event is one native step or one trap, one trap for each site served, and the sites served are those met. |
| NoMoreTraps.ExitsAlike | CTF/ptrace/no_more_traps/test.cpp:62-87 | If the original exits, so does the traced process, having completed all of the native run with one trap for each site the original executes; those sites, and no others, hold their opcodes again. |
| NoMoreTraps.Trace | CTF/ptrace/no_more_traps/test.cpp:62-86 | The tracer's loop, for any text and any stream under which the process ends: it performs exactly the events that the two theorems are about. |
| NoMoreTraps.FirstUsesExact | CTF/ptrace/no_more_traps/test.cpp:62-76 | The order of first use that the stream must follow lists exactly the sites the original program executes, each once. |
| NoMoreTraps.Untrap | CTF/ptrace/no_more_traps/test.cpp:67-84 | One stop: what is read, written and rewound, for any characters in the stream and any stop, also where the word cannot be read. |
| NoMoreTraps.TrapTracks | CTF/ptrace/no_more_traps/test.cpp:70-84 | One trap: it is at a site not served before, the two characters decode to the original byte, exactly that byte of the text changes, and the process is again at the native state. |
| NoMoreTraps.EventTracks | CTF/ptrace/no_more_traps/test.cpp:60-64 | Every event keeps the process on the original run: an instruction at an address that is not trapped is the native step, and a trap is at the next site the stream has a byte for. |
| NoMoreTraps.DecodesByte | CTF/ptrace/no_more_traps/test.cpp:31-37 | The lower-case hex text of every byte decodes to that byte. |
| NoMoreTraps.DecodeExact | CTF/ptrace/no_more_traps/test.cpp:31-37 | Two hex digits of either case decode to the byte they write if and only if neither is upper-case. |
| NoMoreTraps.StreamRunsOut | CTF/ptrace/no_more_traps/test.cpp:74-78 | A trap when the stream has no two characters left overwrites all eight bytes of the word with 0xff and is counted like any other. |
| Words.PatchIsByteUpdate | CTF/ptrace/no_more_traps/test.cpp:76-77 | Peek, replace the low byte, poke: exactly one byte of memory changes. |
| Recur.Routine | CTF/assembly/recur.asm:16-56 | For every n and every stack with room whose frame, if r recurses, lies below 2^32, r returns to its caller with r(n) mod 2^64 in rax, rsp above the return address, rbp and the ten registers it does not use unchanged, no byte outside the frame changed; it reaches exactly 8 bytes (n <= 1) or 24n - 8 bytes below its entry rsp, in a number of instructions and of entries given by recurrences. |
| Recur.AddEspExact | CTF/assembly/recur.asm:30 | Back from the first nested call, add esp, 8 leaves rsp at the frame address if and only if the frame lies below 2^32. |
| Recur.LosesStack | CTF/assembly/recur.asm:27-30 | For every n >= 2 with the frame at or above 2^32, some activation of the run finds rsp below 2^32 and its frame above. |
| Recur.FaultsAbove | CTF/assembly/recur.asm:30-35 | With the frame in the first page above 2^32 the routine faults. |
| Recur.ClosedForm | CTF/assembly/recur.asm:4-6 | 4 r(n) = 3^n - (-1)^n for every n >= 0. |
| Recur.EntriesAreFibonacci | CTF/assembly/recur.asm:27-41 | r is entered 2 F(n+1) - 1 times. |
| Recur.Program | CTF/assembly/recur.asm:12-15 | The program halts with 211822152361 in rax and the stack pointer restored, 608 bytes of stack used. |
| Recur.Execute | CTF/assembly/recur.asm:12-57 | The fetch-execute loop on the program ends in that state. |
| Bubble.Program | CTF/assembly/bubble.asm:27-55 | For every length and every array: the program halts, the cells are the permutation of the input in two's complement order (top bit set first, then by magnitude as words), nothing else in memory has changed, the exchange block ran once per inversion, and the instruction count is fixed by length and inversions. |
| Bubble.TenCells | CTF/assembly/bubble.asm:4-13 | For the ten cells of the file: 531 instructions and three more for each inversion. |
| Bubble.Execute | CTF/assembly/bubble.asm:27-55 | The fetch-execute loop sorts the array in the processor's memory. |
| Bubble.StoresSwap | CTF/assembly/bubble.asm:44-46 | The two stores exchange two neighbouring cells and change no other byte. |
| Machine.WidthsExact | CTF/assembly/bubble.asm:33-34 | A signed reading lies in the signed range of its width and is congruent to the word; a result kept in a register lies in the unsigned range and is congruent to the value. |
| BubbleSorting.Sorts | CTF/assembly/bubble.asm:17-24 | The nested loops sort, permute, and exchange exactly once per inversion of the input. |
| BubbleSorting.SwapRemovesOne | CTF/assembly/bubble.asm:44-46 | Exchanging neighbours that are out of order removes exactly one inversion. |
| SetJmp.Setjmp | project3/libmini64.asm:67-91 | setjmp returns 0 to its caller, saves rbx, rsp, rbp, r12-r15 and the return address, and changes no other register but rax and r11, no byte outside the eight slots and 48 bytes of stack, and not the mask. |
| SetJmp.Longjmp | project3/libmini64.asm:94-118 | longjmp goes to the saved address with the saved registers and val in rax, restores the argument registers, installs exactly the signals of the mask slot less SIGKILL and SIGSTOP, and changes no byte above the return-address slot or more than 48 bytes below it. |
| SetJmp.RoundTrip | project3/libmini64.asm:67-118 | setjmp, any computation that leaves the slots alone, longjmp: back where setjmp returned, with the callee-saved registers of section 3.2.1 of the System V AMD64 ABI as they were, and the signals that env's mask slot holds by then, less SIGKILL and SIGSTOP, blocked. |
| SetJmp.MaskExact | project3/libmini64.asm:81-116 | If the mask slot is left alone too, the mask of the call of setjmp is back after longjmp if and only if the slot held it before that call. |
| SetJmp.MaskLost | project3/libmini64.asm:81-116 | A concrete call with SIGUSR1 blocked and a zero mask slot, after which nothing is blocked. |
| SetJmp.ValueExact | project3/libmini64.asm:117 | The int delivered is the one C11 asks for if and only if the int val, the low half of rsi, is not 0. |
| SetJmp.AsIntExact | project3/libmini.h:281-282 | An int argument or result is the signed number in the low half of its register. |
| SetJmp.Stub | project3/libmini64.asm:2-11 | The stub returns to its caller with only rax, rcx and r11 changed and one word of stack used. |
| SetJmp.AskOldMask | project3/libmini64.asm:77-89 | setjmp's system call writes nothing and leaves the mask as it is. |
| SetJmp.InstallMask | project3/libmini64.asm:104-116 | longjmp's system call makes the blocked signals exactly those of env's mask slot less SIGKILL (9) and SIGSTOP (19). |
| SetJmp.SettableSignals | project3/libmini64.asm:108-112 | As a set of signals, a mask that is installed is the mask given less the two signals that cannot be blocked. |
| JumpDriver.Drive | project3/jmp1.c:21-28 | For a table of any length the entries are called once each, in order, and main returns with i equal to the length, rsp and the callee-saved registers as at its call of setjmp, and every byte of its frame and above unchanged but i and the slots of the jmp_buf. |
| JumpDriver.CallReturns | project3/jmp1.c:6-17 | A call of entry k comes back out of setjmp with int value k + 1, i, the context and main's frame and registers intact. |
| SignalSets.Perform | project3/libmini.c:176-195 | Any sequence of empty, fill, add and delete on a sigset_t is that sequence on a finite set of signals 1 to 64. |
| SignalSets.SigEmptySet | project3/libmini.c:176-179 | The byte loop leaves the empty set. |
| SignalSets.SigFillSet | project3/libmini.c:180-183 | The byte loop leaves the set of all 64 signals. |
| SignalSets.SigAddSet | project3/libmini.c:184-187 | Adds exactly the given signal. |
| SignalSets.SigDelSet | project3/libmini.c:188-191 | Removes exactly the given signal. |
| SignalSets.SigIsMember | project3/libmini.c:192-195 | Answers 1 if and only if the signal is in the set, else 0. |
| SignalSets.WithSignal | project3/libmini.c:185 | Oring the mask into the word is set insertion. |
| SignalSets.WithoutSignal | project3/libmini.c:189 | Anding with the complement of the mask is set deletion. |
| SignalSets.Memset | project3/libmini.c:225-230 | Writes the first n bytes with the value as a char and no other byte. |

## Left out

- SigAddSet, SigDelSet, SigIsMember: signals 1 to 64 only; for others the C shift is undefined.
- Stub: only the two uses of rt_sigprocmask that setjmp and longjmp make of the macro, with no set or with SIG_SETMASK and a readable set, and no writable place for the old mask.
- Bp: an address mapped outside the text, which the source reads and pokes like any other, counts as unmapped and ends the debugger.
- ChkStat: a stop by a signal other than SIGTRAP, which the source only reports.
- Drive: C control flow on top of the machine; what a table entry does before its longjmp is a parameter that must leave main's frame and the jmp_buf alone, and nothing is said of the code main itself is compiled to.
- TransparentRun: programs that read or write their own text are not covered; data memory is part of the abstract rest of the process.
- The exits of `error()` other than that of `bp` at an unmapped address.
- ptrace, fork, waitpid, exec and the kernel: replaced by the tracee; a command that lets the process run is taken only where the process stops again.
- rt_sigprocmask with SIG_BLOCK or SIG_UNBLOCK and a set, which the modelled code never asks for.
- A second file: `load` while LOADED is refused but still changes the path that `start` executes (project4/hw4.cpp:517); the model has one program per session.
- Registers and memory of the processor for the assembly programs are values inside a mutable processor; instruction encodings and lengths are not modelled, jump targets are instruction indexes.
- Arithmetic flags are modelled only as the operands of the last comparison; a conditional jump after other arithmetic would fault, and none occurs.
- Disassembly, `vmmap`, `help`, `get`, `getregs`, `list`, `dump`, command-line splitting and ELF parsing: input, output and library work.
- `project1` and `project2`: thin wrappers over libc and the kernel.
- The system-call wrappers, `perror`, `alarm`, `signal`, `sigaction`, `sigpending`, `sigprocmask`, `sleep` and `open` of `project3`: their meaning is the kernel's.
- The straight-line assembly exercises: easy members without loops or recursion.
