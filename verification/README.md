# Spicule, modelled in Dafny

Spicule is a C library for Windows and Linux together with its start-up code, its fuzz
harnesses and its Linux pilots. This project models the parts with the most state, branching or
arithmetic and proves what they promise, over all inputs, all interleavings or all runs. Each module
has a file of its name.

| files | what they model |
|---|---|
| `Utf16`, `SplitSpec`, `Quoting`, `CommandGrammar`, `Conservation`, `Capacity`, `Splitter` | splitting the Windows command line into `argv`: a recursive splitter, the grammar every line is written in, the quotings that it undoes, what it conserves, and the in-place loops with their buffer and growing vector |
| `BroadcastModel`, `BroadcastInvariant`, `BroadcastSafety`, `BroadcastLiveness`, `BroadcastWithoutBarrier` | `pthread_cond_broadcast` waking any number of workers: mutex, condition queue and semaphore tokens, with and without the lock/unlock barrier |
| `Totals`, `Unlocked`, `Locked` | the unlocked counter and the semaphore lock of the thread pilot |
| `RegexText`, `RegexFilter`, `RegexTokens`, `RegexCompiler`, `RegexAgreement`, `RegexProgram`, `RegexSafety` | the fuzzer's filter on regular expressions against the compiler it guards: bracket and interval parsing, and the emitted program |
| `RegexMeaning`, `RegexRepeats`, `RegexBounds`, `RegexGrammar` | what a pattern means, and that its program asks for exactly that |
| `RegexThreads`, `RegexMachine`, `RegexMatcher`, `RegexExec`, `RegexThorough`, `RegexLanguage`, `RegexMiss` | the backtracking matcher that runs the program, with its guard against empty loops, its undo log and its captures: that it ends, what it tries, and what it finds against what the pattern means |
| `SedSegments`, `SedClassify`, `SedCommands`, `SedParser`, `SedReading`, `Dickson`, `SedMachine`, `SedFlow`, `SedCycles`, `SedFilter`, `SedVerdict`, `SedScripts` | the fuzzer's filter on sed scripts, splitting and classifying, against sed itself: sed's whole grammar, the machine that runs it, and whether it can run on without reading a line |
| `EnvSpec`, `EnvOwnership`, `EnvLibrary`, `EnvFuzz`, `EnvHistory` | `setenv`, `putenv`, `unsetenv` and `getenv` with string ownership, under the environment fuzzer's record machine and its own checks |
| `PeImages`, `DelayLoad` | lazy binding of imports: the loader's list, export lookup, IAT slots and the nested resolution of ntdll |
| `FdTable`, `Lockstep`, `Descriptors` | the descriptor table beside the kernel's own |
| `Decimals`, `MonetaryParser`, `MonetaryText`, `MonetaryReading`, `MonetaryGrammar`, `MonetaryBuffer`, `MonetaryGenerator`, `MonetaryChooser`, `MonetaryCoding` | `strfmon` and the generator of formats that drives it |
| `Quoted`, `ReportBuffer` | the bounded, quoted report buffer |
| `Pool`, `PoolSplit`, `Bump` | the atomic slot pool and the bump allocator of the pilots |
| `Common` | optional values, digits and the pigeonhole facts several of them share |

## Where a promise fails

The code is modelled as it is. Each promise it misses has a concrete failure and the condition under which it is
kept.

- The regular-expression filter is meant to accept only patterns in which every repeat applies to one
  character. It takes `[:`, `[.` or `[=` after a range's `-` as the start of a class; the compiler takes
  the `[` as the end of the range. `[A-[:]()*:]]` is accepted, yet a repeat applies to an empty group, and only
  the matcher's guard stops it from going round (`RegexThreads.FilterMissesOneForm`). On basic expressions the
  filter also turns down harmless patterns, `*`, `+`, `?` and `^+` among them (`RegexAgreement.OverRejected`). It
  is right on a pattern that compiles exactly when it agrees with a scan of the text given here
  (`RegexAgreement.PlainExactly`, `RegexAgreement.FilterAgrees`). The matcher itself always ends, plain pattern
  or not (`RegexMachine.MatcherHalts`).
- `regexec` is said to explore every alternative at the first viable start and to keep the longest match. The
  offsets its guard records at back edges are not taken back when it backtracks, so that a repeat tried once far into
  the subject may not go round further to the front: `.*a.*b` is not found in `acbac` (`RegexMiss.MatchMissed`). An
  attempt tries everything exactly when each back edge it refuses leads to a place it comes to anyway
  (`RegexMatcher.TriesAllExactly`), and what it reports is then the leftmost and longest match of the pattern
  (`RegexLanguage.RegexecRight`). A condition on the pattern alone suffices: one loop, on a single character, that no
  choice in front of it comes back to (`RegexLanguage.OneLoopRight`). What `regexec` reports is a match in any case.
- The sed filter's comment names one thing it can miss, a command that reads input but is skipped by its
  address. There are five more, none of which needs an address: a forward branch over such a command,
  `:a;bc;n;:c;ba` (`SedScripts.LeapMissed`); a blank behind a branch's name, which belongs to the name for the filter
  and not for sed, `:a;ba ` (`SedScripts.TrailMissed`); a separator inside a command or comment, which the filter cuts
  at, `:a;s/;n;/x/;ba` (`SedScripts.InsideMissed`); two commands in one segment, `:a ba`
  (`SedScripts.SharedMissed`); and a `D` that starts over on what is left without reading a line, `G;D`
  (`SedScripts.RestartMissed`). These are all: an accepted script can run forever exactly when a step of one of
  these kinds lies on a way round (`SedFlow.AcceptedExact`, `SedVerdict.FilterRight`). The other way round, the
  filter rejects `:a;b;ba`, which ends because a branch without a name always leaves (`SedScripts.LeavesTurned`);
  a rejected script runs forever exactly when a way round takes a back edge the filter found, or one of those
  steps. "Can" leaves open whether an addressed command is selected, whether a substitution is made and how many
  newlines it leaves: `:a;$!n;$q;ba` counts as one that can, though with the addresses taken into account it ends.
- Closing an event through the table is said to keep the table and the kernel in step.
  `__plat_sigevent_create` installs the bare descriptor number where every other handle is the number plus
  one, so `close` closes the number below (`Lockstep.CloseExact`, `Lockstep.SecondEventDiffers`).
- `strfmon` marks an absent right precision with the largest `unsigned long`, so a precision that is that
  number counts as absent, and one that does not fit wraps (`MonetaryGenerator.PrecisionExact`).
- The slot pool's counter is an `int`; after 2^31 requests that fit a slot it is negative, and negative numbers
  pass its only test (`Pool.PoolExact`).
- The bump allocator's size test wraps for requests near 2^64 (`Bump.Arena.Malloc`).
- Quoting round-trips every argument, but the program name has no escape for a quote
  (`Quoting.SplitUndoesQuoting`).
- The environment fuzzer's own check on a kept value copies at most 64 bytes, so it would misreport a longer
  inherited one (`EnvFuzz.KeptValueMisreported`).

## Model

| member | source | states |
|---|---|---|
| `SplitSpec.Split` | crt/crt1.c:61-140 | the split always yields at least the program name |
| `Quoting.EscapeReads` | crt/crt1.c:52-60 | inside quotes, the escaped form of any text reads back as that text, stopping at the closing quote |
| `Quoting.ArgumentsRoundTrip` | crt/crt1.c:92-135 | any list of arbitrary arguments, quoted and joined by blanks, splits back into exactly that list |
| `Quoting.NameReads` | crt/crt1.c:79-90 | a quoted program name without a quote is read whole |
| `Quoting.SplitUndoesQuoting` | crt/crt1.c:52-140 | splitting a quoted command line gives back the list, if and only if the program name holds no quote |
| `Quoting.RequotingIsIdentity` | crt/crt1.c:61-140 | quoting the split of any line and splitting again changes nothing |
| `CommandGrammar.ArgumentReads` | crt/crt1.c:97-119 | an argument written in units (plain characters, backslashes, escaped quotes, quotes that open or close, and doubled quotes inside quotes) is read as what the units stand for |
| `CommandGrammar.EveryArgument` | crt/crt1.c:97-119 | every text begins with an argument so written |
| `CommandGrammar.ArgumentsRead` | crt/crt1.c:92-135 | the same for any number of arguments with blanks between |
| `CommandGrammar.SplitReads` | crt/crt1.c:61-140 | a line written as blanks, a name and arguments splits into the name without its quotes and what the arguments stand for |
| `CommandGrammar.EveryLine` | crt/crt1.c:61-140 | every line is so written, so this says what any line splits into |
| `CommandGrammar.DoublingReads` | crt/crt1.c:113-117 | an argument quoted with doubled quotes reads back as itself |
| `CommandGrammar.SplitUndoesDoubling` | crt/crt1.c:52-140 | a line quoted that way splits back into its list, if the program name holds no quote |
| `Conservation.SplitConserves` | crt/crt1.c:70-139 | the arguments laid end to end are the line with nothing left out but blanks, quotes and backslashes, in order |
| `Capacity.NextCapacity` | src/internal/libc.h:832-849 | the new capacity holds what is asked and its byte size is representable; it fails exactly when no such size is; it is smaller than the current one only where the initial capacity itself is too large |
| `Splitter.SkipBlanksFrom` | crt/crt1.c:95-96 | stops at the text that skipping blanks leaves |
| `Splitter.ReadProgramName` | crt/crt1.c:79-90 | the loop over the first token reads what the recursive splitter reads, and writes no further than it has read |
| `Splitter.ReadRun` | crt/crt1.c:99-112 | a run of backslashes is halved before a quote, kept elsewhere; the write index stays behind the read index |
| `Splitter.ReadUnit` | crt/crt1.c:97-119 | one unit of an argument advances the loop as one step of the recursive splitter |
| `Splitter.ReadArgument` | crt/crt1.c:93-120 | an argument's loop reads what the recursive splitter reads into a buffer that always suffices |
| `Splitter.Grow` | crt/crt1.c:121-133 | growing keeps every stored argument and leaves room for one more, or fails for lack of a representable size |
| `Splitter.Store` | crt/crt1.c:121-134 | each store lands inside the vector |
| `Splitter.ReadArguments` | crt/crt1.c:92-135 | the outer loop collects exactly the remaining arguments |
| `Splitter.SplitCmdline` | crt/crt1.c:61-140 | the vector holds the split of the line and a final null, unless its size is not representable, and then the result is -1 |
| `BroadcastSafety.InvKept` | src/thread/pthread_mutex.c:208-355 | every step of any worker or of main keeps mutual exclusion, the waiter counts, the hand-off token and the queue's contents |
| `BroadcastSafety.InvAlways` | src/thread/pthread_cond.c:206-361 | the invariant holds in every reachable state, for any number of workers, with spurious wakeups and interrupted waits |
| `BroadcastLiveness.NoneMissed` | fuzz/linux_pilot_test_pthread_cond.c:98-140 | when main broadcasts after the barrier, every worker is in the queue or already awake |
| `BroadcastLiveness.NeverStuck` | fuzz/linux_pilot_test_pthread_cond.c:86-140 | some step that makes progress is possible in every reachable state that is not final, and it need not be a spurious wakeup |
| `BroadcastLiveness.EndsRight` | fuzz/linux_pilot_test_pthread_cond.c:130-143 | a final state has all workers started and woken, an empty queue and a free mutex without waiters |
| `BroadcastLiveness.MeasureFalls` | src/thread/pthread_cond.c:206-361 | every step but spinning and interruption lowers a measure, and an interruption raises it by at most 2 |
| `BroadcastLiveness.EveryRunEnds` | fuzz/linux_pilot_test_pthread_cond.c:86-140 | a run makes at most 61n + 42 progress steps and two more for each interruption |
| `BroadcastWithoutBarrier.LostForever` | src/thread/pthread_cond.c:345-361 | a worker that enters the queue after the broadcast is never woken by it |
| `BroadcastWithoutBarrier.WakeupLostWithoutBarrier` | fuzz/linux_pilot_test_pthread_cond.c:113-128 | without the barrier some run of n workers loses a wakeup |
| `BroadcastWithoutBarrier.NoneLostWithBarrier` | fuzz/linux_pilot_test_pthread_cond.c:113-140 | with it none does |
| `Locked.InvKept` | fuzz/linux_pilot_test_thread.c:48-111 | semaphore value plus threads inside is 1 after every step, and the counter is the increments made |
| `Locked.Alone` | fuzz/linux_pilot_test_thread.c:57-82 | a post never takes the semaphore past 1: whoever posts was alone inside |
| `Locked.LockedExact` | fuzz/linux_pilot_test_thread.c:133-168 | every finished run of n threads and k rounds ends at exactly n times k, the semaphore back at 1 |
| `Locked.NeverStuck` | fuzz/linux_pilot_test_thread.c:57-111 | a run that is not finished can go on |
| `Locked.RunLength` | fuzz/linux_pilot_test_thread.c:94-111 | a finished run takes exactly 4nk steps |
| `Unlocked.InvAlways` | fuzz/linux_pilot_test_thread.c:94-111 | in every interleaving no value exceeds the stores completed, a store leaves at least 1, and a finished run at least 2 |
| `Unlocked.OnlyPossible` | fuzz/linux_pilot_test_thread.c:103-108 | no run ends outside the possible counts |
| `Unlocked.EveryPossible` | fuzz/linux_pilot_test_thread.c:103-108 | each possible count is reached by a run |
| `Unlocked.FinalCounts` | fuzz/linux_pilot_test_thread.c:160-167 | the final counts of n threads and k rounds are exactly those: from 2 to nk where n and k are at least 2, and the smaller cases |
| `Unlocked.WrongCountNotForced` | fuzz/linux_pilot_test_thread.c:160-167 | a wrong count is possible and the right one is too |
| `RegexFilter.SkipIntervalFrom` | fuzz/fuzz_regex.c:72-145 | the interval loop stops where the interval ends |
| `RegexFilter.SkipBracketFrom` | fuzz/fuzz_regex.c:72-145 | the bracket loop stops where the filter takes the expression to end, classes skipped whole |
| `RegexFilter.SafeToExec` | fuzz/fuzz_regex.c:62-145 | the scanning loop decides exactly the recursive scan, brackets ended the filter's way |
| `RegexTokens.TokensScan` | fuzz/fuzz_regex.c:62-145 | over a pattern cut into tokens the filter accepts exactly if each repeat stands right behind a token that matches one character |
| `RegexTokens.AcceptedExactly` | fuzz/fuzz_regex.c:62-145 | it accepts a pattern exactly if it can be so written |
| `RegexAgreement.MembersAgree` | src/regex/regex.c:292-352 | the compiler ends a bracket's members where a scan that steps over ranges does, in every pattern |
| `RegexAgreement.BracketAgrees` | src/regex/regex.c:292-352 | and so the bracket expression |
| `RegexAgreement.BoundsSkip` | src/regex/regex.c:380-398 | the filter's interval skip ends where the compiler's does |
| `RegexAgreement.ApplyRepeatAgrees` | src/regex/regex.c:432-570 | any chain of repeats changes that scan's verdict exactly as it changes the compiler's plain mark, and ends before the next atom |
| `RegexAgreement.EreAtomAgrees` | src/regex/regex.c:585-616 | an extended atom, groups included, leaves scan and compiler at the same place with the same verdict |
| `RegexAgreement.EreBranchAgrees` | src/regex/regex.c:630-654 | so does a branch |
| `RegexAgreement.EreAltAgrees` | src/regex/regex.c:657-681 | so does a list of alternatives |
| `RegexAgreement.BreAtomAgrees` | src/regex/regex.c:688-723 | so does a basic atom under the basic scan, anchors, groups and a leading star included, in both directions |
| `RegexAgreement.BreBranchAgrees` | src/regex/regex.c:729-763 | so does a basic expression, in both directions |
| `RegexAgreement.BasicAcceptsMore` | fuzz/fuzz_regex.c:62-145 | what the filter accepts of a basic expression, brackets aside, the exact basic scan accepts |
| `RegexAgreement.PlainExactly` | src/regex/regex.c:767-806 | a pattern that compiles, basic or extended, has every repeat on a single-character atom if and only if a scan of its text accepts |
| `RegexAgreement.FilterAgrees` | fuzz/fuzz_regex.c:62-145 | brackets aside the filter accepts no pattern with a repeated group, and of the extended ones exactly those without; with them it is right exactly when it agrees with the exact scan |
| `RegexAgreement.ScansAgree` | fuzz/fuzz_regex.c:102-118 | where no dash is followed by what opens a class, the filter ends every bracket as the compiler does |
| `RegexAgreement.OverRejected` | fuzz/fuzz_regex.c:62-145 | four basic patterns that compile, hold no repeat of a group, and are rejected |
| `RegexProgram.StarFine` | src/regex/regex.c:432-570 | wrapping code in a star, moved and relocated, keeps every jump inside and every way back over a consuming instruction |
| `RegexProgram.PlusFine` | src/regex/regex.c:432-570 | the same for one-or-more |
| `RegexProgram.OptionalFine` | src/regex/regex.c:432-570 | the same for an optional part |
| `RegexProgram.IntervalFine` | src/regex/regex.c:432-570 | the same for bounded repeats, copies and nested options included |
| `RegexSafety.EreAltSafe` | src/regex/regex.c:657-681 | compiling alternatives keeps the program well formed |
| `RegexSafety.BreBranchSafe` | src/regex/regex.c:729-763 | compiling a basic expression does |
| `RegexSafety.CompiledFine` | src/regex/regex.c:767-806 | in every compiled program all jumps lead to instructions, the last is the match, a split's second way leads forward, and in a plain one each way back consumes |
| `RegexMeaning.CatDenotes` | src/regex/regex.c:630-654 | the ways through code behind code ask for what one part means and then the other |
| `RegexMeaning.OrDenotes` | src/regex/regex.c:657-681 | those through an alternation, for what either means |
| `RegexMeaning.StarDenotes` | src/regex/regex.c:432-570 | those through a loop, for what its body means, any number of times |
| `RegexMeaning.PlusDenotes` | src/regex/regex.c:432-570 | or at least once |
| `RegexMeaning.DenotesCopied` | src/regex/regex.c:432-570 | code moved with its jumps means what it meant |
| `RegexRepeats.IntervalCode` | src/regex/regex.c:432-570 | the copies, loop and options of an interval ask for the atom from m to n times, no less and no more |
| `RegexRepeats.CountsExactly` | src/regex/regex.c:432-570 | on a one-character atom every way through asks for that character from m to n times, and there is a way for each count |
| `RegexBounds.BoundsRead` | src/regex/regex.c:380-398 | decimal bounds read as the numbers they are |
| `RegexGrammar.CompiledMeans` | src/regex/regex.c:767-806 | every pattern that compiles is written as a tree of groups, repeats and alternatives, and its program asks for exactly what the tree means |
| `RegexThreads.FuelFalls` | src/regex/regex.c:936-1057 | in a plain program each step of a thread lowers a measure of remaining text and program |
| `RegexThreads.NeverCut` | src/regex/regex.c:1008-1026 | in a plain program no alternative ever reaches a back edge it has taken at the same offset |
| `RegexThreads.PlainPatternsProgress` | src/regex/regex.c:936-1057 | if the exact scan accepts, no alternative runs longer than (length + 1)(2 program + 6) steps and the guard never cuts one |
| `RegexThreads.FilterMissesOneForm` | fuzz/fuzz_regex.c:62-145 | one accepted pattern repeats an empty group; on any subject with a character some alternative comes round without consuming and is cut by the guard |
| `RegexMachine.EdgePays` | src/regex/regex.c:1008-1026 | a back edge taken leaves less room for further ones, by more than all the work behind it |
| `RegexMachine.SplitFalls` | src/regex/regex.c:1017-1027 | a split, its second way pushed or its back edge refused, lowers the measure |
| `RegexMachine.BacktrackFalls` | src/regex/regex.c:936-1057 | so does every return to a pushed choice |
| `RegexMachine.MatcherHalts` | src/regex/regex.c:936-1057 | every match attempt of every compiled pattern ends, plain or not, on every subject: within (n (length + 1) + 1) 3^n + 1 steps for n instructions |
| `RegexMachine.AlternativeEnds` | src/regex/regex.c:1008-1026 | no single alternative runs longer than (n (length + 1) + 1)(n + 1) steps |
| `RegexMatcher.NextFalls` | src/regex/regex.c:938-1056 | every turn of the matcher, with its captures and back-references, lowers the measure |
| `RegexMatcher.WaysTried` | src/regex/regex.c:1010-1027 | wherever a place that is tried leads is tried too, unless the guard refuses that way |
| `RegexMatcher.FromReach` | src/regex/regex.c:938-1056 | nothing is tried that cannot be reached |
| `RegexMatcher.TriesAllExactly` | src/regex/regex.c:33-35 | an attempt tries everything exactly when no refused back edge leads to a place that is not tried |
| `RegexThorough.OneLoopThorough` | src/regex/regex.c:1010-1027 | in a program with at most one loop, on one character, that no choice in front comes back to, nothing is refused and everything is tried |
| `RegexExec.Matcher.Backtrack` | src/regex/regex.c:1038-1055 | unwinding the log resumes the last alternative with the slots as they were when it was put off |
| `RegexExec.Matcher.Note` | src/regex/regex.c:978-988 | a slot overwritten and logged changes no alternative put off |
| `RegexExec.Matcher.Fork` | src/regex/regex.c:1017-1027 | the second way of a split is put off with the slots of that moment |
| `RegexExec.Matcher.Pass` | src/regex/regex.c:1010-1024 | the guard refuses a back edge recorded at this offset or further on, and otherwise records it |
| `RegexExec.Matcher.Test` | src/regex/regex.c:948-1009 | characters, sets, anchors and back-references pass or fail as the subject and the captures say |
| `RegexExec.Matcher.Turn` | src/regex/regex.c:941-1056 | one turn of the loop is one step of the description on values |
| `RegexExec.Matcher.Consider` | src/regex/regex.c:1028-1033 | a match is kept if it is the first or ends later than the one kept |
| `RegexExec.Matcher.Run` | src/regex/regex.c:938-1056 | of everything an attempt tries it gives the captures of a match that ends last, or none; and gives up exactly when it needs more turns than it has |
| `RegexExec.Regexec` | src/regex/regex.c:1059-1146 | reports that for the first start with a match, nothing if no start has one, and REG_ESPACE only if an attempt before that ran out |
| `RegexLanguage.ReachedMatches` | src/regex/regex.c:938-1056 | a match with some captures that the program can reach is one of the pattern, with these captures |
| `RegexLanguage.MatchesReached` | src/regex/regex.c:938-1056 | and the other way round |
| `RegexLanguage.RegexecRight` | src/regex/regex.c:30-35 | what regexec reports is a match of the pattern as written, with its captures; if no refused back edge loses anything it is the leftmost and longest, and none is reported only if there is none |
| `RegexLanguage.OneLoopRight` | src/regex/regex.c:30-35 | so it is on every subject for patterns with at most one loop, on one character, that no choice in front comes back to |
| `RegexMiss.MatchMissed` | src/regex/regex.c:30-35 | a pattern and a subject with a match at the front, of which regexec reports none |
| `SedSegments.SegmentsTile` | fuzz/fuzz_sed.c:84-100 | the segments cover the script in order, cut exactly at the separators an even number of backslashes precedes |
| `SedSegments.SplitSegments` | fuzz/fuzz_sed.c:84-100 | the loop fills the table with those segments, as many as fit |
| `SedClassify.SkipOneAddress` | fuzz/fuzz_sed.c:108-128 | the address loop stops where the recursive description does, escapes and custom delimiters included |
| `SedClassify.ClassifySegment` | fuzz/fuzz_sed.c:132-169 | a segment gets its kind and its label's name |
| `SedCommands.ClassifyUndoesWriting` | fuzz/fuzz_sed.c:108-169 | any command written out with its addresses, custom delimiters, blanks and bangs is classified as what it is |
| `SedParser.ItemsAlone` | src/util/sed.c:883-1069 | sed's parser, over a script that joins single commands by separators, reads exactly those commands |
| `SedParser.OneFollowed` | src/util/sed.c:883-1069 | a command complete in itself is read the same with a separator and any text behind it |
| `SedReading.ClassifyAgrees` | src/util/sed.c:746-772 | a text that is one command to sed gets a matching kind from the filter: the same consuming commands, the same labels, and sed's branch name, perhaps with blanks behind it |
| `SedMachine.StepAgain` | src/util/sed.c:1420-1608 | a step can be made again from the same place with other texts, if it is no restart or there are no fewer newlines in the pattern and hold spaces; what it leads to is then no less either |
| `SedMachine.EndlessExactly` | src/util/sed.c:1420-1608 | sed can run forever without reading a line exactly when, from a reached state, it comes round to a place without a restart in at most twice as many steps as there are commands, or with restarts and no fewer newlines |
| `SedMachine.PumpRefills` | src/util/sed.c:1495-1507 | a way round with restarts has a command on it that can fill up the pattern space |
| `SedFlow.HeightFalls` | fuzz/fuzz_sed.c:71-81 | every step of sed lowers (consuming segments before, segments remaining), but those the filter does not reckon with and those along a back edge it finds |
| `SedFlow.AcceptedHalts` | fuzz/fuzz_sed.c:71-81 | without steps of the first sort an accepted script comes to a line or its end within a quadratic bound |
| `SedFlow.RejectedLoops` | fuzz/fuzz_sed.c:173-216 | a rejected script runs forever if sed gets to the label found, every command up to the branch can be passed, and the branch goes to that label |
| `SedFlow.EndlessWays` | fuzz/fuzz_sed.c:173-216 | any script can run forever exactly when sed takes it and a step of either sort lies on a way round |
| `SedFlow.AcceptedExact` | fuzz/fuzz_sed.c:173-216 | an accepted one exactly when a step of the first sort does |
| `SedFlow.FilterExactly` | fuzz/fuzz_sed.c:173-216 | the filter is right exactly when it rejects a script sed takes in which a step of either sort closes a way round, or accepts one in which none of the first does |
| `SedCycles.RejectedExactly` | fuzz/fuzz_sed.c:173-216 | the filter rejects exactly when its segments, falling through and branching back to labels, have a way round without a consuming one |
| `SedFilter.ConsumesBetween` | fuzz/fuzz_sed.c:173-216 | finds a consuming segment in a stretch exactly if there is one |
| `SedFilter.BranchLoops` | fuzz/fuzz_sed.c:173-216 | a branch is reported exactly if it has a back edge that consumes nothing |
| `SedFilter.MayLoopForever` | fuzz/fuzz_sed.c:173-216 | the loops over segments and labels decide exactly whether there is such a back edge |
| `SedVerdict.SedReadsWhole` | src/util/sed.c:883-1069 | if every segment is one command or empty, sed's parser finds exactly the commands of the segments |
| `SedVerdict.PlacesMatch` | fuzz/fuzz_sed.c:84-169 | the commands sed reads, found among the filter's segments where they begin, come in the order of the segments and are taken for what they are |
| `SedVerdict.FilterRight` | fuzz/fuzz_sed.c:71-81 | the same exactness on every script text up to the harness's limit, with the commands sed's parser reads in it |
| `SedVerdict.WholeStraight` | fuzz/fuzz_sed.c:84-169 | if every segment is one command or empty, the filter sees every command and no consuming one where there is none |
| `SedScripts.LeapMissed` | fuzz/fuzz_sed.c:71-81 | a script the filter accepts and sed can run forever: a branch over the command that reads |
| `SedScripts.TrailMissed` | fuzz/fuzz_sed.c:159-163 | another: a blank behind a branch's name |
| `SedScripts.InsideMissed` | fuzz/fuzz_sed.c:84-100 | another: a separator inside a substitution |
| `SedScripts.SharedMissed` | src/util/sed.c:1049-1067 | another: a label and a branch in one segment |
| `SedScripts.RestartMissed` | src/util/sed.c:1495-1507 | another: restarts that read nothing |
| `SedScripts.LeavesTurned` | src/util/sed.c:1584-1590 | a script the filter rejects that cannot run on without reading a line |
| `EnvSpec.UnsetThenGet` | src/env/setenv.c:96-115 | after unsetting a name nothing is found under it and other names find what they found |
| `EnvSpec.PutThenGet` | src/env/setenv.c:41-81 | after setting a name its value is found and other names find what they found, letters compared without case |
| `EnvSpec.FindFirst` | src/env/getenv.c:31-38 | no entry before the one found is for the name |
| `EnvSpec.Upper` | src/env/getenv.c:16-29 | names are compared by the capitals of small letters, and by the character itself otherwise |
| `EnvOwnership.RemoveSound` | src/env/setenv.c:105-113 | taking an entry out and freeing its string keeps every other entry live and leaks nothing |
| `EnvOwnership.ReplaceSound` | src/env/setenv.c:41-47 | so does replacing an entry in place |
| `EnvOwnership.AppendSound` | src/env/setenv.c:47-59 | so does appending one |
| `EnvLibrary.Env.IsPutenv` | src/env/setenv.c:27-32 | recognises exactly the caller's strings |
| `EnvLibrary.Env.CompareName` | src/env/getenv.c:16-29 | the loop decides equality of names without case |
| `EnvLibrary.Env.EnvFind` | src/env/getenv.c:31-38 | finds the first entry for a name |
| `EnvLibrary.Env.GetEnv` | src/env/getenv.c:40-51 | gives the first entry's value; nothing for an empty name or one with an equals sign |
| `EnvLibrary.Env.Release` | src/env/setenv.c:44-46 | frees a live block of the library's own and never a caller's string |
| `EnvLibrary.Env.UnsetEnv` | src/env/setenv.c:96-115 | removes every entry for the name and no other, frees exactly what it owns, and refuses an invalid name |
| `EnvLibrary.Env.PutPointer` | src/env/setenv.c:41-62 | replaces the first entry or appends; fails, and gives back what it was handed, only when it must grow and cannot |
| `EnvLibrary.Env.SetEnv` | src/env/setenv.c:64-81 | the new list of entries and the result for every name, value and allocation outcome |
| `EnvLibrary.Env.PutEnv` | src/env/setenv.c:83-94 | the same for putenv, a string already listed and removal of a name without equals sign included |
| `EnvLibrary.Env.ClearEnv` | src/env/setenv.c:121-129 | leaves no entry and no block |
| `EnvLibrary.Env.WriteSlot` | fuzz/fuzz_env.c:14-18 | a caller's overwrite of a slot no entry points at changes no entry |
| `EnvFuzz.Harness.Retire` | fuzz/fuzz_env.c:210-226 | after a reused slot's name is unset no entry points at the slot, across wraparound and overwrites by setenv |
| `EnvFuzz.Harness.CheckEnviron` | fuzz/fuzz_env.c:72-91 | on a sound list reports exactly when there are more than MAXENV entries |
| `EnvFuzz.Harness.CountNamed` | fuzz/fuzz_env.c:94-103 | counts the entries for a name |
| `EnvFuzz.Harness.SetRecord` | fuzz/fuzz_env.c:171-209 | a set record's effect on the entries, and exactly when its checks report |
| `EnvFuzz.Harness.PutRecord` | fuzz/fuzz_env.c:210-241 | a put record's, every pointer and slot behind it |
| `EnvFuzz.Harness.UnsetRecord` | fuzz/fuzz_env.c:242-263 | an unset record's |
| `EnvFuzz.Harness.GetRecord` | fuzz/fuzz_env.c:264-278 | a get record never reports |
| `EnvFuzz.Harness.EnvCount` | fuzz/fuzz_env.c:107-114 | counts entries, stopping one past MAXENV |
| `EnvFuzz.Harness.EnvPrune` | fuzz/fuzz_env.c:121-141 | drops whole names from the front until at most ENVLOW entries are left, or stops at a name too long |
| `EnvFuzz.PrunedBound` | fuzz/fuzz_env.c:121-141 | on short entries that always reaches ENVLOW |
| `EnvFuzz.Harness.ReadRecord` | fuzz/fuzz_env.c:150-163 | decodes a record's operation, length and text, truncated at the input's end |
| `EnvFuzz.Harness.Record` | fuzz/fuzz_env.c:170-280 | every record refines a machine on plain texts, whoever owns the strings |
| `EnvFuzz.Harness.TestOneInput` | fuzz/fuzz_env.c:143-283 | a whole input does what that machine does, and reports exactly when it would |
| `EnvFuzz.StepBound` | fuzz/fuzz_env.c:25-33 | a record adds at most one entry, none if its text is empty, and keeps entries short |
| `EnvFuzz.FeedBound` | fuzz/fuzz_env.c:143-283 | an input adds at most a third of its length |
| `EnvFuzz.InputQuiet` | fuzz/fuzz_env.c:25-33 | an input of up to 10754 bytes never reports and stays within MAXENV, whatever the allocator does |
| `EnvFuzz.Harness.Campaign` | fuzz/fuzz_env.c:25-33 | neither does any number of them in a row, whatever the allocator answers at each input and place |
| `EnvFuzz.KeptValueMisreported` | fuzz/fuzz_env.c:171-209 | one inherited value longer than a record, kept by a set without overwrite, is reported although nothing is wrong |
| `EnvHistory.RunTells` | fuzz/fuzz_env.c:165-280 | after any run of records each name finds what the history of records says: the last set or put of it, unless it was unset or its slot has come round |
| `EnvHistory.LastPutsFound` | fuzz/fuzz_env.c:210-241 | of strings put with different names the last, as many as there are slots, are found with their values, the older ones are gone, and other names find what they found |
| `EnvHistory.RingKeepsLast` | fuzz/fuzz_env.c:210-241 | the same on the machine: a string put stays until its slot comes round again |
| `EnvHistory.FeedRuns` | fuzz/fuzz_env.c:143-163 | an input that spells records does what the records do |
| `EnvHistory.InputTells` | fuzz/fuzz_env.c:143-163 | so a whole input tells its records' history |
| `EnvHistory.PrunedKeeps` | fuzz/fuzz_env.c:121-141 | pruning drops whole names from the front: a name finds what it found or nothing, and one that comes later is not dropped before |
| `EnvHistory.PrunedNoFurther` | fuzz/fuzz_env.c:121-141 | and it stops as soon as it may |
| `PeImages.NameEqCi` | crt/delayload2.c:90-104 | the loop decides equality under ASCII case folding, lengths included |
| `PeImages.FindMappedModule` | crt/delayload2.c:116-133 | gives the base of the first listed module of that name, or none |
| `PeImages.FindExport` | src/internal/pe.c:92-136 | gives the address of the first export of that name, or none |
| `PeImages.AddressIs` | src/internal/pe.c:92-136 | that address is the base and what the function table has under the first such export's ordinal; none for an ordinal past the table |
| `PeImages.Fold` | crt/delayload2.c:90-104 | small ASCII letters are compared as their capitals, everything else as itself |
| `PeImages.FirstMappedStable` | crt/delayload2.c:106-133 | later loads do not change what a listed name finds |
| `DelayLoad.BindGood` | crt/delayload2.c:187-192 | writing the module handle keeps every slot a thunk or its export |
| `DelayLoad.ResolveGood` | crt/delayload2.c:194-198 | so does writing a slot |
| `DelayLoad.Image.Resolve` | crt/delayload2.c:194-198 | the slot gets what direct lookup finds |
| `DelayLoad.Image.Search` | crt/delayload2.c:35-46 | a search calls any imports of ntdll, each at hand, and touches no other descriptor |
| `DelayLoad.Image.Help` | crt/delayload2.c:135-199 | the helper returns what direct lookup returns, sets a handle at most once, changes no other descriptor, nests at most 2 deep and ends |
| `DelayLoad.Image.Run` | crt/delayload2.c:135-199 | over any sequence of calls every answer is direct lookup in the DLL finally bound |
| `DelayLoad.LookedUpOnce` | crt/delayload2.c:171-185 | no slot whose export lies in its DLL is looked up twice |
| `Lockstep.SameNumber` | fuzz/linux_pilot_test_misc.c:414-439 | in step, table and kernel pick the same number |
| `Lockstep.CloseExact` | src/unistd/close.c:14-24 | closing through the table keeps them in step exactly when the handle names its slot |
| `Lockstep.EventExact` | src/signal/linux/plat_signal.c:229-246 | an event's slot is the kernel's number, and the two stay in step exactly when that is not 0 |
| `Lockstep.EventCloseBreaks` | fuzz/linux_pilot_test_misc.c:258-271 | closing an event through the table always puts them out of step |
| `Lockstep.StaysInStep` | fuzz/linux_pilot_test_misc.c:414-439 | disciplined runs of any length stay in step, raw descriptors held in between and changes of the limit included |
| `Lockstep.InstalledIsRaw` | fuzz/linux_pilot_test_misc.c:414-439 | so every installed slot is the raw descriptor's number |
| `Lockstep.InitialInStep` | src/internal/linux/plat_fd_init.c:199-265 | start-up puts them in step exactly when no inherited descriptor is past the table |
| `Lockstep.NoInitDiffers` | fuzz/linux_pilot_test_misc.c:414-439 | without start-up the first descriptor is 3 to one and 0 to the other |
| `Lockstep.RawCloseDiffers` | fuzz/linux_pilot_test_misc.c:258-271 | one raw close of any installed descriptor puts them out of step, and the next numbers differ exactly when it was below the kernel's next one |
| `Lockstep.SecondEventDiffers` | fuzz/linux_pilot_test_misc.c:258-271 | one event made and closed, and the next is 2 to the kernel and 3 to the table |
| `Descriptors.Fds.Alloc` | fuzz/linux_pilot_harness.c:43-51 | finds the lowest free slot from a number on, under the limit |
| `Descriptors.Fds.Install` | fuzz/linux_pilot_harness.c:61-78 | puts a handle in the lowest free slot and nowhere else |
| `Descriptors.Fds.Get` | fuzz/linux_pilot_harness.c:80-84 | gives a slot's handle; none for numbers out of range |
| `Descriptors.Fds.Make` | src/signal/linux/plat_signal.c:229-246 | opening and installing is the step the runs are about, under any limit, with a full table or kernel included |
| `Descriptors.Fds.Close` | src/unistd/close.c:14-24 | so is closing |
| `Descriptors.Fds.Init` | src/internal/linux/plat_fd_init.c:199-265 | start-up fills exactly the slots of open descriptors |
| `Decimals.NumberReads` | src/misc/strfmon.c:231-241 | reading what was written in decimal gives the number modulo the word size, whatever follows |
| `Decimals.DecimalLength` | fuzz/fuzz_strfmon.c:40-47 | a number below 10^k has at most k digits |
| `Decimals.Gather` | fuzz/fuzz_strfmon.c:40-45 | the digit loop fits its 24 bytes with at most 20 |
| `Decimals.PutU64` | fuzz/fuzz_strfmon.c:40-47 | writes exactly the decimal digits and nothing beyond |
| `MonetaryParser.ReadFlags` | src/misc/strfmon.c:205-221 | the flag loop reads what the recursive description reads |
| `MonetaryParser.ReadWidth` | src/misc/strfmon.c:223-228 | so does the width loop, and no intermediate value wraps |
| `MonetaryParser.ReadConversion` | src/misc/strfmon.c:205-253 | a conversion's parse and its error, in the order the code finds them |
| `MonetaryText.FormatFits` | src/misc/strfmon.c:10-17 | a success fits its room and does not depend on more |
| `MonetaryText.FormatRefuses` | src/misc/strfmon.c:10-17 | a text that does not fit is refused with E2BIG |
| `MonetaryText.SignsAlign` | src/misc/strfmon.c:64-68 | under a left precision an amount and its negation are equally wide, except exactly zero whose digits fill the precision: minus zero then has one digit too many and is left out |
| `MonetaryText.FieldFits` | src/misc/strfmon.c:93-100 | the quantity never outgrows the field buffer |
| `MonetaryReading.PieceIs` | src/misc/strfmon.c:293-400 | the text of a conversion: nothing if the amount has too many digits, else blanks, sign, fill, digits and closing sign in their places, padded on the side the flag says |
| `MonetaryReading.AmountReads` | src/misc/strfmon.c:293-400 | sign and digits are read back from that text, whatever the width, precisions, sign style and fill, if the fill is no digit, radix or sign |
| `MonetaryReading.WholeIs` | src/misc/strfmon.c:284-291 | the digits counted against the left precision are those before the radix character |
| `MonetaryGrammar.SpecReads` | src/misc/strfmon.c:205-253 | flags in any order, width and precisions in any digits, and whatever follows: the conversion they make, or the error |
| `MonetaryGrammar.EverySpec` | src/misc/strfmon.c:205-253 | whatever stands behind a percent sign is so written |
| `MonetaryGrammar.FormatReads` | src/misc/strfmon.c:186-409 | a format gives its characters, a percent sign for two, and each amount in its conversion's place in order, as far as it fits, and then ends as its end says |
| `MonetaryGrammar.EveryFormat` | src/misc/strfmon.c:186-409 | every format is such items and an end |
| `MonetaryBuffer.Out.Put` | src/misc/strfmon.c:114-123 | writes all of a text or nothing, and never past the limit |
| `MonetaryBuffer.Out.PutPadded` | src/misc/strfmon.c:387-400 | pads on the side the flag says |
| `MonetaryBuffer.BuildField` | src/misc/strfmon.c:293-385 | sign, fill, digits and closing parenthesis end up in the buffer in order |
| `MonetaryBuffer.ReadItem` | src/misc/strfmon.c:186-253 | reads the next literal, percent sign or quantity of the format, or its error, and where the format goes on |
| `MonetaryBuffer.PutNext` | src/misc/strfmon.c:186-409 | writes that item or reports that it does not fit |
| `MonetaryBuffer.PutAll` | src/misc/strfmon.c:186-409 | the loop over the format writes its whole text, or stops with the error the recursive description gives |
| `MonetaryBuffer.Strfmon` | src/misc/strfmon.c:170-409 | the buffer holds exactly the text and a terminator and the result is its length, or -1 with the right error; nothing past maxsize is touched |
| `MonetaryGenerator.WidthReads` | src/misc/strfmon.c:223-228 | a width is taken exactly when all its digits but the last are at most a sixteenth of the largest word |
| `MonetaryGenerator.ConversionRecovers` | fuzz/fuzz_strfmon.c:97-113 | the parser gets back the chosen fill, flags, form, width and precisions, and refuses exactly the numbers it does not accept |
| `MonetaryGenerator.PrecisionExact` | src/misc/strfmon.c:236-253 | a given right precision is in force exactly when it is below the largest word |
| `MonetaryGenerator.GeneratedFormat` | fuzz/fuzz_strfmon.c:97-141 | every generated format takes one amount, is never malformed, and yields the chosen text or E2BIG |
| `MonetaryChooser.ChooseWellformed` | fuzz/fuzz_strfmon.c:92-116 | every input makes such a choice |
| `MonetaryChooser.Generate` | fuzz/fuzz_strfmon.c:92-116 | the format written is the choice's, and fits its 160 bytes |
| `MonetaryCoding.ChooseUndoesEncoding` | fuzz/fuzz_strfmon.c:92-116 | every choice a fuzzer input can make is made by the input that encodes it |
| `Quoted.QuoteReads` | fuzz/host_oracle.c:261-271 | a quoted string of any bytes but zero reads back, whatever is written after it |
| `ReportBuffer.CutAbsorbs` | fuzz/host_oracle.c:250-259 | cutting early changes nothing in the end |
| `ReportBuffer.Report.AddF` | fuzz/host_oracle.c:250-259 | the buffer always holds the longest prefix that fits of everything added |
| `ReportBuffer.Report.AddQ` | fuzz/host_oracle.c:261-271 | adds the quoted form |
| `ReportBuffer.Report.Emit` | fuzz/host_oracle.c:243-248 | writes out that prefix and starts afresh |
| `Pool.TakeKeeps` | fuzz/linux_pilot_harness_pthread_cond.c:38-42 | taking a ticket keeps tickets distinct, below the count and no more than the requests that fit |
| `Pool.MoveKeeps` | fuzz/linux_pilot_harness_pthread_cond.c:42-44 | so do the bound test and each byte zeroed |
| `Pool.InvAlways` | fuzz/linux_pilot_harness_pthread_cond.c:32-45 | the invariant holds after any interleaving, callers writing to what they hold |
| `Pool.FewHolders` | fuzz/linux_pilot_harness_pthread_cond.c:32-45 | no more calls succeed than there are slots |
| `Pool.ReturnsZeroed` | fuzz/linux_pilot_harness_pthread_cond.c:43-44 | a call about to return has a slot that is all zero |
| `Pool.PoolExact` | fuzz/linux_pilot_harness_pthread_cond.c:34-43 | every run of any calls stays inside the pool if and only if at most 2^31 of them ask for no more than a slot |
| `PoolSplit.SlotShared` | fuzz/linux_pilot_harness_pthread_mutex.c:47-53 | with the counter read and written separately, any two calls can get the same slot |
| `Bump.Arena.Malloc` | fuzz/linux_pilot_harness_dirent.c:98-109 | blocks are aligned, disjoint and inside, and a refusal changes nothing, exactly as long as the sum does not wrap |
| `Bump.ServeAll` | fuzz/linux_pilot_harness_dirent.c:93-109 | any sequence of requests far below 2^64 is served that way, and refused are exactly those larger than the room left by the ones served before |

## Left out

- RegexExec.Regexec: the ceiling on the backtracking stack and allocation failure, the other ways to REG_ESPACE, are not modelled; of matches that end together the first tried is kept, which its contract does not say; whether a single character, set or anchor matches is a parameter.
- RegexLanguage.OneLoopRight: sufficient only; which patterns are matched right on every subject depends on the offsets at which the alternatives before a loop can arrive there, and is not characterised.
- RegexThorough.OneLoopThorough: sufficient only, likewise; on a given subject RegexMatcher.TriesAllExactly is exact.
- MonetaryReading.AmountReads: a fill that is a digit, a radix character, a minus or a parenthesis makes the text ambiguous and is left out.
- SedVerdict.FilterRight: sed's regular expressions are taken to compile, and which of them match is left open, as are the numbers in addresses; a replacement that holds a newline, `&` or a group may leave any number of newlines.
- Pool.PoolExact: a request's size is the product the code computes; that the product itself can wrap is not modelled.
- Unlocked.FinalCounts: the counter is unbounded, not a C `long`.
- Strings are sequences without a terminator; UTF-16 to UTF-8 conversion of the arguments, and `build_environ`, which only copies, are not modelled.
- Allocation failure is a parameter in the environment and an abstract early return elsewhere; errno values appear only where a check reads them.
- The regular-expression compiler is modelled on values, not on its growing instruction buffer; case folding, the contents of sets and collation are not represented; a set is known by where it stands.
- Robust, recursive, error-checking and timed mutexes, condition attributes, cancellation and thread exit.
- PE headers and export tables are values; forwarded exports, which the code does not recognise either, are addresses like any other.
- `strfmon` takes the digits of an amount from `%.*f` as given; grouping and currency symbols are empty in the only locale, and are taken as such.
- `bin/`, the utilities, the other library functions, raw system calls, sockets, signals and the remaining harnesses, whose own logic would only add easy members.
