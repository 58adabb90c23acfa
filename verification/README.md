# Build tools: the make engine and four in-place algorithms

This project models the build environment's `make` (directory `bldenv/make`) and two neighbours of it, and
proves what they are for: that a parallel run makes the same as a sequential one, that nothing is forgotten
or done twice, that a failure stays where it is, that a second run has nothing to do; that expansion ends and
that looking for the end of a specification finds it; that the search for a rule finds a shortest one; and
that the strings, tables, buffers, paths, bitmaps and dependency files underneath are handled as promised.

## How it is laid out

**The scheduler.**
`Graph` has the graph and the parameters of a run; edges are lists, so one may occur twice.
`Scheduler` is the parallel engine as a state machine: a `State` holds the variables of `make.c` and `job.c`,
an `Action` is a node being examined, a job ending, a held job being restarted, or a change of control.
`Protocol` and `JobTable` have the invariant of every reachable state; `Readiness`, `Commands`, `Times`,
`Outcome`, `SecondRun` and `Termination` have the results.
`Maker` is the program itself: a class whose fields are the variables and whose methods are the procedures,
each proved to make only steps of the machine (`Restarts` says what its loops and nested calls amount to), so
that what holds of the reachable states holds of the program.
`Compat` is the sequential engine, a class with the recursion of `CompatMake`; `Sequential` has the functions
that its methods compute, whatever fails, and who is to blame then.  `Agreement` runs both engines.
`Mishaps` has runs that do not go as the comments say, and `Limits` says exactly when.

**The rest.**
`Buffers`, `Words`, `Expansion` and `Expander` are variable expansion: `Expansion` has the functions and what
holds of them, `Expander` the procedures with their loops and flags, each proved to compute those functions.
`LostEnd` says when the end of a specification is missed, and `LoopForever` has an expansion without an end.
`Suffixes` is the search for implicit rules; `Glob` is the pattern matcher; `Paths`, `Flatten` and
`Canonical` are the two path normalisers; `HashTable` and `Interning` are the strings; `Ink` is the bounding
box of a glyph; `Dependencies` is the merge of dependency files.  `Options` has one datatype that several of
them use.
`WordLaws`, `ExpansionLaws`, `SuffixLaws`, `GlobLaws`, `PathLaws` and `HashLaws` say of the functions that the
procedures are proved to compute what they mean, in terms of the texts alone: what is put in front of what,
what is taken away, which words stay.

## Where the code and its comments part

- `waitpid` is called so that it blocks, and so `Job_CatchChildren` goes on until no child is left; the main
  loop works in waves.
- A job is started while the engine is aborting (`Mishaps.JobStartsDuringAbort`), against the comment at
  `bldenv/make/job.c:612-620`.  `Limits.ExamineStarts` and `Limits.ExitStarts` say exactly when: the abort
  flag makes no difference to starting, it only ends the loop of `MakeStartJobs` after one job.
- With `-k`, a node that there is no way to make ends `MakeStartJobs` early; the run can end without an error
  and report a cycle that is not there (`Mishaps.KeepGoingGivesUpEarly`).  `Limits.ReportIsRightFor` says
  exactly when the report is right, by the graph and the files at the start; `Limits.RefusedExactlyWhen` says
  which nodes are refused.
- With `-k`, a node that was put aside for an `.ORDER` predecessor is not queued again when that predecessor
  fails (`Mishaps.WakeUpCanBeLost`).  `Readiness.ForgottenExactlyWhen` says when a ready node is forgotten.
- With `-k`, the sequential engine aborts a node for a failed child, but a child that was itself aborted
  earlier, for another parent, does not stop it (`Compat.SecondParentGoesOn`).  `Sequential.WhoIsToBlame` says
  exactly which nodes are aborted.
- A second run is idle exactly if every node that the first one made had a command that was executed
  (`SecondRun.SecondRunDoesNothing`; `Mishaps.MadeAgain` shows the other case).
- `Str_Match` takes two `*` at the end of a pattern for `?*` (`Glob.TwoStarsMiss`); otherwise it is exact
  (`Glob.ExactlyWhen`).
- Skipping a specification and expanding it can differ when a replacement of `:S` ends in a bare dollar sign
  (`Expansion.BareDollarLosesTheEnd`); `LostEnd.EndIsLostExactlyWhen` says when the end of one `:S` is missed.
- A modifier `:S` with an empty left side and `g` does not end (`Expansion.EmptyLeftSideNeverEnds`);
  `Expansion.EndlessExactlyWhen` and `Words.GetsNowhere` say exactly when.
- The check for recursive variables does not catch a variable that the modifier `:@` adds anew each time: such
  an expansion need not end (`LoopForever.LoopNeverEnds`).
- The search for implicit rules ends exactly if a chain of transformations reaches a file or there is no
  chain beyond some length (`Suffixes.Finder.FindThem`, `Suffixes.SearchGoesOn`).
- `string_flatten` does not look whether its stack has room (`Flatten.StringFlatten` says when it has), nor
  `Buf_UngetByte` whether its buffer has, and `Str_Match` reads on behind a pattern with an open bracket.
- `Hash_CreateEntry` takes a reference to the name of a new entry, and `Hash_DeleteEntry` does not give it
  back.
- A dependency file that starts with a colon gets its target's name from the name of the file.  If that has
  blanks, a line written for it can be read as a header (`Dependencies.BlankNamesAddLines`).  Merging twice
  differs from merging once exactly if there is such a line (`Dependencies.TwiceIsOnce`).

## Model

| member | source | states |
|---|---|---|
| Readiness.CountersAreExact | bldenv/make/make.c:504-530 | in every reachable state, with cycles too, a marked node's counter is the number of its child edges, with multiplicity, whose child has not been through Make_Update; an examined node has none |
| Readiness.NoLostWakeUp | bldenv/make/make.c:505-546 | a ready node that is still unmade is queued, running, held, given up, or has a marked predecessor that is unmade or has failed; without an error or a refusal, only the first three or an unmade predecessor |
| Readiness.ForgottenExactlyWhen | bldenv/make/make.c:505-546 | a ready unmade node is neither queued nor running nor held nor waiting for an unmade predecessor exactly if it was refused or abandoned, or was put aside and then stranded by a predecessor that failed |
| Readiness.ExaminedOnce | bldenv/make/make.c:691-724 | no node passes the predecessor check twice in a run |
| Readiness.TableIsBounded | bldenv/make/job.c:766-845 | the counters of the job table agree with it, it holds at most maxJobs jobs of which at most maxLocal are local, and if it is not full there is room |
| Readiness.OneFate | bldenv/make/job.c:1279-1316 | an examined node is settled, has failed, or is in exactly one place: running, held, refused or abandoned; other nodes are in none |
| Readiness.FailureIsContained | bldenv/make/make.c:430-531 | no node above one that has not settled, over any number of edges, is ever examined |
| Readiness.GivenUpIsUnsettled | bldenv/make/job.c:585-605 | refused and abandoned nodes have not settled, so that containment applies to them, and no job works on them |
| Readiness.CycleTheorem | bldenv/make/make.c:137-144 | at a clean end the count of nodes is non-zero exactly if the dependency and .ORDER edges of the marked nodes have a cycle; if it is zero every marked node is settled |
| Limits.ReportIsRight | bldenv/make/make.c:900-920 | at any end without an error that conclusion holds exactly if no node was refused or there is a cycle |
| Limits.ReportIsRightFor | bldenv/make/make.c:900-920 | at any end without an error the report is right exactly if there is a cycle or no marked node has to be refused; unless a hopeless node is a .JOIN node, this is a condition on the graph and the files at the start alone |
| Limits.RefusedExactlyWhen | bldenv/make/job.c:699-749 | at every moment of every run the refused nodes are the examined ones that are no target, have no commands and no file and are not optional, except .JOIN nodes of whose children none was remade; the early exit is taken only after a refusal |
| Limits.NothingIsRefused | bldenv/make/job.c:699-749 | if no marked node is hopeless at the start then no run refuses one or exits early and the count tells whether there is a cycle; and at an end without an error and without a cycle, none was refused exactly if none had to be |
| Limits.ExamineStarts | bldenv/make/make.c:683-754 | a turn of MakeStartJobs starts a job exactly if there is room and the head of the queue is not held back, out of date and has a command to execute; an abort only ends the loop after it |
| Limits.ExitStarts | bldenv/make/job.c:456-622 | a job that ends is followed by another for the same node exactly if its child was not killed, its code was zero or its errors are ignored (by the dash of its command or for the node), and a command is left, during an abort as well |
| Commands.CommandsRunInOrder | bldenv/make/job.c:859-903 | at every moment the log of a node, with the statuses of its children, is a prefix of its commands in list order, all of them if it was made; an entry counts as a failure exactly by its status, the dash of its command and the flag of the node, and is then the last, exactly if the node failed; at most one job per node |
| Commands.TellsInOrder | bldenv/make/job.c:468-605 | what a node's state says of its log: all commands if made, a stop at the failure if failed, a prefix otherwise |
| Commands.RunsStopAtTheFirst | bldenv/make/job.c:456-622 | in every reachable state: the commands run for a node are a prefix of its list; none but the last was killed or had a code other than zero without being ignored; and the node has failed exactly if the last one did, the verdict spelled out in status, dash and flag of the node |
| Commands.FailsExactlyWhen | bldenv/make/job.c:468-605 | when a job ends, whatever its status: the node fails exactly if the child was killed, or its code is not zero and neither the dash of the command last read nor the flag of the node says to ignore it |
| JobTable.CountsExactly | bldenv/make/job.c:468-470 | in a state with the invariant, the flag of a running job is that of the node or of its command, so that an exit counts exactly so |
| Times.UpdateTimes | bldenv/make/make.c:505-518 | Make_Update raises the time of a marked parent to the child's and tells it whether the child was made, for its children and only those, and not for .EXEC children |
| Times.StampAllEffect | bldenv/make/make.c:161-171 | Make_TimeStamp over a list raises exactly the parents in the list to the given time |
| Outcome.ScheduleIndependence | bldenv/make/make.c:683-754 | two runs over the same graph and files, whatever their limits, .ORDER edges, -k, notion of a blank command and the order in which jobs end, failures or not, agree on the state and time of every node settled in both, as long as they find something to execute for the same nodes |
| Outcome.CompleteRunsAgree | bldenv/make/make.c:430-531 | complete runs without failures end with the same map of states |
| Outcome.RunIsCoherent | bldenv/make/make.c:192-306 | from the invariant of the reachable states: each settled node was judged by how all of its children came out in the end |
| Outcome.VerdictsSay | bldenv/make/make.c:192-306 | for every reachable state and settled node, the verdict of Make_OODate in full: with children, forced, .EXEC and .JOIN nodes, missing files and the newest child, by how the children came out in the end |
| Outcome.CoherentSays | bldenv/make/make.c:192-306 | the same for any coherent outcome, that of the sequential engine included |
| Compat.EnginesAgree | bldenv/make/compat.c:395-602 | the parallel and the sequential engine, each with its own notion of a blank command, agree on every node that both have settled, if they find something to execute for the same nodes |
| Compat.ParallelEqualsSequential | bldenv/make/compat.c:395-602 | a complete parallel run and the sequential run give every node below the targets the same state and time |
| Agreement.MakeBoth | bldenv/make/make.c:831-920 | where every command succeeds or its failure is ignored, every source exists or is optional and edges go down in rank, both programs end without an error and agree on every node below the targets, which are all settled |
| Agreement.HarmlessIsComplete | bldenv/make/make.c:900-920 | a parallel run without an error of such a graph is complete: nothing refused, count zero |
| SecondRun.SecondRunIsIdle | bldenv/make/make.c:192-306 | right after a complete first run with a clock that does not go back, nothing is ever started and all that is examined is up to date, if every node made before has a command |
| SecondRun.SecondRunDoesNothing | bldenv/make/make.c:192-306 | the second run finds everything up to date exactly if every node that the first one made has a command that is executed |
| Mishaps.MadeAgain | bldenv/make/make.c:192-306 | a target made without a command is made again: both sides of that condition occur |
| Mishaps.KeepGoingGivesUpEarly | bldenv/make/make.c:725-735 | a run with -k that ends without error or cycle with a target never looked at |
| Mishaps.WakeUpCanBeLost | bldenv/make/make.c:532-546 | a run with -k that leaves a ready node stranded, because its predecessor failed |
| Mishaps.GivenUpDuringAbort | bldenv/make/job.c:585-597 | a run in which a job that ended well is given up because of an abort |
| Mishaps.JobStartsDuringAbort | bldenv/make/job.c:612-620 | a run that starts a job after a failure has set the abort flag |
| Termination.StepGoesDown | bldenv/make/make.c:888-908 | every step of the engine takes a well-founded measure down |
| Termination.NoInfiniteRun | bldenv/make/make.c:888-908 | no endless sequence of enabled steps starts from a state with the invariant |
| Termination.StopsOnlyAtTheEnd | bldenv/make/job.c:1644-1667 | nothing is enabled exactly at the end of the main loop or after the early exit |
| Protocol.ParentsCount | bldenv/make/make.c:504-530 | the parent loop lowers the counter of every marked parent by the number of edges |
| Protocol.QueuedOnce | bldenv/make/make.c:519-530 | it queues exactly the marked parents whose counter reaches zero, once each |
| Protocol.WakeEffect | bldenv/make/make.c:532-546 | the successor loop adds exactly the ready unmade marked successors that are not queued |
| JobTable.StepKeeps | bldenv/make/job.c:766-845 | every step keeps the invariant of the graph, the job table and the control variables |
| JobTable.StartFrame | bldenv/make/job.c:1162-1317 | what starting a job leaves alone, and that the hold queue only changes when the table is full |
| Restarts.FrontierEmpty | bldenv/make/make.c:852-872 | when the marking loop has nothing left, exactly the nodes below the targets are marked |
| Restarts.RestartAllTwice | bldenv/make/job.c:606-622 | the restart loop leaves nothing for a second one |
| Maker.Engine.Run | bldenv/make/make.c:831-920 | the program marks what the targets need, ends in a reachable final state, without an error if every command succeeds or its failure is ignored, and its count tells whether there is a cycle |
| Maker.Engine.MarkGraph | bldenv/make/make.c:840-872 | the marking pass ends in an initial state with exactly the nodes below the targets marked |
| Maker.Engine.MakeStartJobs | bldenv/make/make.c:683-754 | the loop only makes steps of the machine, and takes the measure down |
| Maker.Engine.JudgeNode | bldenv/make/make.c:724-752 | the verdict on a node and what follows, as the machine has it |
| Maker.Engine.OODate | bldenv/make/make.c:192-306 | the verdict of Make_OODate; a node that is up to date has stamped its parents |
| Maker.Engine.MakeUpdate | bldenv/make/make.c:430-546 | counters, times, parents and successors after Make_Update, as the machine has them |
| Maker.Engine.JobMakeArgv | bldenv/make/job.c:859-903 | the command cursor takes the next command, and knows when there is none |
| Maker.Engine.JobExec | bldenv/make/job.c:766-845 | a job with a command enters the table, one without is finished, together with the restarts that follow |
| Maker.Engine.JobStart | bldenv/make/job.c:1162-1317 | a job is held if the table is full, and started otherwise |
| Maker.Engine.JobFinish | bldenv/make/job.c:456-622 | a job fails, is followed by the next command or completes its node, and held jobs are restarted |
| Maker.Engine.JobRestart | bldenv/make/job.c:1043-1144 | the head of the hold queue is started or put back |
| Maker.Engine.JobMake | bldenv/make/job.c:1410-1423 | Job_Make with the refusal of a node that cannot be made |
| Maker.Engine.CatchChildren | bldenv/make/job.c:1338-1393 | children are reaped until none is left, each a step of the machine |
| Maker.Engine.IsJobTableEmpty | bldenv/make/job.c:1644-1667 | the test of the main loop, with the restarts it makes |
| Compat.Engine.Make | bldenv/make/compat.c:395-602 | the call does what the function Sequential.Make says, whatever fails; where nothing goes wrong the node is decided coherently and its parent has heard of it |
| Compat.Engine.Run | bldenv/make/compat.c:617-692 | the run does what Sequential.Targets says; for an acyclic graph every verdict has its reason, whatever fails; without trouble the outcome is coherent and every target settled; a harmless graph gives no trouble |
| Compat.Engine.RunCommands | bldenv/make/compat.c:204-380 | the loop over the commands leaves the node failed exactly if one of them fails in a way that counts, and its file touched exactly if there is something to execute |
| Compat.SecondParentGoesOn | bldenv/make/compat.c:569-601 | a run of two targets from the start: after a failure the first one is aborted, and the second one, whose only child was aborted for the first, is made |
| Sequential.WhoIsToBlame | bldenv/make/compat.c:395-602 | after a run over any acyclic graph, whatever has failed: a failed node has a command that fails or could not be made, a made one has not; a node is aborted exactly if it leads to a failed one through nodes that were aborted when they were visited for the one before; with -k the process never exits, and the targets have verdicts and nothing is left half made |
| Sequential.AbortedExactlyWhen | bldenv/make/compat.c:419-428 | the same for one node of any state with that invariant |
| Sequential.MakeRight | bldenv/make/compat.c:395-602 | every call of CompatMake keeps the invariant, decides its node unless the process exits, and stops its parent exactly if the node failed or was aborted by this visit |
| Sequential.RunIsClean | bldenv/make/compat.c:617-692 | where every node can be made and no command fails, a run meets no failure, cycle or exit |
| Sequential.RunGoesOn | bldenv/make/compat.c:560-568 | with -k the process does not exit |
| Expansion.SkipAgreesWithExpand | bldenv/make/var.c:2163-2355 | VarParse without a buffer reports an end that depends on the text alone, and with a buffer the same one, if no replacement of :S ends in a bare dollar sign |
| Expansion.ParseOfText | bldenv/make/var.c:2163-2355 | without a buffer nothing but the text matters, and nothing is written |
| Expansion.BareDollarLosesTheEnd | bldenv/make/var.c:1980-1985 | a specification on which the two modes differ |
| LostEnd.EndIsLostExactlyWhen | bldenv/make/var.c:1953-2012 | the two modes find different ends for a modifier :S exactly if its right side ends in a bare dollar sign, unless the delimiter is a g that no g follows; for sides that are read to their ends and have no such replacement inside |
| Expansion.ExpansionEnds | bldenv/make/var.c:2446-2523 | for every table of variables and text without the modifier @, expansion gives a text, stops at a recursive variable, or meets a substitution that does not end; the last only if :S occurs |
| LoopForever.LoopNeverEnds | bldenv/make/var.c:1635-1690 | with the modifier @ that is false: an expansion that spends every budget without meeting a variable in use |
| Expansion.EndlessExactlyWhen | bldenv/make/var.c:1870-2030 | a modifier :S whose two sides have been expanded does not end exactly if the left one has become empty, it is global and not anchored, the modifier is closed and the value has a word |
| Expansion.EmptyLeftSideNeverEnds | bldenv/make/var.c:1870-2030 | a specification that does not end |
| Expansion.BudgetMakesNoDifference | bldenv/make/var.c:2279-2304 | the bound on steps into values, one for each variable, is never what decides the result |
| Expander.Parser.Expand | bldenv/make/var.c:2446-2523 | from outside, with no variable in use, the loop of Var_Subst gives what the function says, leaves the variables and their flags as they were, and a bound on the steps is never what ends it; without :S it gives a text or stops at a recursive variable |
| ExpansionLaws.TwoDollars | bldenv/make/var.c:2464-2477 | two dollar signs are one, and the text behind them is expanded as if it stood alone |
| ExpansionLaws.SpecificationReplaced | bldenv/make/var.c:2478-2523 | a specification gives way to its value, and the rest of the text follows |
| ExpansionLaws.ShortName | bldenv/make/var.c:2190-2204 | a dollar sign and a character stand for the value of that variable |
| ExpansionLaws.LongName | bldenv/make/var.c:2205-2304 | a name in braces or brackets stands for the value of that variable |
| ExpansionLaws.SuffixRule | bldenv/make/var.c:2100-2140 | ${x:lhs=rhs}, where lhs has no equals sign, neither side the closing brace and no other modifier begins as lhs does: the words of x in order, each word u + lhs become u + rhs and every other one as it was |
| ExpansionLaws.SuffixesReplaced | bldenv/make/var.c:2090-2140 | the same at any place of a text, by the position of the equals sign |
| ExpansionLaws.WordsChosen | bldenv/make/var.c:1824-1869 | M keeps the words that the pattern matches and N the others, in their order; together they lose none |
| ExpansionLaws.ChosenOfBoth | bldenv/make/var.c:1243-1300 | what is kept of two lists is what is kept of the one and then of the other |
| ExpansionLaws.ChosenOfOne | bldenv/make/var.c:1243-1300 | a word stays exactly if the pattern matches it, for M, or does not, for N |
| ExpansionLaws.IfDefined | bldenv/make/var.c:1683-1741 | D gives its text if the variable is defined and else the value, U the other way round |
| ExpansionLaws.ByLetter | bldenv/make/var.c:1742-2076 | L gives the name of the variable, P the path; H, T, E and R rewrite every word |
| ExpansionLaws.ByCommand | bldenv/make/var.c:1790-1823 | the modifier with exclamation marks gives the output of the command between them |
| ExpansionLaws.WordsRewritten | bldenv/make/var.c:1870-2025 | S with plain sides, whatever the delimiter: the two anchors, the g and the two sides are read as they stand, and every word is rewritten by them |
| ExpansionLaws.ReadRight | bldenv/make/var.c:1953-1992 | an ampersand on the right side stands for the left side |
| ExpansionLaws.BackslashTakes | bldenv/make/var.c:1903-1992 | a backslash takes the next character as it is, a delimiter too, and is dropped |
| ExpansionLaws.TextForEachWord | bldenv/make/var.c:1622-1682 | @ gives the text between its signs once for each word, with the word in place of the variable |
| Expander.Parser.Subst | bldenv/make/var.c:2446-2523 | the loop over a text, from any state of the flags; when it returns, variables and flags are as before |
| Expander.Parser.Skip | bldenv/make/var.c:2419-2430 | the end that is found without looking at any variable is the one for every table of variables, and is behind the start |
| Expander.Parser.VarParse | bldenv/make/var.c:2163-2355 | one specification, wanted or only skipped |
| Expander.Parser.ReadText | bldenv/make/var.c:1903-1992 | the loops that read a name, a pattern or a replacement up to a delimiter, with escapes, ampersands, a dollar sign at the end, and nested specifications |
| Expander.Parser.ValueOf | bldenv/make/var.c:2279-2304 | the value of a variable, expanded while its flag is set; a flag that is set already stops it, and the flag is given back |
| Expander.Parser.ApplyModifiers | bldenv/make/var.c:2310-2339 | the loop over the modifiers, each working on what the one before left |
| Expander.Parser.Substitute | bldenv/make/var.c:1870-2025 | the modifier :S: two texts between delimiters, the anchors, the g, and the rewriting through a buffer |
| Expander.Parser.Pieces | bldenv/make/var.c:998-1060 | the modifier :@: one variable is added, set to each word in turn, and gone afterwards, and the texts are joined |
| Words.VarModify | bldenv/make/var.c:1498-1544 | through the buffer: split on blanks, rewrite each word, drop empty words, join with one blank |
| Words.VarSubstitute | bldenv/make/var.c:1321-1482 | one word through the buffer, with the blank before it and the flag for a first match |
| WordLaws.AtStart | bldenv/make/var.c:1339-1377 | with the anchor at the start, lhs + u becomes rhs + u |
| WordLaws.AtEnd | bldenv/make/var.c:1378-1404 | with the anchor at the end, u + lhs becomes u + rhs |
| WordLaws.AtBoth | bldenv/make/var.c:1339-1377 | with both, lhs becomes rhs, and every other word stays |
| WordLaws.AtFirst | bldenv/make/var.c:1405-1460 | without an anchor, u + lhs + v with the first occurrence there becomes u + rhs + v, and with g, u + rhs and what becomes of v |
| WordLaws.OnlyAtStart | bldenv/make/var.c:1339-1377 | a word that does not begin with lhs stays |
| WordLaws.OnlyAtEnd | bldenv/make/var.c:1378-1404 | a word that does not end in lhs stays |
| WordLaws.OnlyWhereItOccurs | bldenv/make/var.c:1405-1460 | a word in which lhs does not occur stays |
| WordLaws.MatchesExactly | bldenv/make/var.c:1321-1482 | a word counts as matched exactly if it begins with lhs, ends in it, is it, or has it somewhere, by the anchors |
| WordLaws.EveryWord | bldenv/make/var.c:1498-1544 | with g, every word becomes what it becomes alone |
| Words.AtMostOne | bldenv/make/var.c:1321-1482 | without g only the first word that matches is rewritten |
| Words.FirstIsFirst | bldenv/make/var.c:1321-1482 | what is replaced is the first occurrence |
| Words.GetsNowhere | bldenv/make/var.c:1425-1455 | the replacing loop gets nowhere exactly for an empty left side that is to be replaced everywhere |
| Words.FieldsAreWords | bldenv/make/var.c:1498-1544 | the words are not empty and have no blank in them |
| WordLaws.WordFirst | bldenv/make/var.c:1498-1544 | a word and a blank before a text: the word and then the words of the text |
| WordLaws.BlankFirst | bldenv/make/var.c:1498-1544 | a blank before a text adds no word |
| WordLaws.JoinedAndSplit | bldenv/make/var.c:1498-1544 | words that are joined with blanks are split into the same words |
| Buffers.Buffer.AddByte | bldenv/make/buf.c:116-159 | one byte at the end of the contents, with room made and the null byte kept |
| Buffers.Buffer.AddBytes | bldenv/make/buf.c:174-188 | some bytes at the end |
| Buffers.Buffer.UngetByte | bldenv/make/buf.c:203-236 | one byte in front; there is no room for it exactly in an empty buffer of size one that nothing has been taken from |
| Buffers.Buffer.UngetBytes | bldenv/make/buf.c:251-276 | some bytes in front |
| Buffers.Buffer.GetByte | bldenv/make/buf.c:293-310 | the first byte is taken out, or there is none |
| Buffers.Buffer.GetBytes | bldenv/make/buf.c:325-341 | as many bytes as there are, up to a number, are taken out |
| Buffers.Buffer.Discard | bldenv/make/buf.c:356-367 | bytes are dropped from the front |
| Suffixes.Finder.FindThem | bldenv/make/suff.c:1041-1075 | if a chain reaches a file, or no chain is longer than some bound, the search ends with the record of a shortest chain of defined transformations to a file that exists, or with none exactly if there is none |
| Suffixes.SearchGoesOn | bldenv/make/suff.c:1041-1075 | otherwise the search never ends: there is always a next record, and it does not exist |
| Suffixes.RankedIsBounded | bldenv/make/suff.c:1041-1075 | transformations without a cycle have such a bound |
| Suffixes.FindRule | bldenv/make/suff.c:1590-1664 | filling the queue from the possible suffixes of a node and working it off gives a suffix and a shortest chain to a file that exists, or nothing exactly if there is none |
| SuffixLaws.ReachesExactly | bldenv/make/suff.c:933-997 | what a chain is, spelled out: every link is a transformation that is defined from the suffix before it, and the file is the prefix with the last suffix, or the prefix alone for the null suffix |
| Suffixes.Finder.AddSrc | bldenv/make/suff.c:933-972 | one or two records for a suffix, with the child counts of their parents |
| Suffixes.Finder.AddLevel | bldenv/make/suff.c:986-997 | the records of all transformations to a suffix |
| Suffixes.ChainHasRecord | bldenv/make/suff.c:986-997 | every chain of transformations has a record, or a shorter part of it has one that is still to be expanded |
| Suffixes.NoShorter | bldenv/make/suff.c:1041-1075 | what has not been looked at is not nearer than the record being looked at |
| Suffixes.EffortGoesDown | bldenv/make/suff.c:1041-1075 | replacing a record by its level takes the work that is left down |
| Glob.StrMatch | bldenv/make/str.c:326-413 | for any pattern, the verdict or the fact that the program reads on behind it; for a well-formed pattern the verdict is what the language of its tokens says, with the last of two stars at the end taken for one character more |
| Glob.MatchIsFound | bldenv/make/str.c:326-413 | a well-formed pattern is never read past its end, and is matched token by token |
| Glob.ExactlyWhen | bldenv/make/str.c:326-413 | it decides the pattern's language for every string exactly if the pattern does not end in two stars or matches nothing |
| Glob.Exact | bldenv/make/str.c:326-413 | the same for one string |
| Glob.ExactForTwoStars | bldenv/make/str.c:348-358 | a pattern that ends in two stars is matched as if it ended in a question mark and a star |
| Glob.TwoStarsMiss | bldenv/make/str.c:348-358 | every other pattern misses a string |
| Glob.InClass | bldenv/make/str.c:370-394 | the item of a class that lists a character, with ranges in either direction and the third character of a range taken as it is |
| Glob.ListerIsListed | bldenv/make/str.c:370-394 | in a class that is closed there is one exactly if a character or range of it holds the character |
| GlobLaws.TextMatchesItself | bldenv/make/str.c:326-413 | a pattern with nothing special in it matches itself and nothing else |
| GlobLaws.TextFirst | bldenv/make/str.c:396-412 | such a text in front of a pattern has to stand in front of the string |
| GlobLaws.AnyFirst | bldenv/make/str.c:364-369 | a question mark is one character, any one |
| GlobLaws.EscapeFirst | bldenv/make/str.c:399-404 | a backslash makes the next character stand for itself |
| GlobLaws.RangeFirst | bldenv/make/str.c:370-394 | a range is one character between its ends, in either order |
| GlobLaws.ClassFirst | bldenv/make/str.c:370-394 | two characters in brackets are one of them |
| GlobLaws.StarBetween | bldenv/make/str.c:340-363 | text, star, text matches exactly the strings that begin with the one and end in the other without overlap |
| Flatten.FlattenInPlace | bldenv/make/str.c:418-464 | the rewrite with a stack of pointers leaves the flattened path and a null byte, writing only where it has read; the stack has room exactly if no component makes more than 64 pending |
| Flatten.StringFlatten | bldenv/make/str.c:418-464 | string_flatten gives the flattened path exactly if its stack has room |
| Canonical.CanonicalizeInPlace | bldenv/genpath/genpath.c:382-456 | backing up the write pointer leaves the canonical path |
| Canonical.Canonicalize | bldenv/genpath/genpath.c:382-456 | base and path are put together and made canonical, or are too long for the buffer |
| Canonical.NormalisersAgree | bldenv/genpath/genpath.c:382-456 | on an absolute path, canonicalize with an empty base and string_flatten give the same |
| Canonical.CanonTwice | bldenv/genpath/genpath.c:382-456 | a canonical path stays as it is |
| PathLaws.CanonSays | bldenv/genpath/genpath.c:382-456 | what stands before the first slash stays as it is and the rest is flattened; a first component with nothing left behind it loses its slash |
| Paths.FlatTwice | bldenv/make/str.c:418-464 | flattening twice is flattening once, and keeps the meaning |
| Paths.MeaningIsNormal | bldenv/make/str.c:418-464 | the components that are left have no ".", and ".." only at the front |
| PathLaws.NameIsAdded | bldenv/make/str.c:418-464 | a slash and a name at the end are one component more |
| PathLaws.NothingIsAdded | bldenv/make/str.c:418-464 | a slash at the end, or a slash and a dot, change nothing |
| PathLaws.NameAndUp | bldenv/make/str.c:418-464 | a name and dot-dot behind it cancel |
| PathLaws.UpStays | bldenv/make/str.c:418-464 | dot-dot stays where there is no name for it to take back |
| PathLaws.FlatOfName | bldenv/make/str.c:418-464 | a name at the end of a path is at the end of its flattened text, behind one slash |
| PathLaws.FlatDrops | bldenv/make/str.c:418-464 | the flattened text is the same with a slash, a dot, or a name and dot-dot more |
| PathLaws.FlatAlone | bldenv/make/str.c:418-464 | a path without a slash, or with one in front only, stays; a dot is nothing |
| PathLaws.SplitOfJoin | bldenv/make/str.c:418-464 | joining components and splitting the path gives them again |
| HashTable.Table.constructor | bldenv/make/hash.c:134-161 | an empty table whose size is the smallest power of two that is large enough |
| HashTable.Table.FindEntry | bldenv/make/hash.c:220-235 | the entry of this very string, if there is one |
| HashTable.Table.FindString | bldenv/make/hash.c:255-274 | a name with these characters, if there is one |
| HashTable.Table.CreateEntry | bldenv/make/hash.c:295-339 | the entry of the key, made if there was none and then holding a reference; the rest of the table stays |
| HashTable.Table.CreateString | bldenv/make/hash.c:356-379 | a new entry for the string; the rest of the table stays |
| HashTable.Table.DeleteEntry | bldenv/make/hash.c:398-416 | exactly the given entry leaves the table; no entry is no change, and a bad call is reported |
| HashTable.Table.RebuildTable | bldenv/make/hash.c:512-537 | twice the buckets, the same contents, every entry in the bucket that its hash value and the mask select |
| HashTable.MaskIsRemainder | bldenv/make/hash.c:134-161 | masking with a power of two less one reaches every bucket |
| HashTable.Search.EnumNext | bldenv/make/hash.c:467-493 | the first of the entries that have not been given yet |
| HashTable.Enumerate | bldenv/make/hash.c:437-493 | an enumeration gives exactly the entries of the table, each once |
| HashTable.EachEntryOnce | bldenv/make/hash.c:467-493 | bucket after bucket, no entry comes twice and none is missed |
| Interning.Interner.StringCreate | bldenv/make/str.c:555-577 | the handle in use for these characters, or a new one; one reference more |
| Interning.Interner.StringRef | bldenv/make/str.c:466-477 | one reference more |
| Interning.Interner.StringDeref | bldenv/make/str.c:479-504 | one reference less; the string leaves the table exactly when that was the last |
| Interning.Interner.SameExactlyWhenEqual | bldenv/make/str.c:555-577 | two handles that are held are the same exactly when their characters are |
| Interning.Interner.InTableExactlyWhenHeld | bldenv/make/str.c:479-504 | a string is in the table exactly as long as it is held |
| Interning.StringSetup | bldenv/make/str.c:506-517 | the hash value of a string, character by character |
| HashLaws.HashOfOne | bldenv/make/str.c:506-517 | the empty string has the hash value zero, and a character its own |
| HashLaws.HashOfBoth | bldenv/make/str.c:506-517 | the hash value of two strings together is that of the first times 31 to the length of the second, plus that of the second, modulo the word |
| Ink.ComputeInk | bldenv/bdftosnf/fontutil.c:283-388 | the four bearings are the tight box of the set pixels, or all empty if there is none |
| Ink.MetricsSay | bldenv/bdftosnf/fontutil.c:283-388 | every set pixel is within the four bearings, and there are set pixels in the row and the column at each of them |
| Ink.PixelIsDigit | bldenv/bdftosnf/fontutil.c:279-281 | pixel c of a row is set exactly if its byte c / 8, doubled c % 8 times without the digit that is carried out, is at least 0x80 |
| Ink.BitIsDigit | bldenv/bdftosnf/fontutil.c:279-281 | pixel i of a byte is the highest digit of its value once it has been doubled i times |
| Ink.LeftmostIsHighest | bldenv/bdftosnf/fontutil.c:279-281 | the leftmost pixel of a byte is set exactly if its value is at least 0x80 |
| Ink.NextIsDoubled | bldenv/bdftosnf/fontutil.c:279-281 | the next pixel is the same pixel of the byte doubled |
| Ink.Scan | bldenv/bdftosnf/fontutil.c:312-387 | the four scans find the edges of the tight box |
| Ink.TightIsSmallest | bldenv/bdftosnf/fontutil.c:283-388 | a tight box lies inside every box that encloses the pixels |
| Ink.EmptyExactlyWhenBlank | bldenv/bdftosnf/fontutil.c:326-333 | the bearings are equal, and the ascent and descent cancel, exactly if no pixel is set; otherwise the metrics are a tight box and no other box is |
| Ink.CharBits | bldenv/bdftosnf/fontutil.c:346-353 | the bits of a column of bytes taken together are the columns of pixels with a set one |
| Dependencies.UpdateDatabase | bldenv/md/md.c:745-884 | the one pass over the file writes its preamble and the merged sections |
| Dependencies.UpdateIsUnion | bldenv/md/md.c:745-884 | the file is read back as the merge of its sections with the targets' exactly if no line written for a target looks like a header; it then has the union of the sections, in dictionary order exactly if it was before, with new lines for the targets and old lines for the others, separators exactly where a section follows, and the old preamble |
| Dependencies.MergeAscends | bldenv/md/md.c:799-857 | the merged sections are in order and unique exactly if those of the file were |
| Dependencies.MergeReplaces | bldenv/md/md.c:799-857 | the exact lines there are for every name after the merge |
| Dependencies.UpdatedReadsBack | bldenv/md/md.c:886-914 | what is written is read back as the merged sections exactly if no line written for a target looks like a header |
| Dependencies.UpdateTwice | bldenv/md/md.c:745-884 | merging the same targets again then leaves the file as it is |
| Dependencies.TwiceIsOnce | bldenv/md/md.c:745-884 | merging the same targets twice is merging them once exactly if no line written for a target looks like a header; each one that does is a section more |
| Dependencies.NamesWithoutBlanks | bldenv/md/md.c:886-914 | no line written for a name without blanks looks like a header |
| Dependencies.BlankNamesAddLines | bldenv/md/md.c:632-645 | a name with blanks for which merging twice differs |
| Dependencies.Pass.OutputTarget | bldenv/md/md.c:886-914 | the lines that are written for a target |
| Dependencies.StrcmpIsOrder | bldenv/md/md.c:728-743 | the comparison is zero exactly for equal names, and antisymmetric |
| Dependencies.StrcmpIsDictionary | bldenv/md/md.c:722-743 | a name is before another exactly if it is a proper beginning of it, or has a smaller character where they first differ |
| Dependencies.AscendingExactly | bldenv/md/md.c:722-743 | sections are in order exactly if their names stand in dictionary order, each before all that follow |
| Dependencies.MergeKeepsOrder | bldenv/md/md.c:799-857 | for targets in dictionary order, the merged sections are in dictionary order exactly if those of the file were |
| Dependencies.LinesSay | bldenv/md/md.c:886-914 | the lines of the two kinds, character by character: name, colon, blank, dependency, in the order of the dependencies; the same in a comment with angle brackets |
| Dependencies.BodySays | bldenv/md/md.c:886-914 | a target gets one line for each of its dependencies, and then one comment line for each of the standard ones if these are asked for |

## Left out

The scheduler:
- Signals, stopped and resumed jobs, interrupts and aborts by the user; forking, shells, remote hosts: a child ends with a status and a time of its target's file, in any order.
- `.MAKE` nodes, which wait for the job table and then count as special jobs; maxLocal of 0.
- `.USE` nodes, `::` cohorts, archives and libraries, `.DEFAULT`, the special targets (`.BEGIN`, `.END`, `.ERROR`, `.EXIT`, `.INTERRUPT`), and the options -t, -q and -n: the graph is given with its edges and commands, and does not change during a run.
- The search for implicit rules while the graph is marked; it is modelled by itself.
- Commands after "..." that are saved for the end, and the printing of a cycle.
- Nodes are numbers and their records are sequences indexed by them; pointers to nodes, and what could go wrong with them, are not modelled.
- Compat.EnginesAgree: a node whose only commands are "@", "-" or blanks has something to execute for the sequential engine and not for the parallel one; the engines are compared where they find something to execute for the same nodes.
- Sequential.WhoIsToBlame: which nodes fail or are aborted is not compared with the parallel engine, which stops elsewhere; schedule independence speaks of nodes that both engines settled.
- Times of files are what the commands leave behind; the cache of directories is not modelled.

Variable expansion:
- Expansion.ExpansionEnds: leaves out the modifier @, with which it is false (LoopForever.LoopNeverEnds); which expansions with @ end is not characterised.  SkipAgreesWithExpand includes it.
- LostEnd.EndIsLostExactlyWhen: is about one modifier; a whole specification can end in the same place again further on.
- The text that a procedure of `Expander` puts together is a string that it returns; the program adds it to a buffer of its caller.  The flags of variables in use are one set of names, an error message or a fatal error is a result, and a substitution that does not end is a result too.
- Expander.Parser.Pieces: the context is that of a node, in which the variable of :@ hides another of the same name until it is removed; in a global context it would take its place and then be gone.
- The paths of nodes, the output of shell commands, the words that a pattern matches, and the modifiers H, T, E and R are parameters there.
- A lone dollar sign at the end of a text, behind which the program reads on.
- Buffers that are kept for reuse.

Suffixes:
- Suffixes.Finder.FindThem: is not called where the search does not end (Suffixes.SearchGoesOn).  Records are numbered in a pool instead of being pointers, and are not freed.

Strings, tables and paths:
- Characters are not negative; the program's hash value differs for others, but nothing else depends on it.
- What becomes of a program that has read or written out of bounds (Flatten.StringFlatten, Glob.StrMatch, Buffers.Buffer.UngetByte): that is a result.
- The head, tail, prefix, suffix and archive parts that a string keeps.
- Sizes of tables, buffers and counters are unbounded.
- HashTable.Search.EnumNext: the table does not change during an enumeration.

Bitmaps and dependency files:
- Ink.ComputeInk: the bits past the last pixel of a row are zero, as the reader of the font leaves them; rows are as wide as the macro for the padded width says, which is the width in bytes.  The writes to the record are gathered after the scans, which do not read it.
- Dependencies.UpdateDatabase: a file is a list of lines that all end in a newline; errors of reading and writing, the backup copy and the renaming are left out, and sorting is a function.
