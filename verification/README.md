# A verified model of GêBR's state machines, indexes and parsers

GêBR (the client `gebr`, the menu editor `debr`, and the library `libgebr`) is mostly an interface,
but several state machines, indexes and parsers sit inside it. This project models those in Dafny
and proves what they keep, what they undo, and where exactly they fall short.

Verify with `dafny verify dfyconfig.toml`.

| file | what it models |
|---|---|
| `Strings.dfy` | options, `g_strsplit`, the string order, sorted lists |
| `Snapshots.dfy` | the snapshot forest of a flow, its children table, and deleting snapshots |
| `Job.dfy` | a job: task table, status, output |
| `Protocol.dfy` | what the messages of a maestro do to a client, as values: job tables, queue rows, machines, groups, the message loop, whole sessions |
| `Maestro.dfy` | the same as the program does it, on shared objects changed in place |
| `Tokens.dfy` | comma separated option values with escapes |
| `ConfigFile.dfy` | the configuration file reader with includes |
| `ConfigLines.dfy` | every shape a line of a configuration file may have, and what it is read as |
| `Options.dfy` | the option record: argument parsing, dumping, and the way back |
| `JobControl.dfy` | filters of the job list and the count of hidden jobs |
| `Help.dfy` | refreshing the generated blocks of a help page |
| `Dictionary.dfy` | which variable of which document a completion offers and a parameter takes |
| `Paths.dfy` | rewriting the paths of a flow and of its nested revisions |
| `MenuCleanup.dfy` | emptying values and making them defaults when a menu is made from a flow |
| `Trees.dfy`, `Mirror.dfy`, `Editor.dfy` | the parameter editor: ordered trees, two of them kept alike, and the events that edit both |
| `Placement.dfy` | where those events put things, and that everything else stays |

Code that changes an object or a buffer in place is a class or a method with loops here, proved
against specification functions; the lemmas are about those functions. C behaviour that is undefined
(a message about a job that is not known, a task number out of range) is the outcome `Undefined`
that ends a run, not a precondition. Recursive types and include ranks make the recursions end.

What the proofs found, each as an if-and-only-if over all inputs, and with a lemma that shows the
failure on an input the program can meet:

- Removing a leaf snapshot leaves the children table stale unless the leaf was a root
  (`Snapshots.LeafTableMatchesRebuild`; a pair of snapshots in `Snapshots.StaleLeaf`). Removing an
  interior one patches it rightly exactly when it was a root or the id passed in is the very string
  stored (`Snapshots.PatchMatchesRebuild`). The interface passes a string of its own, so its table is
  stale after every such removal (`Snapshots.InterfaceTableStale`); it builds a new one for each, so
  its own runs are safe.
- Deleting a snapshot orphans its children exactly when it has some and a document of the flow does
  not load (`Snapshots.OrphansExactly`, `Snapshots.OrphanLeft`).
- A failed include is forgotten when a later include succeeds (`ConfigFile.SuccessIffAccepted`,
  `ConfigFile.IncludeForgotten`).
- The dump escapes nothing, so a record comes back exactly when its values are plain
  (`Options.DumpLoadRoundTrip`, which also decides any given record).
- A keyword defined in a narrower document hides wider ones from the completion even at scopes where
  the narrower one may not be used (`Dictionary.KeywordOffered`, `Dictionary.KeywordHidden`).
- The machine filter finds every active machine of a job exactly when the active ones are listed
  before all others (`JobControl.GapHidesMachine`, `JobControl.MachineMissed`).
- Rewriting paths with the unconfigured mark set stops at the first file parameter of a list that
  holds a path; nothing is missed exactly when the function leaves the later paths alone
  (`Paths.StoppingMissesNothingIff`). The program uses it to empty all paths, and so leaves some in
  every flow with two such parameters in one list (`Paths.FlowEmptied`, `Paths.EmptyingLeavesOne`).
- The cleanup of a menu stops after the first group; nothing is missed exactly when everything after
  it is clean already (`MenuCleanup.CleansAllIff`, `MenuCleanup.ValueKept`).
- Pasting looks only at the first pasted parameter, so it puts a group into a group exactly when it
  goes into a group, the first is none and a later one is (`Editor.NextKeeps`, `Editor.NestedPaste`).
- Dragging a row into another list makes it anew without the rows below it, which loses rows exactly
  when there are some (`Editor.DraggedKeeps`); only a group that sits in another group has any and can
  change lists, so only after a nesting paste (`Editor.RowsLost`, a run of both).

Two conditions fail on no input the program can receive:

- Submitting a job would lose another one if its temporary id were taken
  (`Maestro.GebrMaestroServer.AddTemporaryJob`), but ids come from a counter (gebr/gebr-job.c:243-246)
  and are told apart, so no submission ever does (`Protocol.SubmitLosesNone`).
- A comma at the start of an option value would be taken for escaped if the character before the value
  in memory were a backslash (`Tokens.TokensRefineSplit`), but values follow an equals sign or the
  terminator of the argument before.

## Model

| member | source | states |
|---|---|---|
| Snapshots.SplicePreservesForest | gebr/flow.c:899-979 | removing any snapshot of an acyclic forest keeps it acyclic, leaves nobody pointing at it, keeps ancestry between every two survivors exactly, and keeps it closed |
| Snapshots.RunPreservesForest | gebr/ui_flow_browse.c:1553-1587 | over a whole run of deletions exactly the named snapshots go, and the same holds at the end |
| Snapshots.RunSurvives | gebr/ui_flow_browse.c:1553-1587 | after a run every snapshot left has its id, its content and its place in the order, a broken one its text, and its parent is its nearest ancestor left; where some document is broken nothing but the removal happens; the run reaches the first broken one named, or the end |
| Snapshots.SpliceTakesOut | gebr/flow.c:944-966 | one removal keeps every other revision's id, place and content; the children of the removed one name its parent, all others the parent they named |
| Snapshots.OrphansExactly | gebr/flow.c:899-979 | children are left pointing at a deleted snapshot if and only if it has some and some document does not load |
| Snapshots.OrphanLeft | gebr/flow.c:899-979 | a root with a child beside a broken document: the child is left pointing at the deleted root |
| Snapshots.ChildrenOfExact | gebr/flow.c:981-1027 | the list a fresh table holds under a key is exactly the children of that key, each once |
| Snapshots.ChildrenOfReversed | gebr/flow.c:981-1027 | and they come in reverse document order |
| Snapshots.CreateTable | gebr/flow.c:981-1027 | for every order of the revisions every id is a key and every row lists exactly its children; no table when a document is broken |
| Snapshots.PatchMatchesRebuild | gebr/flow.c:944-974 | after an interior removal the patched table agrees with a rebuilt one on every non-empty key if and only if the removed snapshot was a root or the id is the stored element |
| Snapshots.LeafTableMatchesRebuild | gebr/flow.c:937-942 | the table untouched by a leaf removal agrees with a rebuilt one if and only if the leaf was a root |
| Snapshots.InterfaceTableStale | gebr/ui_flow_browse.c:1553-1587 | with the string the interface passes the patched table is right if and only if the removed snapshot was a root |
| Snapshots.StaleLeaf | gebr/flow.c:937-942 | a root and its one child: the table still lists the child after its removal |
| Snapshots.RemovePointerTexts | gebr/flow.c:969 | removing by pointer takes one occurrence of the text out, and only if the very string is in the list |
| Snapshots.FindRevision | gebr/flow.c:908-930 | finds the first revision with the id, or says there is none |
| Snapshots.IndexOf | gebr/ui_flow_browse.c:1553-1587 | the position of a snapshot, or -1 exactly when it is not known |
| Snapshots.Flow.Remove | gebr/flow.c:899-979 | every outcome of a removal: unknown or broken, leaf, interior, and a child that does not load half way; in each of them who is left, in which order, with which content and under which parent |
| Snapshots.Flow.AdoptChildren | gebr/flow.c:948-966 | every child gets the new parent and keeps its content, or those before the first that does not load |
| Snapshots.Flow.DeleteSnapshots | gebr/ui_flow_browse.c:1553-1587 | the loop ends in the state of the specified run; survivors have their content and order under their nearest ancestor left; the head is where it was or at the nearest ancestor left of a deleted snapshot; a sound flow stays sound |
| Snapshots.Flow.DeleteNamed | gebr/ui_flow_browse.c:1553-1587 | the head moves to the deleted snapshot's parent exactly when it was there; without children to hand over it does not otherwise; else the program's result is unset |
| Snapshots.Flow.DeleteAt | gebr/flow.c:899-979 | with a fresh table a removal is the specified splice with every other content kept, and the head is told to move when its parent goes |
| Job.TasksMatchStoredList | gebr/gebr-job.c:268-302 | over server lists alone, the task table is that of the stored server list if and only if the first non-empty list has a complete pair or none ever has |
| Job.ReceiveFixed | gebr/gebr-job.c:268-302 | a stored list never changes again, nor does a task table that is not empty |
| Job.FirstListsDecide | gebr/gebr-job.c:268-302 | the first list that names a pair makes the tasks, the first that is not empty is stored |
| Job.HeardExactly | gebr/gebr-job.c:268-302 | whatever a job is told, in whatever order: its tasks are those its server lists make, each with everything said to it and its last command line |
| Job.SlotsMatchStoredList | gebr/gebr-job.c:268-302 | output and command lines between the server lists do not matter to that: the slots are those of the stored list under the same condition |
| Job.ToldAlike | gebr/gebr-job.c:823-829 | two jobs told the same lists are the same if and only if each task was told the same |
| Job.ParseTasks | gebr/gebr-job.c:281-293 | one task for each complete pair, task i with fraction i+1 and its own machine and share, nothing said to it yet |
| Job.InterleavingIrrelevant | gebr/gebr-job.c:823-829 | two deliveries of output leave the same tasks if and only if they say the same to each task in its own order |
| Job.AppendAllAt | gebr/gebr-job.c:823-829 | each task's output is what it had followed by everything said to it |
| Job.GebrJob.SetServers | gebr/gebr-job.c:268-294 | a task table is set once |
| Job.GebrJob.SetServerLists | gebr/gebr-maestro-server.c:822-823 | both setters together are one step of the specified history |
| Job.GebrJob.SetStatus | gebr/gebr-job.c:729-763 | running restarts the clock, a stopping status ends it, and nothing else changes |
| Job.GebrJob.GetOutput | gebr/gebr-job.c:458-465 | the whole output is the tasks' outputs in order |
| Job.GebrJob.AppendOutput | gebr/gebr-job.c:823-829 | appends to that task only and leaves every slot as it was |
| Protocol.RunSound | gebr/gebr-maestro-server.c:621-1182 | at every event boundary of every session: tables keyed by run id, no real job fake, queue rows exactly right, temporary ids from the counter, machine addresses unique, groups derived once told, each job as it has been told |
| Protocol.RunStops | gebr/gebr-maestro-server.c:621-1182 | a session ends before its last event only where delivered messages run into undefined behaviour |
| Protocol.RunKeeps | gebr/gebr-maestro-server.c:621-1182 | over a session no real job leaves and no task table that is not empty changes its slots; a change of the connection has the groups derived |
| Protocol.GroupsFollow | gebr/gebr-maestro-server.c:714-765 | from the first group or state message or change of the connection on, the groups list is the one the machines call for |
| Protocol.JobsAsTold | gebr/gebr-maestro-server.c:766-913 | at the end of every session each real job has the tasks its server lists make, each with all its output in order and its last command line; its slots are those of the stored list if and only if the first non-empty list has a pair or none has |
| Protocol.TasksAsSaid | gebr/gebr-maestro-server.c:766-913 | the same in the messages' own fields: machines and shares of the first server list with a pair, and for each fraction all its output in order and its last command line |
| Protocol.JobsAsSaid | gebr/gebr-maestro-server.c:766-931 | at the end of every session each real job has the status of the last `job` or `sta` message, queue and details of the last `job` message, the start and finish moments the dated messages call for, its last issues, and its origin from the first `job` message unless it was submitted here; the real jobs are exactly those a `job` message named |
| Protocol.OnJobSaid | gebr/gebr-maestro-server.c:766-931 | every message about a job keeps that |
| Protocol.FirstHeard | gebr/gebr-maestro-server.c:800-861 | a job's first `job` message promotes the temporary job it names, or else brings the job with its origin; no other job changes |
| Protocol.MachinesAsSaid | gebr/gebr-maestro-server.c:714-1180 | at the end of every session the machines are those heard of and not removed since, with the groups, backwards, and the state, name, cores and flavors last told |
| Protocol.OthersStay | gebr/gebr-maestro-server.c:731-765 | a machine not heard of comes first; a known one keeps its place; no other changes |
| Protocol.OutcomesExactly | gebr/gebr-maestro-server.c:714-1180 | which messages are bad, and which run into something that is not there |
| Protocol.DeliveredInOrder | gebr/gebr-maestro-server.c:630-631 | what waits is handled first and what is delivered then, in the order it came |
| Protocol.SessionsAlike | gebr/gebr-maestro-server.c:899-913 | two sessions with the same server lists for a job leave it the same tasks if and only if each task was told the same, however the messages interleave |
| Protocol.ParseOrder | gebr/gebr-maestro-server.c:630-631 | messages are handled from the end of the list on, up to the one that stops the loop |
| Protocol.ParseSound | gebr/gebr-maestro-server.c:621-1182 | the message loop keeps all of that |
| Protocol.ParseKeeps | gebr/gebr-maestro-server.c:621-1182 | the message loop loses no real job and no slot, and a bad message has the groups derived |
| Protocol.OnJobSound | gebr/gebr-maestro-server.c:766-946 | every message about a job keeps tables and queue rows right |
| Protocol.OnJobHistory | gebr/gebr-maestro-server.c:766-946 | and leaves each job as it has been told, promoted or new |
| Protocol.OnMachineSound | gebr/gebr-maestro-server.c:714-765 | every other message keeps addresses unique and groups derived |
| Protocol.DefineConserves | gebr/gebr-maestro-server.c:800-861 | promotion moves exactly one job; only a job not known at all makes one more |
| Protocol.SubmitLosesNone | gebr/gebr-job.c:239-249 | a submitted job is new, with nothing but its id and queue, and takes nobody's place, because the counter has not given out its id before |
| Protocol.TempIdInjective | gebr/gebr-job.c:243-246 | temporary ids are told apart by their number |
| Protocol.DecimalReads | gebr/gebr-job.c:243-246 | the number in a temporary id is the counter in decimal |
| Protocol.NextRowsKeep | gebr/gebr-maestro-server.c:491-526 | the rows stay duplicate free behind Immediately; a finished, failed or canceled job leaves its place and the others close up, a queued or running one is appended unless there, and nothing else changes |
| Protocol.WithoutAddressKeeps | gebr/gebr-maestro-server.c:1069-1093 | what is left is what does not have the address, addresses still unique |
| Protocol.WithoutAddressAt | gebr/gebr-maestro-server.c:1069-1093 | the others keep their order |
| Protocol.GroupsAreDerived | gebr/gebr-maestro-server.c:317-359 | the groups list is the group of all, each tag once in descending order and the machines, and there is no other such list |
| Maestro.Session | gebr/gebr-maestro-server.c:621-1182 | the objects of a session end as the session of their values, with why it stopped, each job and each machine as the messages say, and the groups derived |
| Maestro.GebrMaestroServer.ParseMessages | gebr/gebr-maestro-server.c:621-1182 | the loop leaves exactly the state the specified loop does, on the same job objects |
| Maestro.GebrMaestroServer.TakeLast | gebr/gebr-maestro-server.c:630-712 | one turn has exactly the specified effect of the last message |
| Maestro.GebrMaestroServer.Step | gebr/gebr-maestro-server.c:1784-1792 | submissions, deliveries and changes of the connection have exactly the specified effect |
| Maestro.GebrMaestroServer.constructor | gebr/gebr-maestro-server.c:1420-1458 | a new client view has only the row Immediately and the autochoose entry |
| Maestro.GebrMaestroServer.HandleJob | gebr/gebr-maestro-server.c:766-869 | a `job` message refreshes a known job, promotes one temporary job without losing or making any, or registers a new one; all tables and rows are as specified and every other job object is unchanged |
| Maestro.GebrMaestroServer.Promote | gebr/gebr-maestro-server.c:800-812 | a temporary job changes tables and gets its real id; the jobs altogether stay the same |
| Maestro.GebrMaestroServer.HandleStatus | gebr/gebr-maestro-server.c:914-931 | the job has the status and its moments, the rows follow, nothing else changes; undefined exactly when it is unknown |
| Maestro.GebrMaestroServer.HandleOutput | gebr/gebr-maestro-server.c:899-913 | appends to the task with that fraction and changes nothing else; undefined exactly when job or fraction is unknown |
| Maestro.GebrMaestroServer.HandleCmdLine | gebr/gebr-maestro-server.c:885-898 | sets that task's command line and nothing else; undefined exactly when job or fraction is unknown |
| Maestro.GebrMaestroServer.HandleJobMessage | gebr/gebr-maestro-server.c:766-946 | each message about jobs has exactly its specified effect on tables and rows and leaves every other job object unchanged |
| Maestro.GebrMaestroServer.HandleDaemonMessage | gebr/gebr-maestro-server.c:714-1180 | each other message has exactly its specified effect on machines and groups, and is bad or undefined exactly when specified |
| Maestro.GebrMaestroServer.UpdateQueues | gebr/gebr-maestro-server.c:491-526 | a stopped job leaves the rows, a live one is in them once, the others keep their order |
| Maestro.GebrMaestroServer.AddTemporaryJob | gebr/gebr-maestro-server.c:1784-1792 | a submitted job is in the table; no other is lost if and only if its id was free |
| Maestro.MoveKeepsValues | gebr/gebr-maestro-server.c:800-812 | moving one entry between tables keeps the jobs of both together |
| Maestro.GebrMaestroServer.FindDaemon | gebr/gebr-maestro-server.c:468-489 | the first machine with the address, or none |
| Maestro.GebrMaestroServer.GetAllTags | gebr/gebr-maestro-server.c:1667-1690 | every tag of a real machine once, in descending order |
| Maestro.GebrMaestroServer.UpdateGroupsStore | gebr/gebr-maestro-server.c:317-359 | the groups list is the one the machines call for |
| Maestro.MachineRowsSnoc | gebr/gebr-maestro-server.c:343-356 | one more machine, one more row with its address and hostname, unless it is the autochoose entry |
| Maestro.GebrMaestroServer.HandleServerState | gebr/gebr-maestro-server.c:714-765 | a known machine is updated, an unknown one put first, every other machine is unchanged |
| Maestro.GebrMaestroServer.HandleAddGroups | gebr/gebr-maestro-server.c:947-969 | that machine has the new tags and is otherwise as it was, no other changes, and the groups are derived anew |
| Maestro.GebrMaestroServer.HandleServerRemove | gebr/gebr-maestro-server.c:1069-1093 | exactly the machines with the address go |
| Maestro.GebrMaestroServer.RemoveRows | gebr/gebr-maestro-server.c:1069-1093 | the walk that removes while iterating misses no row |
| Maestro.GebrMaestroServer.HandleMpi | gebr/gebr-maestro-server.c:1050-1068 | that machine has the new flavors and is otherwise as it was, no other changes; bad exactly when there is none |
| Maestro.GebrMaestroServer.GetNCores | gebr/gebr-maestro-server.c:2046-2075 | the count is the sum over exactly the matching machines |
| Maestro.GebrMaestroServer.MachinesCounted | gebr/gebr-maestro-server.c:2046-2075 | which machines count for a group and a flavor |
| Maestro.GebrMaestroServer.GroupCores | gebr/gebr-maestro-server.c:2065-2075 | the same for a group |
| Maestro.CoreSumAdd | gebr/gebr-maestro-server.c:2065-2075 | the sum over a set does not depend on an order |
| Maestro.DaemonServer.SetTags | gebr/gebr-daemon-server.c:264-285 | the tags are kept backwards |
| Maestro.DaemonServer.HasTag | gebr/gebr-daemon-server.c:287-303 | carried if empty or in the list |
| Tokens.GetMultipleArgToken | gebr/cmdline.c:363-405 | the buffer has exactly the computed length and holds the token, every place filled |
| Tokens.ScanToken | gebr/cmdline.c:363-384 | the token ends at the first comma with no backslash before it, and the count of escapes is right |
| Tokens.UnescapeLength | gebr/cmdline.c:363-405 | the computed length is that of the unescaped token, but for a comma escaped from outside |
| Tokens.GetMultipleArgTokenNext | gebr/cmdline.c:407-429 | what follows the token's comma; nothing when the comma ends the string |
| Tokens.TokensRefineSplit | gebr/cmdline.c:363-429 | repeated extraction is splitting at unescaped commas and then unescaping, if and only if the value does not start with a comma escaped from outside |
| Tokens.JoinThenExtract | gebr/cmdline.c:363-429 | extraction inverts escaping and joining if and only if the tokens are joinable |
| Tokens.JoinableMeaning | gebr/cmdline.c:363-429 | joinable: no token but the last ends in a backslash (the character before counting for an empty first one), and the last of several is not empty |
| Tokens.UpdateMultipleArgTemp | gebr/cmdline.c:669-703 | every token is counted and goes to the head of the list |
| Tokens.UpdateMultipleArg | gebr/cmdline.c:729-767 | the list lands in the array after the old values, in command line order |
| ConfigFile.ParseConfigFile | gebr/cmdline.c:1006-1122 | the reader's list, counter and status are those of the specified reading |
| ConfigFile.BuildArgv | gebr/cmdline.c:1145-1174 | the vector is the program name and the arguments in order, its length equals the counter; none when the read failed |
| ConfigFile.SoundReadsExpansion | gebr/cmdline.c:1006-1174 | a file that is sound all the way down reads as the in-order expansion of its lines, includes in place |
| ConfigFile.SuccessIffAccepted | gebr/cmdline.c:1085-1122 | success is reported if and only if no own line is bad and the file included last is accepted |
| ConfigFile.IncludeForgotten | gebr/cmdline.c:1085-1122 | a file that includes a missing one and then an empty one reads successfully |
| ConfigFile.ArgumentFits | gebr/cmdline.c:998-1004 | an assembled argument fits its buffer for every line that can be read |
| ConfigFile.Fgets | gebr/cmdline.c:1017-1020 | a line is cut at its newline or at the buffer size |
| ConfigLines.ShapeReads | gebr/cmdline.c:1034-1120 | for every name and value, a line of blanks, name, equals sign or blanks, value bare or in either quote, and end reads as `--name=value`, `--name`, `-n` and value, or an include |
| ConfigLines.ShapesExactly | gebr/cmdline.c:1034-1120 | blank and comment lines and no others are skipped; lines of none of these shapes and no others are bad |
| Options.DumpLoadRoundTrip | gebr/cmdline.c:272-324 | loading a dumped record gives it back if and only if its values are plain, sizes numeric, servers without commas, and the required directories there when asked for |
| Options.EntriesReadBack | gebr/cmdline.c:1006-1174 | the same entry by entry, from any record that does not hold them yet |
| Options.EntriesDescribe | gebr/cmdline.c:289-324 | the dump lists the record, nothing more and nothing twice |
| Options.GoodEntryReads | gebr/cmdline.c:1023-1122 | a plain line is read as its own argument, whatever follows it |
| Options.BadEntryReads | gebr/cmdline.c:1023-1122 | a line that is not plain never reads as its own argument |
| Options.Dump | gebr/cmdline.c:289-324 | the file written is the text of the record's entries |
| Options.ParseKeeps | gebr/cmdline.c:578-664 | what has been given is never overridden |
| Options.ValueTaken | gebr/cmdline.c:843-975 | what an argument with a value does: refused when given before or no number where one is due, else stored; servers are split and appended |
| Options.FlagTaken | gebr/cmdline.c:943-953 | only the flag goes without a value, once |
| Options.OnlyOptionsTaken | gebr/cmdline.c:843-975 | no other argument is taken |
| Options.ServersTaken | gebr/cmdline.c:666-720 | all servers of one value are added, for every joinable list |
| Options.DumpOrder | gebr/cmdline.c:289-324 | the order of a dump |
| JobControl.JobList.VisibleFunc | gebr/gebr-job-control.c:743-774 | ends, and a row is visible exactly as specified; the flags say which filters are in use |
| JobControl.JobShown | gebr/gebr-job-control.c:743-774 | in the job's own fields: shown if and only if it belongs to the automatic flow, or else is what the status, machine or group, and flow choices each ask for |
| JobControl.BlankShown | gebr/gebr-job-control.c:743-774 | a row not filled yet is shown if and only if nothing is asked for |
| JobControl.HeaderShown | gebr/gebr-job-control.c:702-741 | a header is shown if and only if a shown job of its bucket comes before any row not filled yet |
| JobControl.JobList.ControlVisible | gebr/gebr-job-control.c:702-741 | a header is visible exactly when some job of its bucket passes the automatic filter if set, all three choices otherwise, before any unfilled row |
| JobControl.JobList.VisibleForStatus | gebr/gebr-job-control.c:637-700 | status filter, where canceled takes failed jobs too |
| JobControl.JobList.VisibleForServers | gebr/gebr-job-control.c:522-635 | machine or group filter |
| JobControl.GapHidesMachine | gebr/gebr-job-control.c:604-617 | the machine filter finds every active machine of a job if and only if no active one comes after one that is not |
| JobControl.MachineMissed | gebr/gebr-job.c:390-410 | a machine without a share before one with: the filter misses the second |
| JobControl.JobList.VisibleForFlowName | gebr/gebr-job-control.c:435-520 | flow title filter |
| JobControl.HeadersBelowJobs | gebr/gebr-job-control.c:245-282 | there are never more visible headers than visible jobs: each has a job of its own bucket |
| JobControl.NonSingleMessage | gebr/gebr-job-control.c:227-292 | the message counts the hidden jobs exactly, in every list with one header for each bucket |
| JobControl.CountHeaders | gebr/gebr-job-control.c:262-275 | the early cutoff misses no header |
| JobControl.ViewSplit | gebr/gebr-job-control.c:245-282 | the rows of the view are its headers and its jobs |
| Help.HelpRefreshIdempotent | debr/debr-help.c:405-546 | refreshing twice is refreshing once, for title, description, category, DTD and version blocks that are whole and disjoint, whatever the title, description and categories say, and any DTD and version text that holds none of the marks |
| Help.RefreshIdempotent | debr/debr-help.c:405-546 | the same for any list of fields whose text holds none of the marks |
| Help.HelpBlocks | debr/debr-help.c:405-546 | what every block holds after a refresh, tag by tag, and which blocks stay |
| Help.TidyAfter | debr/debr-help.c:593-625 | replacing a block keeps all blocks whole and disjoint |
| Help.OtherBlockAfter | debr/debr-help.c:593-625 | and what is between the marks of the others |
| Help.OwnBlockAfter | debr/debr-help.c:421-437 | the block holds exactly the new text, and what is before and after it stays |
| Help.InsertionMakesNoMark | debr/debr-help.c:421-489 | text without a mark makes no new one, not even across its edges |
| Help.EscapedTextIsMarkless | debr/debr-help.c:421-484 | escaped titles, descriptions and categories hold no mark, whatever they are |
| Help.MarkupRoundTrip | debr/debr-help.c:421-484 | escaped text reads back as the text |
| Help.CategoriesJoined | debr/debr-help.c:463-482 | categories are joined in their order by bars |
| Help.GString.StripBlock | debr/debr-help.c:593-625 | what is erased and where the caller inserts |
| Help.GString.Put | debr/debr-help.c:421-437 | strip and insert together are the specified refresh of a block |
| Help.SubstFields | debr/debr-help.c:405-546 | the buffer ends as the specified refresh of all fields in order |
| Help.IndexIsFirst | debr/debr-help.c:593-625 | the search finds the first occurrence, or none exactly when there is none |
| Dictionary.OfferedIffNarrowest | gebr/gebr-dictionary.c:207-254 | a variable is offered if and only if its document is the narrowest that defines the keyword and may be used at the scope |
| Dictionary.OfferedWhere | gebr/gebr-dictionary.c:207-254 | for each document which scopes its variable is offered at, and what its row shows |
| Dictionary.OfferedIsCopied | gebr/flow.c:492-530 | at flow scope the variable offered is the one whose value the last-found-wins copy takes |
| Dictionary.KeywordOffered | gebr/gebr-dictionary.c:207-254 | a keyword is offered at a scope if and only if its narrowest definition may be used there |
| Dictionary.KeywordHidden | gebr/gebr-dictionary.c:207-254 | a keyword of the flow and the line is not offered where only the line's may be used |
| Dictionary.DictComplete.UpdateModel | gebr/gebr-dictionary.c:139-166 | the store is refilled with the rows of the three documents in order, then the paths |
| Dictionary.StoreEnds | gebr/gebr-dictionary.c:139-166 | a document that is not there ends the filling, and what the rows before it show |
| Dictionary.DictComplete.VisibleFunc | gebr/gebr-dictionary.c:207-254 | a row is visible exactly as specified |
| Dictionary.CopyFromDicts | gebr/flow.c:492-530 | the value taken is that of the narrowest document that has one |
| Dictionary.NothingCopied | gebr/flow.c:492-530 | without a definition the value stays; the reference always goes and the other values stay |
| Paths.RewritingExactly | gebr/flow.c:591-637 | for every function the rewritten flow is the one flow with the old paths rewritten one by one, in the same places, and otherwise as it was |
| Paths.PathsRewritten | gebr/flow.c:591-637 | for every function every stream and every non-empty file value is rewritten at every depth of loadable revisions, and empty values stay |
| Paths.UnchangedIffFixed | gebr/flow.c:591-637 | a flow is left as it is if and only if the function leaves each of its paths |
| Paths.FlowComposesIff | gebr/flow.c:591-637 | on a given flow rewriting twice is rewriting once with the composition if and only if no path emptied by the first function is given text by the second |
| Paths.ComposesIff | gebr/flow.c:591-637 | on every flow, if and only if the second function leaves the empty path or the first never makes one |
| Paths.StopsAtFirst | gebr/flow.c:560-588 | with programs to be marked, exactly what comes up to the end of the first file parameter that holds a path is rewritten, for every function |
| Paths.StoppingMissesNothingIff | gebr/flow.c:560-588 | that loses no rewriting if and only if the function leaves every later path, for every function |
| Paths.MarkedIff | gebr/flow.c:560-588 | a program ends up marked if and only if it was or holds a path, for every function |
| Paths.FlowEmptied | gebr/flow.c:674-683 | setting the paths of a flow to empty leaves none at any depth if and only if in every parameter list no file parameter holds a path after the first that does |
| Paths.EmptyingIff | gebr/flow.c:674-683 | the same for one list |
| Paths.EmptyingLeavesOne | gebr/flow.c:674-683 | two file parameters with a path each: the second keeps its own |
| Paths.ModifyPaths | gebr/flow.c:591-637 | the streams, the programs and the nested revisions end as specified |
| Paths.ModifyParams | libgebr/geoxml/program.c:55-76 | the walk over a parameter list, group instances included, with its early end |
| Paths.ModifyValues | gebr/flow.c:560-588 | the values of one parameter, empty ones passed over |
| MenuCleanup.CopyValues | debr/debr-menu.c:1988-2009 | the lockstep copy makes the defaults equal the values whatever the two lengths |
| MenuCleanup.Cleanup | debr/debr-menu.c:1964-2018 | the walk ends as specified |
| MenuCleanup.CleansTheReached | debr/debr-menu.c:1964-2018 | every parameter reached is emptied, its values now its defaults, and those after a group are as they were |
| MenuCleanup.CleanedValues | debr/debr-menu.c:1988-2009 | each parameter reached has as many empty values as it had values, and these as defaults when asked for |
| MenuCleanup.CleansAllIff | debr/debr-menu.c:1964-2018 | the early return does no harm if and only if every parameter left out is clean already |
| MenuCleanup.ValueKept | debr/debr-menu.c:1964-2018 | a parameter after a group keeps its value and gets no default |
| MenuCleanup.ReachedArePlain | debr/debr-menu.c:1975-1984 | groups themselves are never emptied |
| Editor.RunKeeps | debr/debr-parameter.c:223-569 | in every run up to its first nesting paste the rows stay identical in shape and order to the document and no group sits in a group |
| Editor.SingleIsHarmless | debr/debr-parameter.c:223-569 | with one row selected at a time no run ever nests groups |
| Editor.NextKeeps | debr/debr-parameter.c:444-569 | every event keeps the trees alike, and nests groups if and only if it is a paste into a group whose first parameter is no group and a later one is |
| Editor.ParameterEditor.Run | debr/debr-parameter.c:223-569 | a run ends in the state its events specify, event by event, and stops only after a nesting paste |
| Editor.ParameterEditor.Step | debr/debr-parameter.c:223-569 | each event does to document, rows and clipboard exactly what is specified |
| Editor.ParameterEditor.New | debr/debr-parameter.c:223-323 | the row and the parameter go exactly where specified, found through the row's parent and the parameter's group |
| Editor.CreatedKeeps | debr/debr-parameter.c:223-323 | a new parameter keeps the trees alike and nests nothing |
| Editor.ParameterEditor.Remove | debr/debr-parameter.c:349-389 | the selected rows whose parent is not selected go, each with what is below it, in both trees |
| Editor.RemovedAllKeeps | debr/debr-parameter.c:349-389 | removing any selection keeps the trees alike |
| Editor.ParameterEditor.ToTheEdge | debr/debr-parameter.c:390-414 | the same move in both trees; `Placement.EdgePlacing` says where to and `Editor.EdgedKeeps` what it keeps |
| Editor.EdgedKeeps | debr/debr-parameter.c:390-414 | that keeps the trees alike and nests nothing |
| Editor.ParameterEditor.Copy | debr/debr-parameter.c:422-442 | the clipboard holds the selected parameters whose group is not selected as well |
| Editor.ParameterEditor.Cut | debr/debr-parameter.c:416-420 | copy and then remove, of the whole selection |
| Editor.ParameterEditor.Paste | debr/debr-parameter.c:444-569 | copies land together in order after the selection or last in the selected group, in both trees; a rejected paste changes neither |
| Editor.PastingKeeps | debr/debr-parameter.c:444-569 | a paste keeps the trees alike and nests groups exactly when told |
| Editor.ParameterEditor.Distribute | debr/debr-parameter.c:491-551 | the loops that move pasted parameters one after another are one placement of all of them |
| Editor.ParameterEditor.TakeBack | debr/debr-parameter.c:467-479 | the loop of a rejected paste removes exactly what was pasted |
| Editor.ParameterEditor.Drag | debr/debr-parameter.c:1480-1540 | document and rows change as specified, or neither when the drop is refused; `Placement.DragPlaced` says what goes where, `Editor.DraggedKeeps` when the trees stay alike |
| Editor.DraggedKeeps | debr/debr-parameter.c:1480-1540 | the trees stay alike if and only if the row keeps its list or has nothing below it or may not be dropped; so always when no groups are nested |
| Placement.NewPlaced | debr/debr-parameter.c:223-323 | a new parameter is last in the document, last in the selected group, or right after the selected one; a new group right after the enclosing group; nothing else moves |
| Placement.PastePlaced | debr/debr-parameter.c:444-569 | refused exactly when its first is a group and goes into one; else copies of the same shape under new names stand together in order where the selection says; nothing else moves |
| Placement.EdgePlacing | debr/debr-parameter.c:390-414 | the parameter is first, or last, of its own list, the others in their order |
| Placement.DragPlaced | debr/debr-parameter.c:1480-1540 | refused exactly when a group would come into a group; else the parameter with all below it stands right before, right after or last inside the target; nothing else moves |
| Placement.SelectionRemoved | debr/debr-parameter.c:349-389 | exactly the rows neither selected nor below a selected one are left |
| Placement.CopiedExactly | debr/debr-parameter.c:422-442 | the clipboard holds the chosen parameters whole, in the order of the selection |
| Placement.ChosenExactly | debr/debr-parameter.c:422-442 | of the selection those are chosen whose parent is not selected, in their order |
| Mirror.DragNestsNothing | debr/debr-parameter.c:1546-1568 | a permitted drop nests no groups |
| Mirror.DragIsSafe | debr/debr-parameter.c:1511-1531 | where no groups are nested only rows with nothing below them are made anew |
| Mirror.PasteNests | debr/debr-parameter.c:464-479 | a paste nests groups if and only if it puts any into a group |
| Mirror.GoodMove | debr/debr-parameter.c:390-414 | moving a row and its parameter to matching places keeps the trees alike |
| Mirror.GoodRemake | debr/debr-parameter.c:1496-1526 | making the row anew and removing the old one keeps them alike if and only if nothing was below it |
| Mirror.NewKeeps | debr/debr-parameter.c:248-312 | the row goes where the parameter goes |
| Editor.NestedPaste | debr/debr-parameter.c:464-479 | from a flat document with its rows in place, a paste of a parameter and a group into a group nests groups |
| Editor.RowsLost | debr/debr-parameter.c:1511-1526 | the run of that paste and of dragging the nested group out again loses the row below it |
| Trees.MoveConserves | libgebr/geoxml/sequence.c:75-133 | moving loses no node and makes none |
| Trees.MoveOnlyThat | libgebr/geoxml/sequence.c:75-133 | apart from the node that moves nothing changes |
| Trees.PlaceUndone | libgebr/geoxml/sequence.c:479-506 | taking a placed node away gives the tree back |
| Trees.PlacedThere | libgebr/geoxml/sequence.c:175-261 | a node placed after or before another is right there |
| Trees.PlacedLast | libgebr/geoxml/sequence.c:479-506 | a node moved into a group is its last |
| Trees.ToEdgeExactly | libgebr/geoxml/sequence.c:175-261 | a node moved to the start or the end leads or ends its own list, the others in their order |
| Trees.PlaceNextAfter | debr/debr-parameter.c:497-512 | placing one after another is placing all at once |
| Trees.PlaceWithout | libgebr/geoxml/sequence.c:175-261 | placing and taking away commute, so inserting the new row first and removing the old one later is a move |

## Left out

- Widgets, dialogs, signals, icons, sensitivity and selection state: an editor event names its rows.
- Sockets, SSH, mounting, and the text form of messages: a message is a value with its parts parsed,
  numbers and status words included, so a wrong number of parts is `Malformed`.
- Reference counts and memory, and NUL characters inside strings.
- What a state message says of a machine's processor, memory and automatic connection: stored, and
  not interpreted.
- Documents behind libgebr's functions: a revision or document loads or it does not, and lists in
  documents behave as lists. Group instances other than the template are not part of the editor.
- Snapshots.Flow.Remove: assumes that the children in the table are revisions of the flow other than
  the removed one, as in every table built from it; with others the program uses a null pointer. The
  result of an interior removal of a revision that is not the head's parent is unset in the program
  and free here.
- Maestro.GebrMaestroServer.ParseMessages: stops at undefined behaviour instead of going on, and of
  the message kinds that only reach the interface or other modules keeps `Other`. A `jcl` message only
  emits a signal.
- Connecting again: a bad message makes the program disconnect, and a new connection starts with an
  empty list of messages; in `Protocol.Turn` what was not handled stays pending until the next delivery.
  No result depends on it.
- Protocol.SubmitLosesNone: the counter is unbounded here and 32 bits wide in the program.
- Job.GebrJob.SetServers: shares of machines stay text; total processes and active servers are not
  modelled.
- Options.DumpLoadRoundTrip: a fresh record, arguments given as full `--name` or `--name=value`; no
  abbreviations, short options, overriding, help or version exits, and what `strtol` accepts whole is
  a parameter.
- ConfigFile.BuildArgv: include cycles, on which the program would not end, are excluded by a rank.
- JobControl.JobList.VisibleFunc: time buckets are given with the jobs; rows that C reads without
  filling are `Blank`.
- JobControl.NonSingleMessage: the list is set up with one header for each bucket, as the program
  sets it up; the message texts are not modelled.
- Help.HelpRefreshIdempotent: the copyright and parameter list blocks, and templates whose blocks
  overlap or come in pieces.
- Dictionary.OfferedIffNarrowest: keywords unique in each document, all three documents there.
- Dictionary.CopyFromDicts: one parameter at a time; the walk over groups is that of Paths.
- Paths.ModifyPaths: the functions are pure; a function that changes state between paths is not
  captured.
- MenuCleanup.CopyValues: lists are values here and the caller stores the result; aliasing of the two
  lists is not captured. The same holds for parameters and flows in Paths.
- Editor.ParameterEditor.Remove: where groups are nested, three selected levels are reduced as in
  copying; the program unselects one after another there. Which row is selected afterwards is not
  modelled.
- Dropping a row on itself is taken to do nothing in the tree view, as it does in the document.
- Saving, the date of documents, the document dialog, and the unsaved menu listing.
