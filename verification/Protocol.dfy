/**
 What the messages of a maestro do to a client, as values (gebr/gebr-maestro-server.c): the job
 tables and queue rows, the machines and groups, the message loop and whole sessions.
 */
module Protocol {
  import opened Strings
  import opened Job

  // ---------------------------------------------------------------- messages

  datatype Message =
    | JobDefine(id: string, tempId: string, servers: string, queue: string, status: Status,
                details: Details, origin: Origin, startDate: string, finishDate: string)
    | Issues(id: string, issues: string)
    | CmdLine(id: string, frac: int, cmd: string)
    | OutputOf(id: string, frac: int, text: string)
    | StatusChange(id: string, status: Status, parameter: string)
    | CloseJob(id: string)
    | AddGroups(address: string, tags: string)
    | ServerState(hostname: string, address: string, state: string, ncores: int)
    | ServerRemove(address: string)
    | MpiFlavors(address: string, flavors: string)
    | LoggedIn
    | Other
    | Malformed

  /** How handling a message ends: normally, at the err label, or by using a job or machine that is
      not there or a task out of range, where C promises nothing any more. */
  datatype Outcome = Fine | Bad | Undefined

  predicate AboutJob(m: Message) {
    m.JobDefine? || m.Issues? || m.CmdLine? || m.OutputOf? || m.StatusChange? || m.CloseJob?
  }

  /** A message that has the groups list derived anew. */
  predicate TellsGroups(m: Message) {
    m.AddGroups? || m.ServerState? || m.ServerRemove? || m.LoggedIn?
  }

  // ---------------------------------------------------------------- queue rows

  /** Rows by job id; None is the row "Immediately". */
  function WithoutId(rows: seq<Option<string>>, id: string): seq<Option<string>> {
    if rows == [] then [] else (if rows[0] == Some(id) then [] else [rows[0]]) + WithoutId(rows[1..], id)
  }

  function NextRows(rows: seq<Option<string>>, id: string, s: Status): seq<Option<string>> {
    if Stopped(s) then WithoutId(rows, id)
    else if Killable(s) && Some(id) !in rows then rows + [Some(id)] else rows
  }

  ghost predicate NoRepeats<T>(l: seq<T>) {
    forall i, j :: 0 <= i < j < |l| ==> l[i] != l[j]
  }

  ghost predicate ImmediatelyFirst(rows: seq<Option<string>>) {
    rows != [] && rows[0] == None && NoRepeats(rows)
  }

  lemma {:induction false} WithoutIdMembers(rows: seq<Option<string>>, id: string, x: Option<string>)
    ensures x in WithoutId(rows, id) <==> x in rows && x != Some(id)
  {
    if rows != [] {
      WithoutIdMembers(rows[1..], id, x);
      assert rows == [rows[0]] + rows[1..];
    }
  }

  lemma {:induction false} WithoutIdKeeps(rows: seq<Option<string>>, id: string)
    requires NoRepeats(rows)
    ensures NoRepeats(WithoutId(rows, id))
    ensures rows != [] && rows[0] == None ==> WithoutId(rows, id) != [] && WithoutId(rows, id)[0] == None
  {
    if rows != [] {
      WithoutIdKeeps(rows[1..], id);
      assert rows[0] !in rows[1..];
      WithoutIdMembers(rows[1..], id, rows[0]);
    }
  }

  /** The rows stay duplicate free behind Immediately; only the job's own membership changes, and it
      follows the status. */
  lemma NextRowsKeep(rows: seq<Option<string>>, id: string, s: Status)
    requires ImmediatelyFirst(rows)
    ensures ImmediatelyFirst(NextRows(rows, id, s))
    ensures !Stopped(s) ==> rows <= NextRows(rows, id, s)
    ensures Stopped(s) ==> forall k :: 0 <= k < |rows| && rows[k] == Some(id) ==>
      NextRows(rows, id, s) == rows[..k] + rows[k + 1..]
    ensures forall x :: x in NextRows(rows, id, s) <==>
      if x != Some(id) then x in rows
      else s !in {Finished, Failed, Canceled} && (s in {Queued, Running} || x in rows)
  {
    if Stopped(s) {
      WithoutIdKeeps(rows, id);
      forall x ensures x in NextRows(rows, id, s) <==> x in rows && x != Some(id) { WithoutIdMembers(rows, id, x); }
      forall k | 0 <= k < |rows| && rows[k] == Some(id) ensures WithoutId(rows, id) == rows[..k] + rows[k + 1..] {
        WithoutIdAt(rows, id, k);
      }
    }
  }

  lemma {:induction false} WithoutMissingId(rows: seq<Option<string>>, id: string)
    requires Some(id) !in rows
    ensures WithoutId(rows, id) == rows
  {
    if rows != [] {
      assert rows[0] in rows && forall x :: x in rows[1..] ==> x in rows;
      WithoutMissingId(rows[1..], id);
    }
  }

  lemma {:induction false} WithoutIdAt(rows: seq<Option<string>>, id: string, k: nat)
    requires k < |rows| && rows[k] == Some(id) && NoRepeats(rows)
    ensures WithoutId(rows, id) == rows[..k] + rows[k + 1..]
  {
    if k == 0 {
      assert Some(id) !in rows[1..];
      WithoutMissingId(rows[1..], id);
    } else {
      WithoutIdAt(rows[1..], id, k - 1);
      assert rows[..k] == [rows[0]] + rows[1..][..k - 1];
      assert rows[1..][k..] == rows[k + 1..];
    }
  }

  // ---------------------------------------------------------------- jobs

  datatype Board = Board(jobs: map<string, JobState>, temps: map<string, JobState>, queues: seq<Option<string>>)

  /** What a `job` message sets on a job however it was found. */
  function Refreshed(j: JobState, m: Message): JobState
    requires m.JobDefine?
  {
    Hearing(j, ServerList(m.servers)).(details := Some(m.details), status := m.status, queue := m.queue)
  }

  /** A job the client did not know, as when it connects while jobs are running. */
  function Arrived(m: Message): JobState
    requires m.JobDefine?
  {
    Refreshed(NewState(m.id, m.queue), m).(isFake := false, origin := Some(m.origin),
      startDate := if m.startDate != "" then Some(m.startDate) else None,
      finishDate := if m.finishDate != "" then Some(m.finishDate) else None)
  }

  /** The job a `job` message is about, as the message leaves it. */
  function Defined(b: Board, m: Message): JobState
    requires m.JobDefine?
  {
    if m.id in b.jobs then Refreshed(b.jobs[m.id], m)
    else if m.tempId in b.temps then Refreshed(Named(b.temps[m.tempId], m.id), m)
    else Arrived(m)
  }

  function Define(b: Board, m: Message): Board
    requires m.JobDefine?
  {
    Board(b.jobs[m.id := Defined(b, m)],
      if m.id !in b.jobs && m.tempId in b.temps then b.temps - {m.tempId} else b.temps,
      NextRows(b.queues, m.id, m.status))
  }

  /** What a message tells its job about tasks. */
  function WordOf(m: Message): Option<Word> {
    match m
    case JobDefine(_, _, servers, _, _, _, _, _, _) => Some(ServerList(servers))
    case OutputOf(_, frac, text) => if frac > 0 then Some(Text(frac - 1, text)) else None
    case CmdLine(_, frac, cmd) => if frac > 0 then Some(Command(frac - 1, cmd)) else None
    case _ => None
  }

  function Put(b: Board, id: string, j: JobState): Board {
    b.(jobs := b.jobs[id := j])
  }

  /** A message about a task, which must be there. */
  function TellTask(b: Board, id: string, frac: int, m: Message): (Board, Outcome) {
    if id in b.jobs && 0 < frac <= |b.jobs[id].tasks| && WordOf(m).Some?
    then (Put(b, id, Hearing(b.jobs[id], WordOf(m).value)), Fine)
    else (b, Undefined)
  }

  function NoteIssues(b: Board, id: string, issues: string): (Board, Outcome) {
    if id in b.jobs then (Put(b, id, b.jobs[id].(issues := Some(issues))), Fine) else (b, Undefined)
  }

  function ChangeStatus(b: Board, id: string, s: Status, date: string): (Board, Outcome) {
    if id in b.jobs then (Put(b, id, Dated(b.jobs[id], s, date)).(queues := NextRows(b.queues, id, s)), Fine)
    else (b, Undefined)
  }

  function OnJob(b: Board, m: Message): (Board, Outcome) {
    match m
    case JobDefine(_, _, _, _, _, _, _, _, _) => (Define(b, m), Fine)
    case Issues(id, issues) => NoteIssues(b, id, issues)
    case StatusChange(id, s, date) => ChangeStatus(b, id, s, date)
    case OutputOf(id, frac, _) => TellTask(b, id, frac, m)
    case CmdLine(id, frac, _) => TellTask(b, id, frac, m)
    case _ => (b, Fine)
  }

  /** The tables are keyed by run id, real jobs are no longer fake, and the queue rows are exactly
      right: known jobs, no stopped one, every live one, each once, behind Immediately. */
  ghost predicate BoardSound(b: Board) {
    && (forall id :: id in b.jobs ==> b.jobs[id].runId == id && !b.jobs[id].isFake)
    && (forall id :: id in b.temps ==> b.temps[id].runId == id)
    && ImmediatelyFirst(b.queues)
    && (forall id :: Some(id) in b.queues ==> id in b.jobs && b.jobs[id].status !in {Finished, Failed, Canceled})
    && (forall id :: id in b.jobs && b.jobs[id].status in {Queued, Running} ==> Some(id) in b.queues)
  }

  /** The rows of a sound board are what the status of any of its jobs demands. */
  lemma RowsSettled(b: Board, id: string)
    requires BoardSound(b) && id in b.jobs
    ensures NextRows(b.queues, id, b.jobs[id].status) == b.queues
  {
    if Stopped(b.jobs[id].status) { WithoutMissingId(b.queues, id); }
  }

  lemma PutSound(b: Board, j: JobState, temps: map<string, JobState>)
    requires BoardSound(b) && !j.isFake && (forall id :: id in temps ==> temps[id].runId == id)
    ensures BoardSound(Board(b.jobs[j.runId := j], temps, NextRows(b.queues, j.runId, j.status)))
  {
    NextRowsKeep(b.queues, j.runId, j.status);
  }

  lemma OnJobSound(b: Board, m: Message)
    requires AboutJob(m) && BoardSound(b)
    ensures BoardSound(OnJob(b, m).0)
  {
    hide ImmediatelyFirst, NextRows;
    var b' := OnJob(b, m).0;
    if m.JobDefine? {
      PutSound(b, Defined(b, m), b'.temps);
    } else if m.id in b.jobs && OnJob(b, m).1 == Fine && !m.CloseJob? {
      RowsSettled(b, m.id);
      PutSound(b, b'.jobs[m.id], b.temps);
    }
  }

  /** Real jobs never leave, and a task table that is not empty never changes its slots. */
  ghost predicate Extends(a: map<string, JobState>, b: map<string, JobState>) {
    forall id :: id in a ==> id in b && (a[id].tasks != [] ==> Slots(b[id].tasks) == Slots(a[id].tasks))
  }

  lemma OnJobExtends(b: Board, m: Message)
    requires AboutJob(m)
    ensures Extends(b.jobs, OnJob(b, m).0.jobs)
  {
  }

  lemma ExtendsTransitive(a: map<string, JobState>, b: map<string, JobState>, c: map<string, JobState>)
    requires Extends(a, b) && Extends(b, c)
    ensures Extends(a, c)
  {
    forall id | id in a && a[id].tasks != [] ensures Slots(c[id].tasks) == Slots(a[id].tasks) {
      assert |Slots(b[id].tasks)| == |Slots(a[id].tasks)|;
    }
  }

  /** Promotion moves a job; only a job not known at all makes one more. */
  lemma DefineConserves(b: Board, m: Message)
    requires m.JobDefine?
    ensures var b', known := Define(b, m), m.id in b.jobs || m.tempId in b.temps;
      |b'.jobs| + |b'.temps| == |b.jobs| + |b.temps| + if known then 0 else 1
  {
    hide NextRows, Defined;
    SetCount(b.jobs, m.id, Defined(b, m));
    DropCount(b.temps, m.tempId);
  }

  lemma SetCount<V>(a: map<string, V>, k: string, v: V)
    ensures |a[k := v]| == |a| + if k in a then 0 else 1
  {
    KeyCount(a);
    KeyCount(a[k := v]);
    assert a[k := v].Keys == a.Keys + {k};
  }

  lemma DropCount<V>(a: map<string, V>, k: string)
    ensures |a - {k}| == |a| - if k in a then 1 else 0
  {
    KeyCount(a);
    KeyCount(a - {k});
    assert (a - {k}).Keys == a.Keys - {k};
  }

  lemma {:induction false} KeyCount<V>(m: map<string, V>)
    ensures |m| == |m.Keys|
    decreases |m|
  {
    if k :| k in m {
      KeyCount(m - {k});
      assert (m - {k}).Keys == m.Keys - {k};
    }
  }

  // ---------------------------------------------------------------- what jobs have been told

  /** All that the messages tell job `id`, in the order they were handled. */
  function WordsTo(id: string, handled: seq<Message>): seq<Word> {
    if handled == [] then [] else
      var m := handled[|handled| - 1];
      WordsTo(id, handled[..|handled| - 1]) +
      if AboutJob(m) && m.id == id && WordOf(m).Some? then [WordOf(m).value] else []
  }

  /** The job heeded all the words and is as they left it. */
  ghost predicate IsAsTold(j: JobState, words: seq<Word>) {
    AllHeeded(words) && (j.tasks, j.serverList) == HearAll(words)
  }

  /** Each real job is what it has been told, whether it was submitted here or not; nobody else has
      been told anything. */
  ghost predicate HistoryOk(b: Board, handled: seq<Message>) {
    && (forall id :: id in b.jobs ==> IsAsTold(b.jobs[id], WordsTo(id, handled)))
    && (forall id :: id !in b.jobs ==> WordsTo(id, handled) == [])
    && (forall id :: id in b.temps ==> b.temps[id].tasks == [] && b.temps[id].serverList == None)
  }

  lemma WordsToSnoc(id: string, handled: seq<Message>, m: Message)
    ensures WordsTo(id, handled + [m]) == WordsTo(id, handled) +
      if AboutJob(m) && m.id == id && WordOf(m).Some? then [WordOf(m).value] else []
  {
    assert (handled + [m])[..|handled|] == handled;
  }

  lemma HearsOne(j: JobState, words: seq<Word>, w: Word)
    requires IsAsTold(j, words) && Heeds(j.tasks, w)
    ensures IsAsTold(Hearing(j, w), words + [w])
  {
    OneMoreWord(words, w, 0);
  }

  lemma OnJobHistory(b: Board, m: Message, handled: seq<Message>)
    requires AboutJob(m) && HistoryOk(b, handled) && OnJob(b, m).1 == Fine
    ensures HistoryOk(OnJob(b, m).0, handled + [m])
  {
    hide Hear, HearAll, AllHeeded, WordsTo, NextRows;
    var b' := OnJob(b, m).0;
    forall id
      ensures id in b'.jobs ==> IsAsTold(b'.jobs[id], WordsTo(id, handled + [m]))
      ensures id !in b'.jobs ==> WordsTo(id, handled + [m]) == []
    {
      WordsToSnoc(id, handled, m);
      assert WordsTo(id, handled) + [] == WordsTo(id, handled);
      if m.id == id { MessageHeard(b, m, handled); }
    }
  }

  lemma SameTasks(j: JobState, k: JobState, words: seq<Word>)
    requires IsAsTold(j, words) && k.tasks == j.tasks && k.serverList == j.serverList
    ensures IsAsTold(k, words)
  {
  }

  lemma DefineHeard(b: Board, m: Message, handled: seq<Message>)
    requires m.JobDefine? && HistoryOk(b, handled)
    ensures IsAsTold(Defined(b, m), WordsTo(m.id, handled) + [ServerList(m.servers)])
  {
    var words, w := WordsTo(m.id, handled), ServerList(m.servers);
    var j := if m.id in b.jobs then b.jobs[m.id] else NewState(m.id, m.queue);
    if m.id !in b.jobs { assert IsAsTold(j, words); }
    HearsOne(j, words, w);
    hide Hear, HearAll, AllHeeded, IsAsTold;
    SameTasks(Hearing(j, w), Defined(b, m), words + [w]);
  }

  lemma MessageHeard(b: Board, m: Message, handled: seq<Message>)
    requires AboutJob(m) && HistoryOk(b, handled) && OnJob(b, m).1 == Fine
    ensures m.id in OnJob(b, m).0.jobs ==> IsAsTold(OnJob(b, m).0.jobs[m.id], WordsTo(m.id, handled + [m]))
    ensures m.id !in OnJob(b, m).0.jobs ==> WordsTo(m.id, handled + [m]) == []
  {
    hide Hear, HearAll, AllHeeded, IsAsTold, WordsTo, NextRows;
    var words := WordsTo(m.id, handled);
    WordsToSnoc(m.id, handled, m);
    assert words + [] == words;
    match m
    case JobDefine(_, _, _, _, _, _, _, _, _) => DefineHeard(b, m, handled);
    case OutputOf(id, _, _) => HearsOne(b.jobs[id], words, WordOf(m).value);
    case CmdLine(id, _, _) => HearsOne(b.jobs[id], words, WordOf(m).value);
    case Issues(id, issues) => SameTasks(b.jobs[id], b.jobs[id].(issues := Some(issues)), words);
    case StatusChange(id, s, date) => SameTasks(b.jobs[id], Dated(b.jobs[id], s, date), words);
    case CloseJob(_) =>
  }

  lemma OtherHistory(b: Board, m: Message, handled: seq<Message>)
    requires !AboutJob(m) && HistoryOk(b, handled)
    ensures HistoryOk(b, handled + [m])
  {
    forall id ensures WordsTo(id, handled + [m]) == WordsTo(id, handled) {
      WordsToSnoc(id, handled, m);
      assert WordsTo(id, handled) + [] == WordsTo(id, handled);
    }
  }

  // ---------------------------------------------------------------- what messages say of a job itself

  /** The first and the last `job` message about the job. */
  function FirstDefine(id: string, handled: seq<Message>): (r: Option<Message>)
    ensures r.Some? ==> r.value.JobDefine? && r.value.id == id && r.value in handled
  {
    if handled == [] then None else
      var m, before := handled[|handled| - 1], FirstDefine(id, handled[..|handled| - 1]);
      if before.None? && m.JobDefine? && m.id == id then Some(m) else before
  }

  function LastDefine(id: string, handled: seq<Message>): (r: Option<Message>)
    ensures r.Some? ==> r.value.JobDefine? && r.value.id == id && r.value in handled
  {
    if handled == [] then None else
      var m := handled[|handled| - 1];
      if m.JobDefine? && m.id == id then Some(m) else LastDefine(id, handled[..|handled| - 1])
  }

  /** The status in the last `job` or `sta` message about it. */
  function LastStatus(id: string, handled: seq<Message>): Option<Status> {
    if handled == [] then None else
      var m := handled[|handled| - 1];
      if (m.JobDefine? || m.StatusChange?) && m.id == id then Some(m.status)
      else LastStatus(id, handled[..|handled| - 1])
  }

  /** The moment that came with the last `sta` message of one of the kinds. */
  function LastMoment(id: string, kinds: set<Status>, handled: seq<Message>): Option<string> {
    if handled == [] then None else
      var m := handled[|handled| - 1];
      if m.StatusChange? && m.id == id && m.status in kinds then Some(m.parameter)
      else LastMoment(id, kinds, handled[..|handled| - 1])
  }

  function LastIssues(id: string, handled: seq<Message>): Option<string> {
    if handled == [] then None else
      var m := handled[|handled| - 1];
      if m.Issues? && m.id == id then Some(m.issues) else LastIssues(id, handled[..|handled| - 1])
  }

  /** A moment as the messages call for it: that of the last status change of the kinds, else the one
      an arriving job came with. */
  function Moment(id: string, kinds: set<Status>, first: string, arrived: bool, handled: seq<Message>): Option<string> {
    var last := LastMoment(id, kinds, handled);
    if last.Some? then last else if arrived && first != "" then Some(first) else None
  }

  /** The job is what the messages say it is: queue and details from the last `job` message, status
      from the last message that has one, moments from those that have one. A job that was not
      submitted here has its origin from the first `job` message. */
  ghost predicate IsAsSaid(j: JobState, id: string, handled: seq<Message>) {
    var first, last := FirstDefine(id, handled), LastDefine(id, handled);
    && first.Some? && last.Some?
    && Some(j.status) == LastStatus(id, handled)
    && j.queue == last.value.queue && j.details == Some(last.value.details)
    && j.issues == LastIssues(id, handled)
    && (j.origin.Some? ==> j.origin == Some(first.value.origin))
    && j.startDate == Moment(id, {Running}, first.value.startDate, j.origin.Some?, handled)
    && j.finishDate ==
       Moment(id, {Running, Finished, Failed, Canceled}, first.value.finishDate, j.origin.Some?, handled)
  }

  /** Nothing has been said about the job. */
  ghost predicate Unspoken(id: string, handled: seq<Message>) {
    FirstDefine(id, handled).None? && LastDefine(id, handled).None? && LastStatus(id, handled).None? &&
    LastIssues(id, handled).None? && forall kinds :: LastMoment(id, kinds, handled).None?
  }

  /** Each real job is what has been said of it, nobody else has been spoken of, and a submitted job
      has nothing but its queue until it is promoted. */
  ghost predicate SaidOk(b: Board, handled: seq<Message>) {
    && (forall id :: id in b.jobs ==> IsAsSaid(b.jobs[id], id, handled))
    && (forall id :: id !in b.jobs ==> Unspoken(id, handled))
    && (forall id :: id in b.temps ==>
          b.temps[id] == JobState(id, Initial, b.temps[id].queue, true, [], None, None, None, None, None, None))
  }

  lemma OneMoreSaid(id: string, kinds: set<Status>, handled: seq<Message>, m: Message)
    ensures var more, mine := handled + [m], (AboutJob(m) && m.id == id);
      && FirstDefine(id, more) == (if FirstDefine(id, handled).None? && m.JobDefine? && mine then Some(m)
                                   else FirstDefine(id, handled))
      && LastDefine(id, more) == (if m.JobDefine? && mine then Some(m) else LastDefine(id, handled))
      && LastStatus(id, more) == (if (m.JobDefine? || m.StatusChange?) && mine then Some(m.status)
                                  else LastStatus(id, handled))
      && LastMoment(id, kinds, more) == (if m.StatusChange? && mine && m.status in kinds then Some(m.parameter)
                                         else LastMoment(id, kinds, handled))
      && LastIssues(id, more) == (if m.Issues? && mine then Some(m.issues) else LastIssues(id, handled))
  {
    assert (handled + [m])[..|handled|] == handled;
  }

  /** A message that is not about the job says nothing of it, nor do output and command lines. */
  lemma NothingNew(j: JobState, id: string, handled: seq<Message>, m: Message)
    requires !AboutJob(m) || m.id != id || m.OutputOf? || m.CmdLine? || m.CloseJob?
    ensures IsAsSaid(j, id, handled) ==> IsAsSaid(j, id, handled + [m])
    ensures Unspoken(id, handled) ==> Unspoken(id, handled + [m])
  {
    hide FirstDefine, LastDefine, LastStatus, LastMoment, LastIssues;
    forall kinds: set<Status> ensures LastMoment(id, kinds, handled + [m]) == LastMoment(id, kinds, handled) {
      OneMoreSaid(id, kinds, handled, m);
    }
    OneMoreSaid(id, {}, handled, m);
  }

  /** Tasks and server list are not among what is said. */
  lemma TasksUnsaid(j: JobState, k: JobState, id: string, handled: seq<Message>)
    requires IsAsSaid(j, id, handled) && k == j.(tasks := k.tasks, serverList := k.serverList)
    ensures IsAsSaid(k, id, handled)
  {
  }

  lemma DefineSaid(b: Board, m: Message, handled: seq<Message>)
    requires m.JobDefine? && SaidOk(b, handled)
    ensures IsAsSaid(Defined(b, m), m.id, handled + [m])
  {
    hide FirstDefine, LastDefine, LastStatus, LastMoment, LastIssues, Hear;
    OneMoreSaid(m.id, {Running}, handled, m);
    OneMoreSaid(m.id, {Running, Finished, Failed, Canceled}, handled, m);
  }

  lemma StatusSaid(j: JobState, m: Message, handled: seq<Message>)
    requires m.StatusChange? && IsAsSaid(j, m.id, handled)
    ensures IsAsSaid(Dated(j, m.status, m.parameter), m.id, handled + [m])
  {
    hide FirstDefine, LastDefine, LastStatus, LastMoment, LastIssues;
    OneMoreSaid(m.id, {Running}, handled, m);
    OneMoreSaid(m.id, {Running, Finished, Failed, Canceled}, handled, m);
  }

  lemma IssuesSaid(j: JobState, m: Message, handled: seq<Message>)
    requires m.Issues? && IsAsSaid(j, m.id, handled)
    ensures IsAsSaid(j.(issues := Some(m.issues)), m.id, handled + [m])
  {
    hide FirstDefine, LastDefine, LastStatus, LastMoment, LastIssues;
    OneMoreSaid(m.id, {Running}, handled, m);
    OneMoreSaid(m.id, {Running, Finished, Failed, Canceled}, handled, m);
  }

  lemma MessageSaid(b: Board, m: Message, handled: seq<Message>)
    requires AboutJob(m) && SaidOk(b, handled) && OnJob(b, m).1 == Fine
    ensures m.id in OnJob(b, m).0.jobs ==> IsAsSaid(OnJob(b, m).0.jobs[m.id], m.id, handled + [m])
    ensures m.id !in OnJob(b, m).0.jobs ==> Unspoken(m.id, handled + [m])
  {
    hide IsAsSaid, Unspoken, NextRows, Hear;
    match m
    case JobDefine(_, _, _, _, _, _, _, _, _) => DefineSaid(b, m, handled);
    case StatusChange(id, s, date) => StatusSaid(b.jobs[id], m, handled);
    case Issues(id, issues) => IssuesSaid(b.jobs[id], m, handled);
    case CloseJob(id) => NothingNew(if id in b.jobs then b.jobs[id] else NewState(id, ""), id, handled, m);
    case OutputOf(id, _, _) => TaskSaid(b, m, handled);
    case CmdLine(id, _, _) => TaskSaid(b, m, handled);
  }

  lemma TaskSaid(b: Board, m: Message, handled: seq<Message>)
    requires (m.OutputOf? || m.CmdLine?) && SaidOk(b, handled) && OnJob(b, m).1 == Fine
    ensures m.id in OnJob(b, m).0.jobs && IsAsSaid(OnJob(b, m).0.jobs[m.id], m.id, handled + [m])
  {
    hide IsAsSaid, Unspoken, Hear;
    var k := OnJob(b, m).0.jobs[m.id];
    TasksUnsaid(b.jobs[m.id], k, m.id, handled);
    NothingNew(k, m.id, handled, m);
  }

  lemma OnJobSaid(b: Board, m: Message, handled: seq<Message>)
    requires AboutJob(m) && SaidOk(b, handled) && OnJob(b, m).1 == Fine
    ensures SaidOk(OnJob(b, m).0, handled + [m])
  {
    hide IsAsSaid, Unspoken, NextRows, Defined, Hear;
    var b' := OnJob(b, m).0;
    MessageSaid(b, m, handled);
    forall id | id != m.id
      ensures id in b'.jobs ==> IsAsSaid(b'.jobs[id], id, handled + [m])
      ensures id !in b'.jobs ==> Unspoken(id, handled + [m])
    {
      NothingNew(if id in b.jobs then b.jobs[id] else NewState(id, ""), id, handled, m);
    }
  }

  lemma OtherSaid(b: Board, m: Message, handled: seq<Message>)
    requires !AboutJob(m) && SaidOk(b, handled)
    ensures SaidOk(b, handled + [m])
  {
    hide IsAsSaid, Unspoken;
    forall id
      ensures id in b.jobs ==> IsAsSaid(b.jobs[id], id, handled + [m])
      ensures id !in b.jobs ==> Unspoken(id, handled + [m])
    {
      NothingNew(if id in b.jobs then b.jobs[id] else NewState(id, ""), id, handled, m);
    }
  }

  /** What a first `job` message makes of a job: one submitted here is promoted, with nothing known of
      where it came from; any other has just arrived. */
  lemma FirstHeard(b: Board, m: Message, handled: seq<Message>)
    requires m.JobDefine? && m.id !in b.jobs && SaidOk(b, handled)
    ensures var b' := OnJob(b, m).0;
      && m.id in b'.jobs && b'.temps == b.temps - {m.tempId}
      && b'.jobs[m.id].origin == (if m.tempId in b.temps then None else Some(m.origin))
      && b'.jobs[m.id].runId == m.id && !b'.jobs[m.id].isFake
      && forall id :: id != m.id ==> (id in b'.jobs <==> id in b.jobs) && (id in b.jobs ==> b'.jobs[id] == b.jobs[id])
  {
  }

  // ---------------------------------------------------------------- machines and groups

  datatype Machine = Machine(address: string, hostname: string, state: string, tags: seq<string>, ncores: int,
    mpiFlavors: Option<string>)

  datatype GroupRow = GroupName(name: string) | DaemonName(name: string, host: string)

  datatype Roster = Roster(machines: seq<Machine>, groups: seq<GroupRow>, announced: bool)

  /** The first machine with the address, or -1. */
  function Position(ms: seq<Machine>, address: string): (k: int)
    ensures -1 <= k < |ms|
    ensures k >= 0 ==> ms[k].address == address && forall i :: 0 <= i < k ==> ms[i].address != address
    ensures k == -1 <==> forall i :: 0 <= i < |ms| ==> ms[i].address != address
  {
    if ms == [] then -1 else if ms[0].address == address then 0 else
      var k := Position(ms[1..], address);
      assert ms == [ms[0]] + ms[1..];
      if k == -1 then -1 else k + 1
  }

  function WithoutAddress(ms: seq<Machine>, address: string): seq<Machine> {
    if ms == [] then [] else (if ms[0].address == address then [] else [ms[0]]) + WithoutAddress(ms[1..], address)
  }

  ghost predicate DistinctAddresses(ms: seq<Machine>) {
    forall i, j :: 0 <= i < j < |ms| ==> ms[i].address != ms[j].address
  }

  /** What is left is what does not have the address, and addresses stay distinct. */
  lemma {:induction false} WithoutAddressKeeps(ms: seq<Machine>, address: string)
    ensures forall x :: x in WithoutAddress(ms, address) <==> x in ms && x.address != address
    ensures DistinctAddresses(ms) ==> DistinctAddresses(WithoutAddress(ms, address))
  {
    if ms != [] {
      var rest := WithoutAddress(ms[1..], address);
      WithoutAddressKeeps(ms[1..], address);
      assert ms == [ms[0]] + ms[1..];
      if DistinctAddresses(ms) {
        forall x | x in rest ensures x.address != ms[0].address {
          var i :| 0 <= i < |ms[1..]| && ms[1..][i] == x;
          assert ms[i + 1] == x;
        }
      }
    }
  }

  lemma {:induction false} WithoutMissingAddress(ms: seq<Machine>, address: string)
    requires forall i :: 0 <= i < |ms| ==> ms[i].address != address
    ensures WithoutAddress(ms, address) == ms
  {
    if ms != [] { WithoutMissingAddress(ms[1..], address); }
  }

  /** The others keep their order. */
  lemma {:induction false} WithoutAddressAt(ms: seq<Machine>, address: string, k: nat)
    requires k < |ms| && ms[k].address == address && DistinctAddresses(ms)
    ensures WithoutAddress(ms, address) == ms[..k] + ms[k + 1..]
  {
    if k == 0 {
      WithoutMissingAddress(ms[1..], address);
    } else {
      WithoutAddressAt(ms[1..], address, k - 1);
      assert ms[..k] == [ms[0]] + ms[1..][..k - 1];
      assert ms[1..][k..] == ms[k + 1..];
    }
  }

  /** The tags carried by the machines, the autochoose entry apart. */
  function TagSet(ms: seq<Machine>): set<string> {
    set d, t | d in ms && d.address != "" && t in d.tags :: t
  }

  function InsertAll(l: seq<string>, xs: seq<string>): (r: seq<string>)
    requires Ascending(l)
    ensures Ascending(r) && Members(r) == Members(l) + Members(xs)
  {
    if xs == [] then l else
      var r := Insert(InsertAll(l, xs[..|xs| - 1]), xs[|xs| - 1]);
      assert xs == xs[..|xs| - 1] + [xs[|xs| - 1]];
      r
  }

  /** The sorted tree the tags are collected in. */
  function TagTree(ms: seq<Machine>): (r: seq<string>)
    ensures Ascending(r) && Members(r) == TagSet(ms)
  {
    if ms == [] then [] else
      var before, d := ms[..|ms| - 1], ms[|ms| - 1];
      TagSetSnoc(before, d);
      assert ms == before + [d];
      if d.address == "" then TagTree(before) else InsertAll(TagTree(before), d.tags)
  }

  lemma TagSetSnoc(ms: seq<Machine>, d: Machine)
    ensures TagSet(ms + [d]) == TagSet(ms) + if d.address == "" then {} else Members(d.tags)
  {
  }

  function TagRows(tags: seq<string>): (r: seq<GroupRow>)
    ensures |r| == |tags| && forall i :: 0 <= i < |r| ==> r[i] == GroupName(tags[i])
  {
    seq(|tags|, i requires 0 <= i < |tags| => GroupName(tags[i]))
  }

  function MachineRows(ms: seq<Machine>): seq<GroupRow> {
    if ms == [] then [] else
      (if ms[0].address == "" then [] else [DaemonName(ms[0].address, ms[0].hostname)]) + MachineRows(ms[1..])
  }

  function GroupsOf(ms: seq<Machine>): seq<GroupRow> {
    [GroupName("")] + TagRows(Reverse(TagTree(ms))) + MachineRows(ms)
  }

  /** The groups list the machines call for: the group of all, each tag once in descending order,
      and the machines themselves. */
  ghost predicate DerivedFrom(groups: seq<GroupRow>, ms: seq<Machine>) {
    exists tags :: Descending(tags) && Members(tags) == TagSet(ms) &&
      groups == [GroupName("")] + TagRows(tags) + MachineRows(ms)
  }

  lemma ReverseMembers(l: seq<string>)
    ensures Members(Reverse(l)) == Members(l)
    ensures Ascending(l) ==> Descending(Reverse(l))
  {
    forall x ensures x in Reverse(l) <==> x in l {
      if x in l { var i :| 0 <= i < |l| && l[i] == x; assert Reverse(l)[|l| - 1 - i] == x; }
    }
  }

  /** The groups list is that one, and there is no other. */
  lemma GroupsAreDerived(ms: seq<Machine>, groups: seq<GroupRow>)
    ensures groups == GroupsOf(ms) <==> DerivedFrom(groups, ms)
  {
    var tags := Reverse(TagTree(ms));
    ReverseMembers(TagTree(ms));
    if DerivedFrom(groups, ms) {
      var s :| Descending(s) && Members(s) == TagSet(ms) && groups == [GroupName("")] + TagRows(s) + MachineRows(ms);
      DescendingUnique(s, tags);
    }
  }

  function Announce(ms: seq<Machine>): Roster {
    Roster(ms, GroupsOf(ms), true)
  }

  function TagMachine(r: Roster, address: string, tags: string): (Roster, Outcome) {
    var k := Position(r.machines, address);
    if k == -1 then (r, Undefined)
    else (Announce(r.machines[k := r.machines[k].(tags := Reverse(Split(tags, ',')))]), Fine)
  }

  function NoteMachine(r: Roster, hostname: string, address: string, state: string, ncores: int): Roster {
    var k := Position(r.machines, address);
    if k == -1 then Announce([Machine(address, hostname, state, [], ncores, None)] + r.machines)
    else Announce(r.machines[k := r.machines[k].(state := state, hostname := hostname, ncores := ncores)])
  }

  function NoteFlavors(r: Roster, address: string, flavors: string): (Roster, Outcome) {
    var k := Position(r.machines, address);
    if k == -1 then (Announce(r.machines), Bad)
    else (r.(machines := r.machines[k := r.machines[k].(mpiFlavors := Some(flavors))]), Fine)
  }

  function OnMachine(r: Roster, m: Message): (Roster, Outcome) {
    match m
    case AddGroups(address, tags) => TagMachine(r, address, tags)
    case ServerState(hostname, address, state, ncores) => (NoteMachine(r, hostname, address, state, ncores), Fine)
    case ServerRemove(address) => (Announce(WithoutAddress(r.machines, address)), Fine)
    case MpiFlavors(address, flavors) => NoteFlavors(r, address, flavors)
    case LoggedIn => (Announce(r.machines), Fine)
    case Malformed => (Announce(r.machines), Bad)
    case _ => (r, Fine)
  }

  /** Addresses are distinct, and once derived the groups list follows the machines. */
  ghost predicate RosterSound(r: Roster) {
    DistinctAddresses(r.machines) && (r.announced ==> r.groups == GroupsOf(r.machines))
  }

  lemma {:induction false} FlavorsInNoRow(ms: seq<Machine>, k: nat, flavors: Option<string>)
    requires k < |ms|
    ensures MachineRows(ms[k := ms[k].(mpiFlavors := flavors)]) == MachineRows(ms)
    decreases |ms|
  {
    var ms' := ms[k := ms[k].(mpiFlavors := flavors)];
    if k == 0 {
      assert ms'[1..] == ms[1..];
    } else {
      assert ms'[1..] == ms[1..][k - 1 := ms[1..][k - 1].(mpiFlavors := flavors)];
      FlavorsInNoRow(ms[1..], k - 1, flavors);
    }
  }

  lemma FlavorsInNoGroup(ms: seq<Machine>, k: nat, flavors: Option<string>)
    requires k < |ms|
    ensures GroupsOf(ms[k := ms[k].(mpiFlavors := flavors)]) == GroupsOf(ms)
  {
    var ms' := ms[k := ms[k].(mpiFlavors := flavors)];
    FlavorsInNoRow(ms, k, flavors);
    forall t ensures t in TagSet(ms') <==> t in TagSet(ms) {
      if t in TagSet(ms) { var i :| 0 <= i < |ms| && ms[i].address != "" && t in ms[i].tags; assert ms'[i] in ms'; }
      if t in TagSet(ms') { var i :| 0 <= i < |ms| && ms'[i].address != "" && t in ms'[i].tags; assert ms[i] in ms; }
    }
    GroupsAreDerived(ms, GroupsOf(ms));
    GroupsAreDerived(ms', GroupsOf(ms));
  }

  /** A machine not heard of comes before all others, which stay as they are; what is said of a known
      one moves nobody and changes nobody else. */
  lemma OthersStay(r: Roster, m: Message)
    requires m.ServerState? || m.AddGroups? || m.MpiFlavors?
    ensures var ms, ms', k := r.machines, OnMachine(r, m).0.machines, Position(r.machines, m.address);
      if k != -1 then
        |ms'| == |ms| && ms'[k].address == m.address && forall i :: 0 <= i < |ms| && i != k ==> ms'[i] == ms[i]
      else if m.ServerState? then ms' != [] && ms'[0].address == m.address && ms'[1..] == ms
      else ms' == ms
  {
    hide GroupsOf, Reverse, Split, Position;
  }

  lemma OnMachineSound(r: Roster, m: Message)
    requires !AboutJob(m) && RosterSound(r)
    ensures RosterSound(OnMachine(r, m).0)
    ensures OnMachine(r, m).1 == Undefined ==> OnMachine(r, m).0 == r
    ensures r.announced || TellsGroups(m) || OnMachine(r, m).1 == Bad ==>
      OnMachine(r, m).0.announced || OnMachine(r, m).1 == Undefined
  {
    hide GroupsOf, Split, Reverse, Position, WithoutAddress;
    match m
    case ServerRemove(address) => WithoutAddressKeeps(r.machines, address);
    case MpiFlavors(address, flavors) =>
      var k := Position(r.machines, address);
      if k != -1 { FlavorsInNoGroup(r.machines, k, Some(flavors)); }
    case _ =>
  }

  // ---------------------------------------------------------------- what messages say of a machine

  /** The last state message about the machine, since it was removed if it was. */
  function StateSaid(address: string, handled: seq<Message>): (r: Option<Message>)
    ensures r.Some? ==> r.value.ServerState? && r.value.address == address
  {
    if handled == [] then None else
      var m := handled[|handled| - 1];
      if m.ServerState? && m.address == address then Some(m)
      else if m == ServerRemove(address) then None
      else StateSaid(address, handled[..|handled| - 1])
  }

  /** The last groups told to it since then. */
  function TagsSaid(address: string, handled: seq<Message>): Option<string> {
    if handled == [] then None else
      var m := handled[|handled| - 1];
      if m.AddGroups? && m.address == address then Some(m.tags)
      else if m == ServerRemove(address) then None
      else TagsSaid(address, handled[..|handled| - 1])
  }

  /** The last flavors told to it since then. */
  function FlavorsSaid(address: string, handled: seq<Message>): Option<string> {
    if handled == [] then None else
      var m := handled[|handled| - 1];
      if m.MpiFlavors? && m.address == address then Some(m.flavors)
      else if m == ServerRemove(address) then None
      else FlavorsSaid(address, handled[..|handled| - 1])
  }

  /** The machine is what has been said of it: its groups backwards, its state, name and cores, and
      its flavors. The autochoose entry is there from the start. */
  ghost predicate MachineAsSaid(d: Machine, handled: seq<Message>) {
    var state, tags := StateSaid(d.address, handled), TagsSaid(d.address, handled);
    && d.tags == (if tags.Some? then Reverse(Split(tags.value, ',')) else [])
    && d.mpiFlavors == FlavorsSaid(d.address, handled)
    && if state.Some? then
         d.state == state.value.state && d.hostname == state.value.hostname && d.ncores == state.value.ncores
       else d.address == "" && d.state == "logged" && d.hostname == "" && d.ncores == 0
  }

  /** The machines are those heard of and not removed since, each as has been said of it. */
  ghost predicate MachinesSaid(ms: seq<Machine>, handled: seq<Message>) {
    && (forall i :: 0 <= i < |ms| ==> MachineAsSaid(ms[i], handled))
    && (forall a :: Position(ms, a) != -1 <==>
          StateSaid(a, handled).Some? || (a == "" && ServerRemove("") !in handled))
    && (forall a :: Position(ms, a) == -1 ==> TagsSaid(a, handled).None? && FlavorsSaid(a, handled).None?)
  }

  lemma OneMoreSaidOf(a: string, handled: seq<Message>, m: Message)
    ensures var more := handled + [m];
      && StateSaid(a, more) == (if m.ServerState? && m.address == a then Some(m)
                                else if m == ServerRemove(a) then None else StateSaid(a, handled))
      && TagsSaid(a, more) == (if m.AddGroups? && m.address == a then Some(m.tags)
                               else if m == ServerRemove(a) then None else TagsSaid(a, handled))
      && FlavorsSaid(a, more) == (if m.MpiFlavors? && m.address == a then Some(m.flavors)
                                  else if m == ServerRemove(a) then None else FlavorsSaid(a, handled))
      && (ServerRemove("") in more <==> ServerRemove("") in handled || m == ServerRemove(""))
  {
    assert (handled + [m])[..|handled|] == handled;
  }

  /** A message that says nothing of the machine. */
  lemma OtherMachine(a: string, handled: seq<Message>, m: Message)
    requires !(m.AddGroups? || m.ServerState? || m.ServerRemove? || m.MpiFlavors?) || m.address != a
    ensures StateSaid(a, handled + [m]) == StateSaid(a, handled)
    ensures TagsSaid(a, handled + [m]) == TagsSaid(a, handled)
    ensures FlavorsSaid(a, handled + [m]) == FlavorsSaid(a, handled)
  {
    OneMoreSaidOf(a, handled, m);
  }

  lemma NothingSaid(ms: seq<Machine>, m: Message, handled: seq<Message>)
    requires !(m.AddGroups? || m.ServerState? || m.ServerRemove? || m.MpiFlavors?) && MachinesSaid(ms, handled)
    ensures MachinesSaid(ms, handled + [m])
  {
    hide StateSaid, TagsSaid, FlavorsSaid, Split, Position;
    assert ServerRemove("") in handled + [m] <==> ServerRemove("") in handled;
    forall a
      ensures StateSaid(a, handled + [m]) == StateSaid(a, handled)
      ensures TagsSaid(a, handled + [m]) == TagsSaid(a, handled)
      ensures FlavorsSaid(a, handled + [m]) == FlavorsSaid(a, handled)
    {
      OtherMachine(a, handled, m);
    }
  }

  /** What is said of one machine that is there, and stays, leaves the others as they were. */
  lemma OneSaid(ms: seq<Machine>, k: nat, d: Machine, m: Message, handled: seq<Message>)
    requires DistinctAddresses(ms) && MachinesSaid(ms, handled) && k < |ms| && d.address == ms[k].address
    requires (m.AddGroups? || m.ServerState? || m.MpiFlavors?) && m.address == d.address
    requires MachineAsSaid(d, handled + [m])
    ensures MachinesSaid(ms[k := d], handled + [m])
  {
    hide StateSaid, TagsSaid, FlavorsSaid, Split, MachineAsSaid;
    var ms' := ms[k := d];
    forall i | 0 <= i < |ms| && i != k ensures MachineAsSaid(ms[i], handled + [m]) {
      OtherMachineSaid(ms[i], m, handled);
    }
    forall a
      ensures Position(ms', a) != -1 <==> Position(ms, a) != -1
      ensures Position(ms', a) != -1 <==>
              StateSaid(a, handled + [m]).Some? || (a == "" && ServerRemove("") !in handled + [m])
      ensures Position(ms', a) == -1 ==> TagsSaid(a, handled + [m]).None? && FlavorsSaid(a, handled + [m]).None?
    {
      assert forall i :: 0 <= i < |ms| ==> ms'[i].address == ms[i].address;
      OneMoreSaidOf(a, handled, m);
    }
  }

  lemma OtherMachineSaid(d: Machine, m: Message, handled: seq<Message>)
    requires MachineAsSaid(d, handled)
    requires (m.AddGroups? || m.ServerState? || m.ServerRemove? || m.MpiFlavors?) && m.address != d.address
    ensures MachineAsSaid(d, handled + [m])
  {
    OtherMachine(d.address, handled, m);
  }

  lemma CameSaid(ms: seq<Machine>, m: Message, handled: seq<Message>)
    requires MachinesSaid(ms, handled) && m.ServerState? && Position(ms, m.address) == -1
    ensures MachinesSaid([Machine(m.address, m.hostname, m.state, [], m.ncores, None)] + ms, handled + [m])
  {
    hide StateSaid, TagsSaid, FlavorsSaid, Split, MachineAsSaid;
    var d := Machine(m.address, m.hostname, m.state, [], m.ncores, None);
    var ms' := [d] + ms;
    NewMachineSaid(d, ms, m, handled);
    forall i | 1 <= i < |ms'| ensures MachineAsSaid(ms'[i], handled + [m]) {
      OtherMachineSaid(ms[i - 1], m, handled);
    }
    forall a
      ensures Position(ms', a) != -1 <==> Position(ms, a) != -1 || a == m.address
      ensures Position(ms', a) != -1 <==>
              StateSaid(a, handled + [m]).Some? || (a == "" && ServerRemove("") !in handled + [m])
      ensures Position(ms', a) == -1 ==> TagsSaid(a, handled + [m]).None? && FlavorsSaid(a, handled + [m]).None?
    {
      assert ms'[0].address == m.address && forall i :: 0 <= i < |ms| ==> ms'[i + 1] == ms[i];
      OneMoreSaidOf(a, handled, m);
    }
  }

  lemma NewMachineSaid(d: Machine, ms: seq<Machine>, m: Message, handled: seq<Message>)
    requires MachinesSaid(ms, handled) && m.ServerState? && Position(ms, m.address) == -1
    requires d == Machine(m.address, m.hostname, m.state, [], m.ncores, None)
    ensures MachineAsSaid(d, handled + [m])
  {
    hide StateSaid, TagsSaid, FlavorsSaid, Position;
    OneMoreSaidOf(m.address, handled, m);
  }

  lemma WentSaid(ms: seq<Machine>, address: string, handled: seq<Message>)
    requires MachinesSaid(ms, handled)
    ensures MachinesSaid(WithoutAddress(ms, address), handled + [ServerRemove(address)])
  {
    hide StateSaid, TagsSaid, FlavorsSaid, Split, MachineAsSaid, WithoutAddress;
    var ms', m := WithoutAddress(ms, address), ServerRemove(address);
    WithoutAddressKeeps(ms, address);
    forall i | 0 <= i < |ms'| ensures MachineAsSaid(ms'[i], handled + [m]) {
      assert ms'[i] in ms';
      OtherMachineSaid(ms'[i], m, handled);
    }
    forall a
      ensures Position(ms', a) != -1 <==> Position(ms, a) != -1 && a != address
      ensures Position(ms', a) != -1 <==>
              StateSaid(a, handled + [m]).Some? || (a == "" && ServerRemove("") !in handled + [m])
      ensures Position(ms', a) == -1 ==> TagsSaid(a, handled + [m]).None? && FlavorsSaid(a, handled + [m]).None?
    {
      LeftAt(ms, address, a);
      OneMoreSaidOf(a, handled, m);
    }
  }

  lemma LeftAt(ms: seq<Machine>, address: string, a: string)
    ensures Position(WithoutAddress(ms, address), a) != -1 <==> Position(ms, a) != -1 && a != address
  {
    var ms' := WithoutAddress(ms, address);
    WithoutAddressKeeps(ms, address);
    var k, k' := Position(ms, a), Position(ms', a);
    if k' != -1 { assert ms'[k'] in ms'; }
    if k != -1 && a != address { assert ms[k] in ms'; }
  }

  lemma MachineTurnSaid(r: Roster, m: Message, handled: seq<Message>)
    requires RosterSound(r) && MachinesSaid(r.machines, handled) && !AboutJob(m)
    ensures OnMachine(r, m).1 == Fine ==> MachinesSaid(OnMachine(r, m).0.machines, handled + [m])
    ensures OnMachine(r, m).1 != Fine ==> OnMachine(r, m).0.machines == r.machines
  {
    hide MachinesSaid, GroupsOf, WithoutAddress, Position;
    match m
    case AddGroups(a, _) =>
      var k := Position(r.machines, a);
      if k != -1 { UpdateSaid(r.machines, k, OnMachine(r, m).0.machines[k], m, handled); }
    case MpiFlavors(a, _) =>
      var k := Position(r.machines, a);
      if k != -1 { UpdateSaid(r.machines, k, OnMachine(r, m).0.machines[k], m, handled); }
    case ServerState(_, a, _, _) =>
      var k := Position(r.machines, a);
      if k != -1 {
        UpdateSaid(r.machines, k, OnMachine(r, m).0.machines[k], m, handled);
      } else {
        CameSaid(r.machines, m, handled);
      }
    case ServerRemove(a) => WentSaid(r.machines, a, handled);
    case _ => NothingSaid(r.machines, m, handled);
  }

  lemma UpdateSaid(ms: seq<Machine>, k: nat, d: Machine, m: Message, handled: seq<Message>)
    requires DistinctAddresses(ms) && MachinesSaid(ms, handled) && k < |ms|
    requires m.AddGroups? || m.ServerState? || m.MpiFlavors?
    requires ms[k].address == m.address
    requires d == match m
      case AddGroups(_, tags) => ms[k].(tags := Reverse(Split(tags, ',')))
      case ServerState(hostname, _, state, n) => ms[k].(hostname := hostname, state := state, ncores := n)
      case MpiFlavors(_, flavors) => ms[k].(mpiFlavors := Some(flavors))
    ensures MachinesSaid(ms[k := d], handled + [m])
  {
    SaidOfIt(ms[k], d, m, handled);
    OneSaid(ms, k, d, m, handled);
  }

  lemma SaidOfIt(was: Machine, d: Machine, m: Message, handled: seq<Message>)
    requires MachineAsSaid(was, handled) && (m.AddGroups? || m.ServerState? || m.MpiFlavors?)
    requires was.address == m.address
    requires d == match m
      case AddGroups(_, tags) => was.(tags := Reverse(Split(tags, ',')))
      case ServerState(hostname, _, state, n) => was.(hostname := hostname, state := state, ncores := n)
      case MpiFlavors(_, flavors) => was.(mpiFlavors := Some(flavors))
    ensures MachineAsSaid(d, handled + [m])
  {
    hide StateSaid, TagsSaid, FlavorsSaid, Split;
    OneMoreSaidOf(m.address, handled, m);
  }

  // ---------------------------------------------------------------- the client and the message loop

  datatype Client = Client(board: Board, roster: Roster, pending: seq<Message>, handled: seq<Message>, nextTemp: nat)

  /** A client that has just been made: the row Immediately and the autochoose entry. */
  const START :=
    Client(Board(map[], map[], [None]), Roster([Machine("", "", "logged", [], 0, None)], [], false), [], [], 0)

  function OnMessage(c: Client, m: Message): (Client, Outcome) {
    if AboutJob(m) then
      var (b, r) := OnJob(c.board, m);
      (c.(board := b), r)
    else
      var (x, r) := OnMachine(c.roster, m);
      (c.(roster := x), r)
  }

  /** When a message is bad, and when it is about something that is not there. */
  lemma OutcomesExactly(c: Client, m: Message)
    ensures OnMessage(c, m).1 == Bad <==>
      m.Malformed? || (m.MpiFlavors? && forall d :: d in c.roster.machines ==> d.address != m.address)
    ensures OnMessage(c, m).1 == Undefined <==>
      || ((m.Issues? || m.StatusChange? || m.OutputOf? || m.CmdLine?) && m.id !in c.board.jobs)
      || ((m.OutputOf? || m.CmdLine?) && m.id in c.board.jobs && !(0 < m.frac <= |c.board.jobs[m.id].tasks|))
      || (m.AddGroups? && forall d :: d in c.roster.machines ==> d.address != m.address)
    ensures OnMessage(c, m).1 != Fine ==>
      OnMessage(c, m).0.board == c.board && OnMessage(c, m).0.roster.machines == c.roster.machines
  {
    if !AboutJob(m) && (m.AddGroups? || m.MpiFlavors?) {
      var ms := c.roster.machines;
      var k := Position(ms, m.address);
      if k != -1 {
        assert ms[k] in ms;
      } else {
        forall d | d in ms ensures d.address != m.address { var i :| 0 <= i < |ms| && ms[i] == d; }
      }
    }
  }

  /** One turn of the loop: the last message goes, unless C promises nothing any more, and it has
      been handled if it was not bad. */
  function Turn(c: Client): (Client, Outcome)
    requires c.pending != []
  {
    var rest, m := c.pending[..|c.pending| - 1], c.pending[|c.pending| - 1];
    var (c', r) := OnMessage(c, m);
    match r
    case Fine => (c'.(pending := rest, handled := c.handled + [m]), r)
    case Bad => (c'.(pending := rest), r)
    case Undefined => (c', r)
  }

  lemma TurnPending(c: Client)
    requires c.pending != []
    ensures Turn(c).0.pending == if Turn(c).1 == Undefined then c.pending else c.pending[..|c.pending| - 1]
    ensures Turn(c).0.handled == c.handled + if Turn(c).1 == Fine then [c.pending[|c.pending| - 1]] else []
    ensures Turn(c).0.nextTemp == c.nextTemp
  {
  }

  /** parse_messages: turns until the list is empty, a message is bad or C promises nothing. */
  function Parse(c: Client): (Client, Outcome)
    decreases |c.pending|
  {
    if c.pending == [] then (c, Fine) else
      TurnPending(c);
      var (c', r) := Turn(c);
      if r == Fine then Parse(c') else (c', r)
  }

  /** How much of the list is left or was dropped when the loop stopped. */
  function Untold(c: Client): nat {
    |Parse(c).0.pending| + if Parse(c).1 == Bad then 1 else 0
  }

  /** The messages of the list are handled from its end on, in that order, up to the one that stops
      the loop; nothing is left when none does. */
  lemma {:induction false} ParseOrder(c: Client)
    ensures Parse(c).0.pending <= c.pending && Untold(c) <= |c.pending|
    ensures Parse(c).1 == Fine ==> Parse(c).0.pending == []
    ensures Parse(c).1 == Undefined ==> Parse(c).0.pending != []
    ensures Parse(c).0.handled == c.handled + Reverse(c.pending[Untold(c)..])
    decreases |c.pending|
  {
    hide Turn, Reverse;
    if c.pending != [] {
      TurnPending(c);
      var c1, m := Turn(c).0, c.pending[|c.pending| - 1];
      if Turn(c).1 == Fine {
        ParseOrder(c1);
        var n := Untold(c1);
        assert Parse(c) == Parse(c1);
        assert c.pending[n..] == c1.pending[n..] + [m];
        HandledSnoc(c.handled, c1.pending[n..], m);
      } else {
        assert c.pending[|c.pending|..] == [];
        NothingHandled(c.handled);
      }
    }
  }

  lemma ReverseSnoc<T>(l: seq<T>, x: T)
    ensures Reverse(l + [x]) == [x] + Reverse(l)
  {
  }

  lemma NothingHandled<T>(done: seq<T>)
    ensures done + Reverse([]) == done
  {
  }

  lemma HandledSnoc<T>(done: seq<T>, l: seq<T>, x: T)
    ensures (done + [x]) + Reverse(l) == done + Reverse(l + [x])
  {
    hide Reverse;
    ReverseSnoc(l, x);
    assert (done + [x]) + Reverse(l) == done + ([x] + Reverse(l));
  }

  // ---------------------------------------------------------------- what holds at every moment

  function TempId(n: nat, session: string): string {
    Decimal(n) + ":" + session
  }

  function Decimal(n: nat): string
    decreases n
  {
    var digit := "0123456789"[n % 10];
    if n < 10 then [digit] else Decimal(n / 10) + [digit]
  }

  lemma {:induction false} DecimalInjective(a: nat, b: nat)
    ensures Decimal(a) == Decimal(b) ==> a == b
  {
    if Decimal(a) == Decimal(b) {
      assert Decimal(a)[|Decimal(a)| - 1] == "0123456789"[a % 10];
      assert Decimal(b)[|Decimal(b)| - 1] == "0123456789"[b % 10];
      if a >= 10 && b >= 10 {
        assert Decimal(a)[..|Decimal(a)| - 1] == Decimal(a / 10) && Decimal(b)[..|Decimal(b)| - 1] == Decimal(b / 10);
        DecimalInjective(a / 10, b / 10);
      } else if a >= 10 {
        DecimalNonEmpty(a / 10);
      } else if b >= 10 {
        DecimalNonEmpty(b / 10);
      }
    }
  }

  /** What a row of digits counts. */
  function Value(s: string): int {
    if s == "" then 0 else 10 * Value(s[..|s| - 1]) + (s[|s| - 1] as int - '0' as int)
  }

  lemma {:induction false} DecimalReads(n: nat)
    ensures Value(Decimal(n)) == n && Decimal(n) != "" && (n > 0 ==> Decimal(n)[0] != '0')
    ensures forall i :: 0 <= i < |Decimal(n)| ==> '0' <= Decimal(n)[i] <= '9'
  {
    assert "0123456789"[n % 10] as int - '0' as int == n % 10;
    if n < 10 {
      assert Decimal(n)[..0] == "";
    } else {
      DecimalReads(n / 10);
      assert Decimal(n)[..|Decimal(n)| - 1] == Decimal(n / 10);
    }
  }

  lemma DecimalNonEmpty(n: nat)
    ensures Decimal(n) != ""
  {
  }

  /** Temporary ids are told apart by their number. */
  lemma TempIdInjective(a: nat, b: nat, session: string)
    ensures TempId(a, session) == TempId(b, session) ==> a == b
  {
    if TempId(a, session) == TempId(b, session) {
      assert |Decimal(a)| == |Decimal(b)|;
      assert TempId(a, session)[..|Decimal(a)|] == Decimal(a) && TempId(b, session)[..|Decimal(b)|] == Decimal(b);
      DecimalInjective(a, b);
    }
  }

  /** Temporary jobs have the ids the counter has given out. */
  ghost predicate TempsNumbered(c: Client, session: string) {
    forall id :: id in c.board.temps ==> exists n :: 0 <= n < c.nextTemp && id == TempId(n, session)
  }

  /** A job whose origin is not known was submitted here: its first `job` message named an id the
      counter has given out. */
  ghost predicate SubmittedHere(b: Board, handled: seq<Message>, count: nat, session: string) {
    forall id :: id in b.jobs && b.jobs[id].origin.None? ==>
      FirstDefine(id, handled).Some? &&
      exists n :: 0 <= n < count && FirstDefine(id, handled).value.tempId == TempId(n, session)
  }

  lemma JobTurnSubmitted(c: Client, m: Message, session: string)
    requires SubmittedHere(c.board, c.handled, c.nextTemp, session) && TempsNumbered(c, session)
    requires SaidOk(c.board, c.handled)
    requires AboutJob(m) && OnJob(c.board, m).1 == Fine
    ensures SubmittedHere(OnJob(c.board, m).0, c.handled + [m], c.nextTemp, session)
  {
    hide FirstDefine, LastDefine, LastStatus, LastMoment, LastIssues, TempId, NextRows, Hear, IsAsSaid;
    var b' := OnJob(c.board, m).0;
    forall id | id in b'.jobs && b'.jobs[id].origin.None?
      ensures FirstDefine(id, c.handled + [m]).Some?
      ensures exists n :: 0 <= n < c.nextTemp && FirstDefine(id, c.handled + [m]).value.tempId == TempId(n, session)
    {
      OneMoreSaid(id, {}, c.handled, m);
      if id !in c.board.jobs { assert Unspoken(id, c.handled); }
    }
  }

  lemma OtherSubmitted(c: Client, m: Message, session: string)
    requires SubmittedHere(c.board, c.handled, c.nextTemp, session) && !AboutJob(m)
    ensures SubmittedHere(c.board, c.handled + [m], c.nextTemp, session)
  {
    hide FirstDefine, TempId;
    forall id { OneMoreSaid(id, {}, c.handled, m); }
  }

  ghost predicate ToldGroups(handled: seq<Message>) {
    exists i :: 0 <= i < |handled| && TellsGroups(handled[i])
  }

  ghost predicate Sound(c: Client, session: string) {
    && BoardSound(c.board) && HistoryOk(c.board, c.handled) && SaidOk(c.board, c.handled)
    && TempsNumbered(c, session) && SubmittedHere(c.board, c.handled, c.nextTemp, session)
    && RosterSound(c.roster) && MachinesSaid(c.roster.machines, c.handled)
    && (ToldGroups(c.handled) ==> c.roster.announced)
  }

  lemma StartSound(session: string)
    ensures Sound(START, session)
  {
    hide Position, GroupsOf, TempId, Split, MachinesSaid, IsAsSaid;
    NothingSaidYet();
  }

  lemma NothingSaidYet()
    ensures MachinesSaid(START.roster.machines, [])
  {
  }

  lemma ToldGroupsSnoc(handled: seq<Message>, m: Message)
    ensures ToldGroups(handled + [m]) <==> ToldGroups(handled) || TellsGroups(m)
  {
    var all := handled + [m];
    assert all[|handled|] == m;
    if ToldGroups(handled) {
      var i :| 0 <= i < |handled| && TellsGroups(handled[i]);
      assert TellsGroups(all[i]);
    }
  }

  lemma JobTurnSound(c: Client, m: Message, session: string)
    requires Sound(c, session) && AboutJob(m) && OnJob(c.board, m).1 == Fine
    ensures Sound(c.(board := OnJob(c.board, m).0, handled := c.handled + [m]), session)
  {
    OnJobSound(c.board, m);
    OnJobHistory(c.board, m, c.handled);
    OnJobSaid(c.board, m, c.handled);
    JobTurnSubmitted(c, m, session);
    NothingSaid(c.roster.machines, m, c.handled);
    ToldGroupsSnoc(c.handled, m);
    hide BoardSound, HistoryOk, SaidOk, SubmittedHere, ToldGroups, NextRows, Defined, RosterSound, MachinesSaid;
    TempsShrink(c.board, m);
  }

  lemma TempsShrink(b: Board, m: Message)
    requires AboutJob(m)
    ensures forall id :: id in OnJob(b, m).0.temps ==> id in b.temps
  {
  }

  lemma MachineTurnSound(c: Client, m: Message, session: string)
    requires Sound(c, session) && !AboutJob(m)
    ensures OnMachine(c.roster, m).1 != Fine ==> Sound(c.(roster := OnMachine(c.roster, m).0), session)
    ensures OnMachine(c.roster, m).1 == Fine ==>
      Sound(c.(roster := OnMachine(c.roster, m).0, handled := c.handled + [m]), session)
  {
    hide BoardSound, HistoryOk, SaidOk, ToldGroups, OnMachine, RosterSound, MachinesSaid;
    OnMachineSound(c.roster, m);
    MachineTurnSaid(c.roster, m, c.handled);
    OtherHistory(c.board, m, c.handled);
    OtherSaid(c.board, m, c.handled);
    OtherSubmitted(c, m, session);
    ToldGroupsSnoc(c.handled, m);
  }

  lemma TurnSound(c: Client, session: string)
    requires Sound(c, session) && c.pending != []
    ensures Sound(Turn(c).0, session)
  {
    hide BoardSound, HistoryOk, SaidOk, SubmittedHere, ToldGroups, RosterSound, MachinesSaid, OnJob, OnMachine;
    var m := c.pending[|c.pending| - 1];
    if AboutJob(m) {
      JobOutcome(c.board, m);
      if OnJob(c.board, m).1 == Fine { JobTurnSound(c, m, session); }
    } else {
      MachineTurnSound(c, m, session);
    }
  }

  lemma JobOutcome(b: Board, m: Message)
    requires AboutJob(m)
    ensures OnJob(b, m).1 == Fine || (OnJob(b, m).1 == Undefined && OnJob(b, m).0 == b)
  {
  }

  lemma PendingSound(c: Client, pending: seq<Message>, session: string)
    requires Sound(c, session)
    ensures Sound(c.(pending := pending), session)
  {
  }

  lemma {:induction false} ParseSound(c: Client, session: string)
    requires Sound(c, session)
    ensures Sound(Parse(c).0, session)
    decreases |c.pending|
  {
    if c.pending != [] {
      TurnPending(c);
      TurnSound(c, session);
      if Turn(c).1 == Fine { ParseSound(Turn(c).0, session); }
    }
  }

  // ---------------------------------------------------------------- whole sessions

  /** What happens to a client: a submission (after so many on other maestros, which share the
      counter), messages received, and the connection made or lost. */
  datatype Event = Submit(skipped: nat, queue: string) | Deliver(received: seq<Message>) | Connection(lost: bool)

  function Submitted(c: Client, skipped: nat, queue: string, session: string): Client {
    var id := TempId(c.nextTemp + skipped, session);
    c.(board := c.board.(temps := c.board.temps[id := NewState(id, queue)]), nextTemp := c.nextTemp + skipped + 1)
  }

  function OnEvent(c: Client, e: Event, session: string): (Client, Outcome) {
    match e
    case Submit(skipped, queue) => (Submitted(c, skipped, queue, session), Fine)
    case Deliver(received) => Parse(c.(pending := received + c.pending))
    case Connection(_) => (c.(roster := Announce(c.roster.machines)), Fine)
  }

  /** Messages are put before those that wait and handled from the end, so in the order they came: after
      a delivery that ends well, first those that waited and then the new ones have been handled. */
  lemma DeliveredInOrder(c: Client, received: seq<Message>, session: string)
    ensures var (c', r) := OnEvent(c, Deliver(received), session);
      r == Fine ==> c'.pending == [] && c'.handled == c.handled + (Reverse(c.pending) + Reverse(received))
  {
    hide Parse, Reverse;
    var d := c.(pending := received + c.pending);
    ParseOrder(d);
    ReverseConcat(received, c.pending);
    assert d.pending[0..] == d.pending;
  }

  /** The events in order, as long as C promises anything; how many that were. */
  function Run(c: Client, es: seq<Event>, session: string): (Client, nat)
    decreases |es|
  {
    if es == [] then (c, 0) else
      var (c', r) := OnEvent(c, es[0], session);
      if r == Undefined then (c', 0) else
        var (c'', n) := Run(c', es[1..], session);
        (c'', n + 1)
  }

  lemma Unknown(id: string, queue: string)
    ensures NewState(id, queue) == JobState(id, Initial, queue, true, [], None, None, None, None, None, None)
  {
  }

  /** A submitted job takes nobody's place: the counter has not given out its id before. */
  lemma SubmitLosesNone(c: Client, skipped: nat, queue: string, session: string)
    requires TempsNumbered(c, session)
    ensures var c' := Submitted(c, skipped, queue, session);
      && TempId(c.nextTemp + skipped, session) !in c.board.temps
      && |c'.board.temps| == |c.board.temps| + 1 && TempsNumbered(c', session)
      && var id := TempId(c.nextTemp + skipped, session);
         var job := JobState(id, Initial, queue, true, [], None, None, None, None, None, None);
         c'.board == Board(c.board.jobs, c.board.temps[id := job], c.board.queues)
  {
    hide TempId, NewState;
    var id := TempId(c.nextTemp + skipped, session);
    if id in c.board.temps {
      var n :| 0 <= n < c.nextTemp && id == TempId(n, session);
      TempIdInjective(n, c.nextTemp + skipped, session);
    }
    SetCount(c.board.temps, id, NewState(id, queue));
    Unknown(id, queue);
    var c' := Submitted(c, skipped, queue, session);
    forall k | k in c'.board.temps ensures exists n :: 0 <= n < c'.nextTemp && k == TempId(n, session) {
      if k != id { var n :| 0 <= n < c.nextTemp && k == TempId(n, session); }
    }
  }

  lemma ConnectionSound(c: Client, session: string)
    requires Sound(c, session)
    ensures Sound(c.(roster := Announce(c.roster.machines)), session)
  {
    hide BoardSound, HistoryOk, SaidOk, SubmittedHere, MachinesSaid, GroupsOf, ToldGroups;
  }

  lemma SubmitBoard(b: Board, id: string, queue: string, handled: seq<Message>)
    requires BoardSound(b) && HistoryOk(b, handled) && SaidOk(b, handled)
    ensures var b' := b.(temps := b.temps[id := NewState(id, queue)]);
      BoardSound(b') && HistoryOk(b', handled) && SaidOk(b', handled)
  {
    hide IsAsTold, IsAsSaid, Unspoken, ImmediatelyFirst, WordsTo;
  }

  lemma MoreSubmitted(b: Board, id: string, queue: string, handled: seq<Message>, n: nat, n': nat, session: string)
    requires SubmittedHere(b, handled, n, session) && n <= n'
    ensures SubmittedHere(b.(temps := b.temps[id := NewState(id, queue)]), handled, n', session)
  {
    hide FirstDefine, TempId, NewState;
  }

  lemma SubmitSound(c: Client, skipped: nat, queue: string, session: string)
    requires Sound(c, session)
    ensures Sound(Submitted(c, skipped, queue, session), session)
  {
    hide TempId, TempsNumbered, SubmittedHere, RosterSound, MachinesSaid, ToldGroups, BoardSound, HistoryOk, SaidOk,
      NewState;
    var id := TempId(c.nextTemp + skipped, session);
    SubmitBoard(c.board, id, queue, c.handled);
    MoreSubmitted(c.board, id, queue, c.handled, c.nextTemp, c.nextTemp + skipped + 1, session);
    SubmitLosesNone(c, skipped, queue, session);
  }

  lemma EventSound(c: Client, e: Event, session: string)
    requires Sound(c, session)
    ensures Sound(OnEvent(c, e, session).0, session)
  {
    hide Sound, Submitted, Parse, GroupsOf;
    match e
    case Submit(skipped, queue) => SubmitSound(c, skipped, queue, session);
    case Deliver(received) =>
      PendingSound(c, received + c.pending, session);
      ParseSound(c.(pending := received + c.pending), session);
    case Connection(_) => ConnectionSound(c, session);
  }

  /** At every moment of every session everything is sound. */
  lemma {:induction false} RunSound(c: Client, es: seq<Event>, session: string)
    requires Sound(c, session)
    ensures Sound(Run(c, es, session).0, session)
    decreases |es|
  {
    if es != [] {
      hide OnEvent, Sound;
      EventSound(c, es[0], session);
      RunSound(OnEvent(c, es[0], session).0, es[1..], session);
    }
  }

  /** A session stops early only where an event runs into undefined behaviour, which only delivered
      messages can. */
  lemma {:induction false} RunStops(c: Client, es: seq<Event>, session: string)
    ensures var (c', n) := Run(c, es, session);
      && n <= |es|
      && (n < |es| ==> Run(c, es[..n], session).1 == n && es[n].Deliver? &&
                       OnEvent(Run(c, es[..n], session).0, es[n], session) == (c', Undefined))
    decreases |es|
  {
    if es != [] {
      hide Parse, Submitted;
      var (c1, r) := OnEvent(c, es[0], session);
      if r != Undefined {
        var n := Run(c1, es[1..], session).1;
        RunStops(c1, es[1..], session);
        assert n < |es[1..]| ==> es[..n + 1][0] == es[0] && es[..n + 1][1..] == es[1..][..n];
      } else {
        assert es[..0] == [];
      }
    }
  }

  lemma TurnKeeps(c: Client)
    requires c.pending != []
    ensures Extends(c.board.jobs, Turn(c).0.board.jobs)
    ensures c.roster.announced ==> Turn(c).0.roster.announced
    ensures Turn(c).1 == Bad ==> Turn(c).0.roster.announced
  {
    var m := c.pending[|c.pending| - 1];
    if AboutJob(m) { OnJobExtends(c.board, m); JobOutcome(c.board, m); }
  }

  /** The message loop loses no real job, changes the slots of no task table, and once the groups
      list has been derived it stays so; a bad message has it derived. */
  lemma {:induction false} ParseKeeps(c: Client)
    ensures Extends(c.board.jobs, Parse(c).0.board.jobs)
    ensures c.roster.announced || Parse(c).1 == Bad ==> Parse(c).0.roster.announced
    decreases |c.pending|
  {
    hide Turn, Extends;
    if c.pending == [] {
      ExtendsItself(c.board.jobs);
    } else {
      var c1 := Turn(c).0;
      TurnPending(c);
      TurnKeeps(c);
      if Turn(c).1 == Fine {
        ParseKeeps(c1);
        ExtendsTransitive(c.board.jobs, c1.board.jobs, Parse(c1).0.board.jobs);
      }
    }
  }

  lemma ExtendsItself(a: map<string, JobState>)
    ensures Extends(a, a)
  {
  }

  /** So do whole sessions, and a change of the connection has the groups derived. */
  lemma {:induction false} RunKeeps(c: Client, es: seq<Event>, session: string)
    ensures var (c', n) := Run(c, es, session);
      && Extends(c.board.jobs, c'.board.jobs)
      && (c.roster.announced ==> c'.roster.announced)
      && (n <= |es| && (exists i :: 0 <= i < n && es[i].Connection?) ==> c'.roster.announced)
    decreases |es|
  {
    ExtendsItself(c.board.jobs);
    if es != [] {
      var (c1, r) := OnEvent(c, es[0], session);
      if es[0].Deliver? { ParseKeeps(c.(pending := es[0].received + c.pending)); }
      hide Parse, Submitted, Extends;
      if r != Undefined {
        var (c', n) := Run(c1, es[1..], session);
        RunKeeps(c1, es[1..], session);
        ExtendsTransitive(c.board.jobs, c1.board.jobs, c'.board.jobs);
        if i :| 0 < i < n + 1 && i < |es| && es[i].Connection? { assert es[1..][i - 1].Connection?; }
      }
    }
  }

  // ---------------------------------------------------------------- what a job is in the end

  /** At the end of every session each real job has the tasks its server lists make, each with all
      its output and last command line, in the order the messages were handled; and the slots are
      those of the stored list exactly when the first non-empty list has a pair or none has. */
  lemma JobsAsTold(es: seq<Event>, session: string, id: string)
    requires id in Run(START, es, session).0.board.jobs
    ensures var c := Run(START, es, session).0; var j, words := c.board.jobs[id], WordsTo(id, c.handled);
      && AllHeeded(words) && AsTold(j.tasks, words)
      && (Slots(j.tasks) == Slots(ParseStored(j.serverList)) <==> FirstListIsComplete(ListsIn(words)))
  {
    var c := Run(START, es, session).0;
    StartSound(session);
    RunSound(START, es, session);
    HeardExactly(WordsTo(id, c.handled));
    SlotsMatchStoredList(WordsTo(id, c.handled));
  }

  /** At the end of every session each real job has the queue and details of the last `job` message
      about it, the status of the last message that has one, the moments and issues it was told, and
      if it was not submitted here the origin it arrived with; temporary jobs are as they were
      submitted. */
  lemma JobsAsSaid(es: seq<Event>, session: string, id: string)
    ensures var c := Run(START, es, session).0;
      && (id in c.board.jobs ==> IsAsSaid(c.board.jobs[id], id, c.handled))
      && (id in c.board.jobs && c.board.jobs[id].origin.None? ==>
            exists n :: 0 <= n < c.nextTemp && FirstDefine(id, c.handled).value.tempId == TempId(n, session))
      && (id in c.board.temps ==>
            c.board.temps[id] ==
            JobState(id, Initial, c.board.temps[id].queue, true, [], None, None, None, None, None, None))
      && (id in c.board.jobs <==> exists m :: m in c.handled && m.JobDefine? && m.id == id)
  {
    hide Run, IsAsSaid;
    var c := Run(START, es, session).0;
    StartSound(session);
    RunSound(START, es, session);
    DefinedOnce(id, c.handled);
    if id in c.board.jobs { SaidIsDefined(c.board.jobs[id], id, c.handled); }
  }

  lemma SaidIsDefined(j: JobState, id: string, handled: seq<Message>)
    requires IsAsSaid(j, id, handled)
    ensures FirstDefine(id, handled).Some?
  {
  }

  lemma {:induction false} DefinedOnce(id: string, handled: seq<Message>)
    ensures FirstDefine(id, handled).Some? <==> exists m :: m in handled && m.JobDefine? && m.id == id
  {
    if handled != [] {
      var before, m := handled[..|handled| - 1], handled[|handled| - 1];
      DefinedOnce(id, before);
      assert handled == before + [m];
    }
  }

  /** And the machines are those heard of and not removed since, each once, with the groups, state,
      name, cores and flavors it was last told. */
  lemma MachinesAsSaid(es: seq<Event>, session: string)
    ensures var c := Run(START, es, session).0;
      MachinesSaid(c.roster.machines, c.handled) && DistinctAddresses(c.roster.machines)
  {
    StartSound(session);
    RunSound(START, es, session);
  }

  /** All the output of a fraction of a job, in the order the messages were handled. */
  function OutputSaid(id: string, frac: int, handled: seq<Message>): string {
    if handled == [] then "" else
      var m := handled[|handled| - 1];
      OutputSaid(id, frac, handled[..|handled| - 1]) +
      if m.OutputOf? && m.id == id && m.frac == frac then m.text else ""
  }

  /** Its last command line. */
  function CommandSaid(id: string, frac: int, handled: seq<Message>): Option<string> {
    if handled == [] then None else
      var m := handled[|handled| - 1];
      if m.CmdLine? && m.id == id && m.frac == frac then Some(m.cmd)
      else CommandSaid(id, frac, handled[..|handled| - 1])
  }

  /** The server lists in the `job` messages about it. */
  function ListsSaid(id: string, handled: seq<Message>): seq<string> {
    if handled == [] then [] else
      var m := handled[|handled| - 1];
      ListsSaid(id, handled[..|handled| - 1]) + if m.JobDefine? && m.id == id then [m.servers] else []
  }

  lemma {:induction false} WordsAreSaid(id: string, handled: seq<Message>, k: nat)
    ensures SaidTo(WordsTo(id, handled), k) == OutputSaid(id, k + 1, handled)
    ensures LastCommand(WordsTo(id, handled), k) == CommandSaid(id, k + 1, handled)
    ensures ListsIn(WordsTo(id, handled)) == ListsSaid(id, handled)
  {
    hide SaidTo, LastCommand, ListsIn, WordsTo;
    if handled == [] {
      NoWords(id, k);
    } else {
      var before, m := handled[..|handled| - 1], handled[|handled| - 1];
      assert handled == before + [m];
      WordsAreSaid(id, before, k);
      WordsToSnoc(id, before, m);
      if AboutJob(m) && m.id == id && WordOf(m).Some? {
        OneMoreWord(WordsTo(id, before), WordOf(m).value, k);
      } else {
        assert WordsTo(id, before) + [] == WordsTo(id, before);
      }
      assert OutputSaid(id, k + 1, before) + "" == OutputSaid(id, k + 1, before);
      assert ListsSaid(id, before) + [] == ListsSaid(id, before);
    }
  }

  lemma NoWords(id: string, k: nat)
    ensures WordsTo(id, []) == [] && SaidTo([], k) == "" && LastCommand([], k) == None && ListsIn([]) == []
  {
  }

  /** The same in terms of the messages: a job's tasks are those of the first server list it was sent
      that names a pair, if any was, each with all the output of its fraction and its last command
      line; its stored list is the first that is not empty. */
  lemma TasksAsSaid(es: seq<Event>, session: string, id: string)
    requires id in Run(START, es, session).0.board.jobs
    ensures var c := Run(START, es, session).0; var j, lists := c.board.jobs[id], ListsSaid(id, c.handled);
      && j.serverList == FirstNonEmpty(lists)
      && match FirstWithPair(lists)
         case None => j.tasks == []
         case Some(l) =>
           var parts := Split(l, ',');
           && |j.tasks| == |parts| / 2
           && forall k :: 0 <= k < |j.tasks| ==>
                j.tasks[k] == Task(parts[2 * k], parts[2 * k + 1], CommandSaid(id, k + 1, c.handled), k + 1,
                                   OutputSaid(id, k + 1, c.handled))
  {
    hide Run, SaidTo, LastCommand, ListsIn, WordsTo, HearAll, ParseTasks, Split, ReceiveAll;
    var c := Run(START, es, session).0;
    var words := WordsTo(id, c.handled);
    StartSound(session);
    RunSound(START, es, session);
    JobsAsTold(es, session, id);
    HeardExactly(words);
    WordsAreSaid(id, c.handled, 0);
    FirstListsDecide([], None, ListsSaid(id, c.handled));
    forall k | 0 <= k < |c.board.jobs[id].tasks| { WordsAreSaid(id, c.handled, k); }
  }

  /** Two sessions in which a job gets the same server lists leave it with the same tasks exactly
      when each task was told the same: how the messages interleave does not matter. */
  lemma SessionsAlike(es: seq<Event>, fs: seq<Event>, session: string, id: string)
    requires id in Run(START, es, session).0.board.jobs && id in Run(START, fs, session).0.board.jobs
    requires ListsIn(WordsTo(id, Run(START, es, session).0.handled)) ==
      ListsIn(WordsTo(id, Run(START, fs, session).0.handled))
    ensures var c, d := Run(START, es, session).0, Run(START, fs, session).0;
      var a, b := WordsTo(id, c.handled), WordsTo(id, d.handled);
      c.board.jobs[id].tasks == d.board.jobs[id].tasks <==> SameTold(a, b, |TableOf(a)|)
  {
    var c, d := Run(START, es, session).0, Run(START, fs, session).0;
    var a, b := WordsTo(id, c.handled), WordsTo(id, d.handled);
    StartSound(session);
    RunSound(START, es, session);
    RunSound(START, fs, session);
    HeardExactly(a);
    HeardExactly(b);
    ToldAlike(a, b);
  }

  /** From the first group or state message or change of the connection on, the groups list is the
      one the machines call for. */
  lemma GroupsFollow(es: seq<Event>, session: string)
    requires var (c, n) := Run(START, es, session);
      ToldGroups(c.handled) || exists i :: 0 <= i < n && i < |es| && es[i].Connection?
    ensures var r := Run(START, es, session).0.roster; DerivedFrom(r.groups, r.machines)
  {
    var (c, n) := Run(START, es, session);
    StartSound(session);
    RunSound(START, es, session);
    RunKeeps(START, es, session);
    RunStops(START, es, session);
    GroupsAreDerived(c.roster.machines, c.roster.groups);
  }
}
