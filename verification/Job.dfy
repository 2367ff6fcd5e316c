/**
 A job as the client keeps it (gebr/gebr-job.c): its status, its run id, and one task for every
 machine that takes part of the work, each with its own output.
 */
module Job {
  import opened Strings

  datatype Status = Initial | Queued | Failed | Running | Finished | Canceled | Requeued | Issued

  predicate Stopped(s: Status) { s.Finished? || s.Failed? || s.Canceled? }

  predicate Killable(s: Status) { s.Queued? || s.Running? }

  datatype Task = Task(server: string, percentage: string, cmdLine: Option<string>, frac: nat, output: string)

  // ---------------------------------------------------------------- the task table

  /** The tasks a server list describes: machines at even places, shares at odd ones. */
  function ParseTasks(servers: string): (r: seq<Task>)
    ensures |r| == |Split(servers, ',')| / 2
    ensures forall i :: 0 <= i < |r| ==> var parts := Split(servers, ',');
      r[i] == Task(parts[2 * i], parts[2 * i + 1], None, i + 1, "")
  {
    var parts := Split(servers, ',');
    seq(|parts| / 2, i requires 0 <= i < |parts| / 2 => Task(parts[2 * i], parts[2 * i + 1], None, i + 1, ""))
  }

  /** The part of a task that no message about the job changes. */
  function Slot(t: Task): (string, string, nat) { (t.server, t.percentage, t.frac) }

  function Slots(tasks: seq<Task>): (r: seq<(string, string, nat)>)
    ensures |r| == |tasks| && forall i :: 0 <= i < |r| ==> r[i] == Slot(tasks[i])
  {
    seq(|tasks|, i requires 0 <= i < |tasks| => Slot(tasks[i]))
  }

  /** The effect of one server list on the pair (task table, stored server list). */
  function Receive(tasks: seq<Task>, stored: Option<string>, servers: string): (seq<Task>, Option<string>) {
    (if tasks != [] then tasks else ParseTasks(servers),
     if stored.None? && servers != "" then Some(servers) else stored)
  }

  function ReceiveAll(tasks: seq<Task>, stored: Option<string>, lists: seq<string>): (seq<Task>, Option<string>)
    decreases |lists|
  {
    if lists == [] then (tasks, stored) else
      var (t, s) := Receive(tasks, stored, lists[0]);
      ReceiveAll(t, s, lists[1..])
  }

  function ParseStored(stored: Option<string>): seq<Task> {
    if stored.Some? then ParseTasks(stored.value) else []
  }

  /** The first non-empty list has a comma, or none of the lists has one. */
  predicate FirstListIsComplete(lists: seq<string>) {
    if lists == [] then true
    else if lists[0] == "" then FirstListIsComplete(lists[1..])
    else ',' in lists[0] || forall l :: l in lists ==> ',' !in l
  }

  lemma TasksIffComma(l: string)
    ensures ParseTasks(l) == [] <==> ',' !in l
  {
    PiecesCount(l, ',');
  }

  lemma {:induction false} ReceiveFixed(tasks: seq<Task>, stored: Option<string>, lists: seq<string>)
    requires stored.Some?
    ensures var (t, s) := ReceiveAll(tasks, stored, lists);
      && s == stored && (tasks != [] ==> t == tasks)
      && (tasks == [] ==> (t == [] <==> forall l :: l in lists ==> ',' !in l))
    decreases |lists|
  {
    if lists != [] {
      TasksIffComma(lists[0]);
      ReceiveFixed(Receive(tasks, stored, lists[0]).0, stored, lists[1..]);
      assert forall l :: l in lists <==> l == lists[0] || l in lists[1..];
    }
  }

  function FirstWithPair(lists: seq<string>): Option<string>
    decreases |lists|
  {
    if lists == [] then None else if ',' in lists[0] then Some(lists[0]) else FirstWithPair(lists[1..])
  }

  function FirstNonEmpty(lists: seq<string>): Option<string>
    decreases |lists|
  {
    if lists == [] then None else if lists[0] != "" then Some(lists[0]) else FirstNonEmpty(lists[1..])
  }

  /** The first list that names a pair makes the tasks, the first that is not empty is stored. */
  lemma {:induction false} FirstListsDecide(tasks: seq<Task>, stored: Option<string>, lists: seq<string>)
    ensures ReceiveAll(tasks, stored, lists) ==
      (if tasks != [] then tasks else ParseStored(FirstWithPair(lists)),
       if stored.Some? then stored else FirstNonEmpty(lists))
    decreases |lists|
  {
    if lists != [] {
      hide ParseTasks;
      TasksIffComma(lists[0]);
      var (t, s) := Receive(tasks, stored, lists[0]);
      FirstListsDecide(t, s, lists[1..]);
    }
  }

  /** Whatever server lists a job is told, its tasks are those of the list it stored exactly when
      the first non-empty list names at least one pair, or no list ever does. */
  lemma {:induction false} TasksMatchStoredList(lists: seq<string>)
    ensures var (t, s) := ReceiveAll([], None, lists);
      t == ParseStored(s) <==> FirstListIsComplete(lists)
    decreases |lists|
  {
    if lists != [] {
      if lists[0] == "" {
        TasksMatchStoredList(lists[1..]);
      } else {
        var first := lists[0];
        TasksIffComma(first);
        ReceiveFixed(ParseTasks(first), Some(first), lists[1..]);
        assert forall l :: l in lists <==> l == first || l in lists[1..];
      }
    }
  }

  // ---------------------------------------------------------------- output

  datatype Chunk = Chunk(task: nat, text: string)

  function Append(tasks: seq<Task>, c: Chunk): seq<Task>
    requires c.task < |tasks|
  {
    tasks[c.task := tasks[c.task].(output := tasks[c.task].output + c.text)]
  }

  ghost predicate InRange(chunks: seq<Chunk>, n: nat) {
    forall i :: 0 <= i < |chunks| ==> chunks[i].task < n
  }

  function AppendAll(tasks: seq<Task>, chunks: seq<Chunk>): (r: seq<Task>)
    requires InRange(chunks, |tasks|)
    ensures |r| == |tasks|
    decreases |chunks|
  {
    if chunks == [] then tasks else AppendAll(Append(tasks, chunks[0]), chunks[1..])
  }

  /** Everything the chunks say to task `i`, in their order. */
  function Said(chunks: seq<Chunk>, i: nat): string
    decreases |chunks|
  {
    if chunks == [] then "" else (if chunks[0].task == i then chunks[0].text else "") + Said(chunks[1..], i)
  }

  lemma {:induction false} AppendAllAt(tasks: seq<Task>, chunks: seq<Chunk>, i: nat)
    requires InRange(chunks, |tasks|) && i < |tasks|
    ensures AppendAll(tasks, chunks)[i] == tasks[i].(output := tasks[i].output + Said(chunks, i))
    decreases |chunks|
  {
    if chunks != [] {
      AppendAllAt(Append(tasks, chunks[0]), chunks[1..], i);
      var text := if chunks[0].task == i then chunks[0].text else "";
      assert tasks[i].output + (text + Said(chunks[1..], i)) == (tasks[i].output + text) + Said(chunks[1..], i);
    }
  }

  /** Two deliveries leave the same task table exactly when they say the same to every task: how
      the tasks' messages interleave does not matter, the order within one task does. */
  lemma InterleavingIrrelevant(tasks: seq<Task>, a: seq<Chunk>, b: seq<Chunk>)
    requires InRange(a, |tasks|) && InRange(b, |tasks|)
    ensures AppendAll(tasks, a) == AppendAll(tasks, b) <==> SameSaid(a, b, |tasks|)
  {
    forall i | 0 <= i < |tasks|
      ensures AppendAll(tasks, a)[i] == AppendAll(tasks, b)[i] <==> Said(a, i) == Said(b, i)
    {
      SameSaidAt(tasks, a, b, i);
    }
    assert SameSaid(a, b, |tasks|) ==> AppendAll(tasks, a) == AppendAll(tasks, b);
  }

  ghost predicate SameSaid(a: seq<Chunk>, b: seq<Chunk>, n: nat) {
    forall i :: 0 <= i < n ==> Said(a, i) == Said(b, i)
  }

  lemma SameSaidAt(tasks: seq<Task>, a: seq<Chunk>, b: seq<Chunk>, i: nat)
    requires InRange(a, |tasks|) && InRange(b, |tasks|) && i < |tasks|
    ensures AppendAll(tasks, a)[i] == AppendAll(tasks, b)[i] <==> Said(a, i) == Said(b, i)
  {
    AppendAllAt(tasks, a, i);
    AppendAllAt(tasks, b, i);
    PrefixCancels(tasks[i].output, Said(a, i), Said(b, i));
  }

  lemma PrefixCancels(p: string, x: string, y: string)
    ensures p + x == p + y ==> x == y
  {
    assert x == (p + x)[|p|..] && y == (p + y)[|p|..];
  }

  // ---------------------------------------------------------------- all a job is told

  /** What messages tell a job about its tasks. */
  datatype Word = ServerList(servers: string) | Text(task: nat, text: string) | Command(task: nat, text: string)

  predicate Heeds(tasks: seq<Task>, w: Word) {
    w.ServerList? || w.task < |tasks|
  }

  function Hear(tasks: seq<Task>, stored: Option<string>, w: Word): (r: (seq<Task>, Option<string>))
    ensures Numbered(tasks) ==> Numbered(r.0)
    ensures tasks != [] ==> Slots(r.0) == Slots(tasks)
  {
    match w
    case ServerList(servers) => Receive(tasks, stored, servers)
    case Text(k, text) => if k < |tasks| then (Append(tasks, Chunk(k, text)), stored) else (tasks, stored)
    case Command(k, text) =>
      if k < |tasks| then (tasks[k := tasks[k].(cmdLine := Some(text))], stored) else (tasks, stored)
  }

  /** The task table and stored server list of a job that has been told the words, the last one last. */
  function HearAll(words: seq<Word>): (seq<Task>, Option<string>) {
    if words == [] then ([], None) else
      var (t, s) := HearAll(words[..|words| - 1]);
      Hear(t, s, words[|words| - 1])
  }

  /** Each word about a task found that task in the table. */
  predicate AllHeeded(words: seq<Word>) {
    words == [] ||
    (AllHeeded(words[..|words| - 1]) && Heeds(HearAll(words[..|words| - 1]).0, words[|words| - 1]))
  }

  function ListsIn(words: seq<Word>): seq<string> {
    if words == [] then [] else
      var w := words[|words| - 1];
      ListsIn(words[..|words| - 1]) + if w.ServerList? then [w.servers] else []
  }

  /** Everything said to task `k`, in order. */
  function SaidTo(words: seq<Word>, k: nat): string {
    if words == [] then "" else
      var w := words[|words| - 1];
      SaidTo(words[..|words| - 1], k) + if w.Text? && w.task == k then w.text else ""
  }

  function LastCommand(words: seq<Word>, k: nat): Option<string> {
    if words == [] then None else
      var w := words[|words| - 1];
      if w.Command? && w.task == k then Some(w.text) else LastCommand(words[..|words| - 1], k)
  }

  /** The tasks the server lists alone make. */
  function TableOf(words: seq<Word>): seq<Task> {
    ReceiveAll([], None, ListsIn(words)).0
  }

  /** Task `k` of the table with what it has been told. */
  function Told(words: seq<Word>, k: nat): Task
    requires k < |TableOf(words)|
  {
    TableOf(words)[k].(output := SaidTo(words, k), cmdLine := LastCommand(words, k))
  }

  lemma {:induction false} ReceiveAllSnoc(tasks: seq<Task>, stored: Option<string>, lists: seq<string>, l: string)
    ensures var (t, s) := ReceiveAll(tasks, stored, lists);
      ReceiveAll(tasks, stored, lists + [l]) == Receive(t, s, l)
    decreases |lists|
  {
    if lists == [] {
      assert [l][1..] == [];
    } else {
      var (t, s) := Receive(tasks, stored, lists[0]);
      ReceiveAllSnoc(t, s, lists[1..], l);
      assert (lists + [l])[1..] == lists[1..] + [l];
    }
  }

  /** The table as it should be after the words. */
  predicate AsTold(t: seq<Task>, words: seq<Word>) {
    |t| == |TableOf(words)| && forall k :: 0 <= k < |t| ==> t[k] == Told(words, k)
  }

  /** What one more word adds, on either side. */
  lemma OneMoreWord(before: seq<Word>, w: Word, k: nat)
    ensures var words, h := before + [w], HearAll(before);
      && HearAll(words) == Hear(h.0, h.1, w)
      && (AllHeeded(words) <==> AllHeeded(before) && Heeds(h.0, w))
      && ListsIn(words) == ListsIn(before) + (if w.ServerList? then [w.servers] else [])
      && SaidTo(words, k) == SaidTo(before, k) + (if w.Text? && w.task == k then w.text else "")
      && LastCommand(words, k) == if w.Command? && w.task == k then Some(w.text) else LastCommand(before, k)
  {
    assert (before + [w])[..|before|] == before;
  }

  /** Whatever a job is told, and in whatever order: its tasks are those its server lists make, each
      with everything said to it and the last command line it was given. */
  lemma {:induction false} HeardExactly(words: seq<Word>)
    requires AllHeeded(words)
    ensures AsTold(HearAll(words).0, words) && HearAll(words).1 == ReceiveAll([], None, ListsIn(words)).1
  {
    hide SaidTo, LastCommand, HearAll, AllHeeded, ListsIn, ReceiveAll, AsTold, Heeds;
    if words == [] {
      HeardNothing();
    } else {
      var before, w := words[..|words| - 1], words[|words| - 1];
      assert words == before + [w];
      OneMoreWord(before, w, 0);
      HeardExactly(before);
      if w.ServerList? { HeardList(before, w); } else { HeardWord(before, w); }
    }
  }

  lemma HeardNothing()
    ensures AsTold(HearAll([]).0, []) && HearAll([]).1 == ReceiveAll([], None, ListsIn([])).1
  {
  }

  lemma HeardList(before: seq<Word>, w: Word)
    requires AllHeeded(before) && w.ServerList? && AsTold(HearAll(before).0, before)
    requires HearAll(before).1 == ReceiveAll([], None, ListsIn(before)).1
    ensures var words := before + [w];
      AsTold(HearAll(words).0, words) && HearAll(words).1 == ReceiveAll([], None, ListsIn(words)).1
  {
    hide SaidTo, LastCommand, HearAll, ListsIn, ReceiveAll, ParseTasks;
    var words, t := before + [w], HearAll(before).0;
    OneMoreWord(before, w, 0);
    ReceiveAllSnoc([], None, ListsIn(before), w.servers);
    assert (TableOf(words), HearAll(words).1) == Receive(TableOf(before), HearAll(before).1, w.servers);
    forall k | 0 <= k < |TableOf(words)| ensures HearAll(words).0[k] == Told(words, k) {
      OneMoreWord(before, w, k);
      assert SaidTo(before, k) + "" == SaidTo(before, k);
      if t == [] { NothingSaid(before, k); } else { assert t[k] == Told(before, k); }
    }
  }

  lemma HeardWord(before: seq<Word>, w: Word)
    requires !w.ServerList? && Heeds(HearAll(before).0, w) && AsTold(HearAll(before).0, before)
    ensures var words := before + [w];
      AsTold(HearAll(words).0, words) && ListsIn(words) == ListsIn(before) && HearAll(words).1 == HearAll(before).1
  {
    hide SaidTo, LastCommand, HearAll, ListsIn, ReceiveAll, ParseTasks;
    var words, t := before + [w], HearAll(before).0;
    OneMoreWord(before, w, 0);
    assert ListsIn(before) + [] == ListsIn(before);
    assert TableOf(words) == TableOf(before);
    forall k | 0 <= k < |t| ensures HearAll(words).0[k] == Told(words, k) {
      OneMoreWord(before, w, k);
      assert t[k] == Told(before, k);
      assert SaidTo(before, k) + "" == SaidTo(before, k);
    }
  }

  /** As long as there are no tasks nothing is said to any. */
  lemma {:induction false} NothingSaid(words: seq<Word>, k: nat)
    requires AllHeeded(words) && HearAll(words).0 == []
    ensures SaidTo(words, k) == "" && LastCommand(words, k) == None
  {
    if words != [] {
      hide SaidTo, LastCommand;
      var before, w := words[..|words| - 1], words[|words| - 1];
      assert words == before + [w];
      OneMoreWord(before, w, k);
      NothingSaid(before, k);
    }
  }

  predicate Unsaid(tasks: seq<Task>) {
    forall k :: 0 <= k < |tasks| ==> tasks[k].output == "" && tasks[k].cmdLine == None
  }

  lemma {:induction false} ListedTables(tasks: seq<Task>, stored: Option<string>, lists: seq<string>)
    requires Unsaid(tasks)
    ensures Unsaid(ReceiveAll(tasks, stored, lists).0)
    decreases |lists|
  {
    if lists != [] {
      var (t, s) := Receive(tasks, stored, lists[0]);
      ListedTables(t, s, lists[1..]);
    }
  }

  /** Output and command lines between the server lists do not matter: the slots of the tasks are
      those of the stored list exactly when the first non-empty list names at least one pair, or no
      list ever does. */
  lemma SlotsMatchStoredList(words: seq<Word>)
    requires AllHeeded(words)
    ensures var (t, s) := HearAll(words);
      Slots(t) == Slots(ParseStored(s)) <==> FirstListIsComplete(ListsIn(words))
  {
    var (t, s) := HearAll(words);
    var table, parsed := TableOf(words), ParseStored(s);
    HeardExactly(words);
    TasksMatchStoredList(ListsIn(words));
    ListedTables([], None, ListsIn(words));
    assert Unsaid(table) && Unsaid(parsed);
    forall k | 0 <= k < |t| ensures Slot(t[k]) == Slot(table[k]) {}
    if Slots(t) == Slots(parsed) {
      assert |t| == |parsed|;
      forall k | 0 <= k < |t| ensures table[k] == parsed[k] {
        assert Slots(t)[k] == Slot(t[k]) && Slots(parsed)[k] == Slot(parsed[k]);
      }
      assert table == parsed;
    }
  }

  /** Of two jobs told the same server lists, one is as the other exactly when each task was told the
      same: how words to different tasks interleave does not matter. */
  lemma ToldAlike(a: seq<Word>, b: seq<Word>)
    requires AllHeeded(a) && AllHeeded(b) && ListsIn(a) == ListsIn(b)
    ensures HearAll(a) == HearAll(b) <==> SameTold(a, b, |TableOf(a)|)
  {
    HeardExactly(a);
    HeardExactly(b);
    var t, u := HearAll(a).0, HearAll(b).0;
    if HearAll(a) == HearAll(b) {
      forall k | 0 <= k < |TableOf(a)|
        ensures SaidTo(a, k) == SaidTo(b, k) && LastCommand(a, k) == LastCommand(b, k)
      {
        assert t[k] == u[k];
      }
    }
    if SameTold(a, b, |TableOf(a)|) {
      assert t == u;
    }
  }

  ghost predicate SameTold(a: seq<Word>, b: seq<Word>, n: nat) {
    forall k :: 0 <= k < n ==> SaidTo(a, k) == SaidTo(b, k) && LastCommand(a, k) == LastCommand(b, k)
  }

  /** The whole output: the tasks' outputs one after the other. */
  function Output(tasks: seq<Task>): string {
    if tasks == [] then "" else tasks[0].output + Output(tasks[1..])
  }

  lemma {:induction false} OutputSnoc(tasks: seq<Task>, t: Task)
    ensures Output(tasks + [t]) == Output(tasks) + t.output && Output([]) == ""
  {
    if tasks == [] {
      assert [t][1..] == [];
    } else {
      OutputSnoc(tasks[1..], t);
      assert (tasks + [t])[1..] == tasks[1..] + [t];
    }
  }

  // ---------------------------------------------------------------- the job object

  /** What every `job` message refreshes and nothing in the client interprets. */
  datatype Details = Details(nprocs: string, input: string, output: string, log: string, submitDate: string,
    mpiOwner: string, mpiFlavor: string, flowId: string, snapshotTitle: string, snapshotId: string,
    description: string, jobCounter: string)

  /** What is written only when the client first hears of a job from the maestro. */
  datatype Origin = Origin(maestroAddress: string, hostname: string, title: string, nice: string,
    group: string, groupType: string, speed: string)

  /** Task `i` is fraction `i + 1`. */
  predicate Numbered(tasks: seq<Task>) {
    forall i :: 0 <= i < |tasks| ==> tasks[i].frac == i + 1
  }

  /** Task tables as a job holds them. */
  type TaskTable = t: seq<Task> | Numbered(t) witness []

  /** A job at a moment, as a value. */
  datatype JobState = JobState(runId: string, status: Status, queue: string, isFake: bool, tasks: TaskTable,
    serverList: Option<string>, details: Option<Details>, origin: Option<Origin>, issues: Option<string>,
    startDate: Option<string>, finishDate: Option<string>)

  /** A job as it is made, before anything is known of it. */
  function NewState(id: string, queue: string): JobState {
    JobState(id, Initial, queue, true, [], None, None, None, None, None, None)
  }

  function Named(j: JobState, id: string): JobState {
    j.(runId := id, isFake := false)
  }

  /** A status that came with a moment: running restarts the clock, stopping ends it. */
  function Dated(j: JobState, s: Status, date: string): JobState {
    j.(status := s,
       startDate := if s == Running then Some(date) else j.startDate,
       finishDate := if s == Running || Stopped(s) then Some(date) else j.finishDate)
  }

  function Hearing(j: JobState, w: Word): JobState {
    var (t, stored) := Hear(j.tasks, j.serverList, w);
    j.(tasks := t, serverList := stored)
  }

  class GebrJob {
    var runId: string
    var status: Status
    var queue: string
    var isFake: bool
    var tasks: TaskTable
    var serverList: Option<string>
    var details: Option<Details>
    var origin: Option<Origin>
    var issues: Option<string>
    var startDate: Option<string>
    var finishDate: Option<string>

    function State(): (r: JobState)
      reads this
      ensures r.runId == runId && r.status == status && r.tasks == tasks
    {
      JobState(runId, status, queue, isFake, tasks, serverList, details, origin, issues, startDate, finishDate)
    }

    constructor (id: string, queue: string)
      ensures State() == NewState(id, queue)
      ensures runId == id && this.queue == queue && isFake && status == Initial
      ensures tasks == [] && serverList == None && issues == None && startDate == None && finishDate == None
    {
      runId, status, this.queue, isFake := id, Initial, queue, true;
      tasks, serverList := [], None;
      details, origin, issues, startDate, finishDate := None, None, None, None, None;
    }

    /** Both setters a `job` message calls with its server list. */
    method SetServerLists(servers: string)
      modifies this`tasks, this`serverList
      ensures (tasks, serverList) == Receive(old(tasks), old(serverList), servers)
      ensures State() == Hearing(old(State()), ServerList(servers))
    {
      SetServers(servers);
      if serverList.None? && servers != "" {
        serverList := Some(servers);
      }
    }

    method SetServers(servers: string)
      modifies this`tasks
      ensures tasks == if old(tasks) != [] then old(tasks) else ParseTasks(servers)
    {
      if tasks != [] { return; }
      var split := Split(servers, ',');
      var nServers := 0;
      while nServers < |split|
        invariant nServers <= |split| && tasks == []
      {
        nServers := nServers + 1;
      }
      nServers := nServers / 2;
      for i := 0 to nServers
        invariant nServers == |split| / 2 && |tasks| == i
        invariant tasks == ParseTasks(servers)[..i]
      {
        tasks := tasks + [Task(split[i * 2], split[i * 2 + 1], None, i + 1, "")];
      }
    }

    method SetRunId(id: string)
      modifies this`runId, this`isFake
      ensures runId == id && !isFake && State() == Named(old(State()), id)
    {
      runId := id;
      isFake := false;
    }

    method SetStatus(s: Status, date: string)
      modifies this`status, this`startDate, this`finishDate
      ensures status == s
      ensures startDate == if s == Running then Some(date) else old(startDate)
      ensures finishDate == if s == Running || Stopped(s) then Some(date) else old(finishDate)
      ensures State() == Dated(old(State()), s, date)
    {
      status := s;
      match s
      case Running =>
        startDate := Some(date);
        finishDate := Some(date);
      case Canceled => finishDate := Some(date);
      case Failed => finishDate := Some(date);
      case Finished => finishDate := Some(date);
      case _ =>
    }

    method SetCmdLine(frac: int, cmd: string)
      requires 0 <= frac < |tasks|
      modifies this`tasks
      ensures tasks == old(tasks)[frac := old(tasks)[frac].(cmdLine := Some(cmd))]
      ensures Slots(tasks) == Slots(old(tasks)) && State() == Hearing(old(State()), Command(frac, cmd))
    {
      tasks := tasks[frac := tasks[frac].(cmdLine := Some(cmd))];
    }

    method AppendOutput(frac: int, text: string)
      requires 0 <= frac < |tasks|
      modifies this`tasks
      ensures tasks == Append(old(tasks), Chunk(frac, text))
      ensures Slots(tasks) == Slots(old(tasks)) && State() == Hearing(old(State()), Text(frac, text))
    {
      tasks := tasks[frac := tasks[frac].(output := tasks[frac].output + text)];
    }

    method GetOutput() returns (output: string)
      ensures output == Output(tasks)
    {
      output := "";
      for i := 0 to |tasks|
        invariant output == Output(tasks[..i])
      {
        OutputSnoc(tasks[..i], tasks[i]);
        assert tasks[..i + 1] == tasks[..i] + [tasks[i]];
        output := output + tasks[i].output;
      }
      assert tasks[..|tasks|] == tasks;
    }
  }
}
