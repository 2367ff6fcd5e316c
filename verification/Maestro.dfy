/**
 The client's view of a maestro as the program keeps it (gebr/gebr-maestro-server.c,
 gebr/gebr-daemon-server.c): tables of job objects, rows that share them, and machines, all changed
 in place by messages.

 Every method is proved to do to the objects what the functions of Protocol do to their values.
 */
module Maestro {
  import opened Strings
  import opened Job
  import opened Protocol

  // ---------------------------------------------------------------- daemons

  class DaemonServer {
    const address: string
    var hostname: string
    var state: string
    var tags: seq<string>
    var ncores: int
    var mpiFlavors: Option<string>

    function State(): (r: Machine)
      reads this
      ensures r.address == address
    {
      Machine(address, hostname, state, tags, ncores, mpiFlavors)
    }

    constructor (address: string, state: string)
      ensures State() == Machine(address, "", state, [], 0, None)
    {
      this.address, this.state := address, state;
      hostname, tags, ncores, mpiFlavors := "", [], 0, None;
    }

    predicate IsAutochoose() { address == "" }

    /** The tags are prepended one by one, so the list is kept backwards. */
    method SetTags(tagsv: seq<string>)
      modifies this`tags
      ensures State() == old(State()).(tags := Reverse(tagsv))
    {
      tags := [];
      for i := 0 to |tagsv|
        invariant tags == Reverse(tagsv[..i])
      {
        ReverseSnoc(tagsv[..i], tagsv[i]);
        assert tagsv[..i + 1] == tagsv[..i] + [tagsv[i]];
        tags := [tagsv[i]] + tags;
      }
      assert tagsv[..|tagsv|] == tagsv;
    }

    /** No tag at all, or the empty one, is carried by everybody. */
    method HasTag(tag: string) returns (has: bool)
      ensures has == (tag == "" || tag in tags)
    {
      if tag == "" { return true; }
      for i := 0 to |tags|
        invariant tag !in tags[..i]
      {
        if tags[i] == tag { return true; }
      }
      has := false;
    }

    predicate AcceptsMpi(flavor: string)
      reads this`mpiFlavors
    {
      mpiFlavors.Some? && flavor in Split(mpiFlavors.value, ',')
    }
  }

  // ---------------------------------------------------------------- objects and their values

  function StatesOf(m: map<string, GebrJob>): (r: map<string, JobState>)
    reads m.Values
    ensures forall id :: id in m <==> id in r
    ensures forall id :: id in m ==> r[id] == m[id].State()
  {
    map id | id in m :: m[id].State()
  }

  /** The rows by job id; null is the row "Immediately". */
  function RowIds(rows: seq<GebrJob?>): (r: seq<Option<string>>)
    reads rows
    ensures |r| == |rows|
    ensures forall i :: 0 <= i < |rows| ==> r[i] == if rows[i] == null then None else Some(rows[i].runId)
  {
    seq(|rows|, i requires 0 <= i < |rows| reads rows => if rows[i] == null then None else Some(rows[i].runId))
  }

  function MachinesOf(ds: seq<DaemonServer>): (r: seq<Machine>)
    reads ds
    ensures |r| == |ds| && forall i :: 0 <= i < |ds| ==> r[i] == ds[i].State()
  {
    seq(|ds|, i requires 0 <= i < |ds| reads ds => ds[i].State())
  }

  twostate lemma StatesSame(m: map<string, GebrJob>)
    requires forall id :: id in m ==> m[id].State() == old(m[id].State())
    ensures StatesOf(m) == old(StatesOf(m))
  {
    hide GebrJob.State;
  }

  twostate lemma RowIdsSame(rows: seq<GebrJob?>)
    requires forall j: GebrJob :: j in rows ==> j.runId == old(j.runId)
    ensures RowIds(rows) == old(RowIds(rows))
  {
    forall i | 0 <= i < |rows| ensures RowIds(rows)[i] == old(RowIds(rows))[i] {
      if rows[i] != null { assert rows[i] in rows; }
    }
  }

  /** A list without the element at a place. */
  function Cut<T>(l: seq<T>, k: nat): (r: seq<T>)
    requires k < |l|
    ensures |r| == |l| - 1 && forall i :: 0 <= i < |r| ==> r[i] == l[if i < k then i else i + 1]
    ensures r == l[..k] + l[k + 1..] && forall x :: x in r ==> x in l
  {
    l[..k] + l[k + 1..]
  }

  // ---------------------------------------------------------------- the server object

  class GebrMaestroServer {
    const session: string
    var jobs: map<string, GebrJob>
    var tempJobs: map<string, GebrJob>
    var queues: seq<GebrJob?>
    var store: seq<DaemonServer>
    var groups: seq<GroupRow>
    var messages: seq<Message>
    /** The counter the temporary ids come from. */
    var nextTemp: nat
    ghost var handled: seq<Message>
    ghost var announced: bool
    ghost var pool: set<GebrJob>
    ghost var machines: set<DaemonServer>

    // ------------------------------------------------------------ invariants

    predicate Real(j: GebrJob)
      reads `jobs, j
    {
      j.runId in jobs && jobs[j.runId] == j
    }

    /** Keys are run ids, the tables share no object under a key, and the rows share the objects of
        the real jobs. */
    ghost predicate Linked()
      reads `jobs, `tempJobs, `queues, `pool, pool
    {
      && (forall id :: id in jobs ==> jobs[id] in pool && jobs[id].runId == id)
      && (forall id :: id in tempJobs ==> tempJobs[id] in pool && tempJobs[id].runId == id)
      && (forall id :: id in tempJobs && id in jobs ==> jobs[id] != tempJobs[id])
      && (forall j: GebrJob :: j in queues ==> j in pool && Real(j))
    }

    /** So no job object is in both tables. */
    lemma TablesDisjoint()
      requires Linked()
      ensures jobs.Values !! tempJobs.Values
    {
    }

    ghost predicate Known()
      reads `store, `machines
    {
      forall i :: 0 <= i < |store| ==> store[i] in machines
    }

    ghost function BoardView(): Board
      reads `jobs, `tempJobs, `queues, jobs.Values, tempJobs.Values, queues
    {
      Board(StatesOf(jobs), StatesOf(tempJobs), RowIds(queues))
    }

    ghost function RosterView(): Roster
      reads `store, `groups, `announced, store
    {
      Roster(MachinesOf(store), groups, announced)
    }

    ghost function View(): Client
      reads this, jobs.Values, tempJobs.Values, queues, store
    {
      Client(BoardView(), RosterView(), messages, handled, nextTemp)
    }

    ghost predicate Valid()
      reads this, pool, machines, jobs.Values, tempJobs.Values, queues, store
    {
      Linked() && Known() && Sound(View(), session)
    }

    /** What job methods need of the rows. */
    ghost predicate BoardOk()
      reads `jobs, `tempJobs, `queues, `pool, pool, queues
    {
      Linked() && NoRepeats(RowIds(queues))
    }

    ghost predicate RosterOk()
      reads `store, `machines, store
    {
      Known() && DistinctAddresses(MachinesOf(store))
    }

    /** The real jobs are the objects they were. */
    twostate predicate SameObjects()
      reads `jobs
    {
      forall id :: id in old(jobs) ==> id in jobs && jobs[id] == old(jobs[id])
    }

    function AllJobs(): set<GebrJob>
      reads `jobs, `tempJobs
    {
      jobs.Values + tempJobs.Values
    }

    constructor (session: string)
      ensures Valid() && View() == START && this.session == session
      ensures fresh(machines) && fresh(pool)
      ensures queues == [null] && |store| == 1 && store[0].IsAutochoose()
    {
      this.session := session;
      jobs, tempJobs, queues, groups, messages := map[], map[], [null], [], [];
      pool, announced, handled, nextTemp := {}, false, [], 0;
      var autochoose := new DaemonServer("", "logged");
      store, machines := [autochoose], {autochoose};
      new;
      StartSound(session);
      assert MachinesOf(store) == [Machine("", "", "logged", [], 0, None)];
      assert RowIds(queues) == [None];
      assert View() == START;
    }

    // ------------------------------------------------------------ jobs

    /** The row of the job, or the number of rows. */
    method FindRow(job: GebrJob) returns (found: nat)
      ensures found <= |queues| && (found < |queues| <==> job in queues)
      ensures found < |queues| ==> queues[found] == job
    {
      found := 0;
      while found < |queues| && queues[found] != job
        invariant found <= |queues| && job !in queues[..found]
      {
        found := found + 1;
      }
    }

    method UpdateQueues(job: GebrJob)
      requires BoardOk() && Real(job)
      modifies `queues
      ensures BoardOk()
      ensures BoardView() == old(BoardView()).(queues := NextRows(old(BoardView()).queues, job.runId, job.status))
    {
      hide StatesOf, GebrJob.State, BoardOk;
      Requeue(job);
    }

    method Requeue(job: GebrJob)
      requires BoardOk() && Real(job)
      modifies `queues
      ensures BoardOk() && RowIds(queues) == NextRows(old(RowIds(queues)), job.runId, job.status)
    {
      var found := FindRow(job);
      var hasJob := found < |queues|;
      RowOfJob(job);
      match job.status
      case Canceled => if hasJob { DropRow(job, found); }
      case Finished => if hasJob { DropRow(job, found); }
      case Failed => if hasJob { DropRow(job, found); }
      case Running => if !hasJob { AddRow(job); }
      case Queued => if !hasJob { AddRow(job); }
      case _ =>
    }

    /** A job has a row exactly when its id has one. */
    lemma RowOfJob(job: GebrJob)
      requires BoardOk() && Real(job)
      ensures job in queues <==> Some(job.runId) in RowIds(queues)
      ensures job !in queues ==> WithoutId(RowIds(queues), job.runId) == RowIds(queues)
    {
      if Some(job.runId) in RowIds(queues) {
        var i :| 0 <= i < |queues| && RowIds(queues)[i] == Some(job.runId);
        assert queues[i] in queues;
      }
      if job in queues {
        var i :| 0 <= i < |queues| && queues[i] == job;
        assert RowIds(queues)[i] == Some(job.runId);
      } else {
        WithoutMissingId(RowIds(queues), job.runId);
      }
    }

    method DropRow(job: GebrJob, found: nat)
      requires BoardOk() && found < |queues| && queues[found] == job
      modifies `queues
      ensures BoardOk() && RowIds(queues) == WithoutId(old(RowIds(queues)), job.runId)
    {
      hide GebrJob.State, NoRepeats;
      ghost var rows := RowIds(queues);
      WithoutIdAt(rows, job.runId, found);
      WithoutIdKeeps(rows, job.runId);
      queues := Cut(queues, found);
      assert RowIds(queues) == Cut(rows, found);
    }

    method AddRow(job: GebrJob)
      requires BoardOk() && Real(job) && Some(job.runId) !in RowIds(queues)
      modifies `queues
      ensures BoardOk() && RowIds(queues) == old(RowIds(queues)) + [Some(job.runId)]
    {
      queues := queues + [job];
      assert RowIds(queues) == old(RowIds(queues)) + [Some(job.runId)];
    }

    // ------------------------------------------------------------ messages about jobs

    /** One real job has changed and nothing else. */
    twostate lemma OneJob(id: string)
      requires old(BoardOk()) && id in jobs && jobs == old(jobs) && tempJobs == old(tempJobs) && queues == old(queues)
      requires pool == old(pool) && jobs[id].runId == id
      requires forall j :: j in old(pool) && j != jobs[id] ==> j.State() == old(j.State())
      ensures BoardOk() && BoardView() == Put(old(BoardView()), id, jobs[id].State())
    {
      hide Linked, StatesOf, RowIds, NoRepeats, GebrJob.State;
      OneJobLinked(id);
      OneJobValues(id);
    }

    twostate lemma OneJobLinked(id: string)
      requires old(BoardOk()) && id in jobs && jobs == old(jobs) && tempJobs == old(tempJobs) && queues == old(queues)
      requires pool == old(pool) && jobs[id].runId == id
      requires forall j :: j in old(pool) && j != jobs[id] ==> j.State() == old(j.State())
      ensures Linked()
    {
      hide StatesOf, RowIds, GebrJob.State;
    }

    twostate lemma OneJobValues(id: string)
      requires old(BoardOk()) && id in jobs && jobs == old(jobs) && tempJobs == old(tempJobs) && queues == old(queues)
      requires pool == old(pool) && jobs[id].runId == id
      requires forall j :: j in old(pool) && j != jobs[id] ==> j.State() == old(j.State())
      ensures StatesOf(jobs) == old(StatesOf(jobs))[id := jobs[id].State()]
      ensures StatesOf(tempJobs) == old(StatesOf(tempJobs)) && RowIds(queues) == old(RowIds(queues))
    {
      hide RowIds, GebrJob.State;
      StatesSame(tempJobs);
      RowIdsSame(queues);
    }

    /** What the view says of an id. */
    lemma ViewOf(id: string)
      requires Linked()
      ensures id in BoardView().jobs <==> id in jobs
      ensures id in BoardView().temps <==> id in tempJobs
      ensures id in jobs ==> jobs[id] in pool && jobs[id].runId == id && BoardView().jobs[id] == jobs[id].State()
    {
    }

    method HandleIssues(id: string, issues: string) returns (r: Outcome)
      requires BoardOk()
      modifies pool
      ensures BoardOk() && (BoardView(), r) == NoteIssues(old(BoardView()), id, issues)
      ensures forall j :: j in pool && (id !in jobs || j != jobs[id]) ==> unchanged(j)
    {
      hide BoardView, Linked, StatesOf, RowIds, NextRows, NoRepeats, Hearing;
      ViewOf(id);
      if id !in jobs { return Undefined; }
      jobs[id].issues := Some(issues);
      OneJob(id);
      r := Fine;
    }

    method HandleStatus(id: string, s: Status, parameter: string) returns (r: Outcome)
      requires BoardOk()
      modifies `queues, pool
      ensures BoardOk() && (BoardView(), r) == ChangeStatus(old(BoardView()), id, s, parameter)
      ensures forall j :: j in pool && (id !in jobs || j != jobs[id]) ==> unchanged(j)
    {
      hide BoardView, Linked, StatesOf, RowIds, NextRows, NoRepeats, Hearing, GebrJob.State;
      ViewOf(id);
      if id !in jobs { return Undefined; }
      jobs[id].SetStatus(s, parameter);
      OneJob(id);
      UpdateQueues(jobs[id]);
      r := Fine;
    }

    method HandleOutput(id: string, frac: int, text: string) returns (r: Outcome)
      requires BoardOk()
      modifies pool
      ensures BoardOk() && (BoardView(), r) == TellTask(old(BoardView()), id, frac, OutputOf(id, frac, text))
      ensures r == if id in jobs && 0 < frac <= |old(jobs[id].tasks)| then Fine else Undefined
      ensures forall j :: j in pool && (id !in jobs || j != jobs[id]) ==> unchanged(j)
    {
      hide BoardView, Linked, StatesOf, RowIds, NextRows, NoRepeats, Hearing, GebrJob.State;
      ViewOf(id);
      if id !in jobs || !(0 <= frac - 1 < |jobs[id].tasks|) { return Undefined; }
      var job := jobs[id];
      job.AppendOutput(frac - 1, text);
      OneJob(id);
      r := Fine;
    }

    method HandleCmdLine(id: string, frac: int, cmd: string) returns (r: Outcome)
      requires BoardOk()
      modifies pool
      ensures BoardOk() && (BoardView(), r) == TellTask(old(BoardView()), id, frac, CmdLine(id, frac, cmd))
      ensures r == if id in jobs && 0 < frac <= |old(jobs[id].tasks)| then Fine else Undefined
      ensures forall j :: j in pool && (id !in jobs || j != jobs[id]) ==> unchanged(j)
    {
      hide BoardView, Linked, StatesOf, RowIds, NextRows, NoRepeats, Hearing, GebrJob.State;
      ViewOf(id);
      if id !in jobs || !(0 <= frac - 1 < |jobs[id].tasks|) { return Undefined; }
      var job := jobs[id];
      job.SetCmdLine(frac - 1, cmd);
      OneJob(id);
      r := Fine;
    }

    /** A `job` message. The flag says whether the interface is told to (re)define the job. */
    method HandleJob(m: Message) returns (define: bool)
      requires BoardOk() && m.JobDefine?
      modifies `jobs, `tempJobs, `queues, `pool, pool
      ensures BoardOk() && SameObjects() && fresh(pool - old(pool)) && old(pool) <= pool
      ensures BoardView() == Define(old(BoardView()), m) && m.id in jobs
      ensures define == (m.id !in old(jobs) || m.queue != old(jobs[m.id].queue))
      ensures m.id !in old(jobs) && m.tempId in old(tempJobs) ==>
        jobs[m.id] == old(tempJobs[m.tempId]) && AllJobs() == old(AllJobs())
      ensures forall j :: j in old(pool) && j != jobs[m.id] ==> unchanged(j)
    {
      hide Define, BoardView, NoRepeats, AllJobs;
      if m.id in jobs {
        define := HandleKnown(m);
      } else if m.tempId in tempJobs {
        HandlePromotion(m);
        define := true;
      } else {
        HandleNew(m);
        define := true;
      }
    }

    method HandleKnown(m: Message) returns (define: bool)
      requires BoardOk() && m.JobDefine? && m.id in jobs
      modifies `queues, jobs[m.id]
      ensures BoardOk() && define == (m.queue != old(jobs[m.id].queue))
      ensures BoardView() == Define(old(BoardView()), m)
    {
      hide NextRows, GebrJob.State, StatesOf, RowIds, NoRepeats;
      define := Refresh(jobs[m.id], m);
      OneJob(m.id);
      UpdateQueues(jobs[m.id]);
    }

    method HandleNew(m: Message)
      requires BoardOk() && m.JobDefine? && m.id !in jobs && m.tempId !in tempJobs
      modifies `jobs, `queues, `pool
      ensures BoardOk() && SameObjects() && m.id in jobs && fresh(jobs[m.id]) && pool == old(pool) + {jobs[m.id]}
      ensures BoardView() == Define(old(BoardView()), m)
    {
      hide NextRows, GebrJob.State, Arrived, BoardView, NoRepeats, RowIds, Linked, Define, Defined;
      ViewOf(m.id);
      ViewOf(m.tempId);
      NewIsDefined(BoardView(), m);
      var job := Enter(m);
      UpdateQueues(job);
    }

    lemma NewIsDefined(b: Board, m: Message)
      requires m.JobDefine? && m.id !in b.jobs && m.tempId !in b.temps
      ensures Define(b, m) == Put(b, m.id, Arrived(m)).(queues := NextRows(b.queues, m.id, m.status))
    {
    }

    method Enter(m: Message) returns (job: GebrJob)
      requires BoardOk() && m.JobDefine? && m.id !in jobs
      modifies `jobs, `pool
      ensures BoardOk() && Real(job) && fresh(job) && pool == old(pool) + {job}
      ensures jobs == old(jobs)[m.id := job] && job.status == m.status && job.runId == m.id
      ensures BoardView() == Put(old(BoardView()), m.id, Arrived(m))
    {
      hide GebrJob.State, Arrived, RowIds, StatesOf, NoRepeats;
      job := NewJob(m);
      pool := pool + {job};
      jobs := jobs[m.id := job];
      EntryAdded(m.id);
    }

    /** One more real job, and nothing else. */
    twostate lemma EntryAdded(id: string)
      requires old(BoardOk()) && id in jobs && id !in old(jobs) && jobs == old(jobs)[id := jobs[id]]
      requires tempJobs == old(tempJobs) && queues == old(queues)
      requires pool == old(pool) + {jobs[id]} && jobs[id] !in old(pool) && jobs[id].runId == id
      requires forall j :: j in old(pool) ==> j.State() == old(j.State())
      ensures BoardOk() && BoardView() == Put(old(BoardView()), id, jobs[id].State())
    {
      hide Linked, StatesOf, RowIds, NoRepeats, GebrJob.State;
      EntryAddedLinked(id);
      EntryAddedValues(id);
    }

    twostate lemma EntryAddedLinked(id: string)
      requires old(BoardOk()) && id in jobs && id !in old(jobs) && jobs == old(jobs)[id := jobs[id]]
      requires tempJobs == old(tempJobs) && queues == old(queues)
      requires pool == old(pool) + {jobs[id]} && jobs[id] !in old(pool) && jobs[id].runId == id
      requires forall j :: j in old(pool) ==> j.State() == old(j.State())
      ensures Linked()
    {
      hide StatesOf, RowIds, GebrJob.State;
    }

    twostate lemma EntryAddedValues(id: string)
      requires old(BoardOk()) && id in jobs && id !in old(jobs) && jobs == old(jobs)[id := jobs[id]]
      requires tempJobs == old(tempJobs) && queues == old(queues)
      requires pool == old(pool) + {jobs[id]} && jobs[id] !in old(pool) && jobs[id].runId == id
      requires forall j :: j in old(pool) ==> j.State() == old(j.State())
      ensures StatesOf(jobs) == old(StatesOf(jobs))[id := jobs[id].State()]
      ensures StatesOf(tempJobs) == old(StatesOf(tempJobs)) && RowIds(queues) == old(RowIds(queues))
    {
      hide RowIds, GebrJob.State;
      StatesSame(tempJobs);
      RowIdsSame(queues);
    }

    method HandlePromotion(m: Message)
      requires BoardOk() && m.JobDefine? && m.id !in jobs && m.tempId in tempJobs
      modifies `jobs, `tempJobs, `queues, tempJobs[m.tempId]
      ensures BoardOk() && SameObjects()
      ensures jobs == old(jobs)[m.id := old(tempJobs[m.tempId])] && AllJobs() == old(AllJobs())
      ensures BoardView() == Define(old(BoardView()), m)
    {
      hide NextRows, GebrJob.State, StatesOf, RowIds, NoRepeats;
      var job := tempJobs[m.tempId];
      Promote(m.tempId, m.id);
      var requeued := Refresh(job, m);
      EntryMoved(m);
      UpdateQueues(job);
    }

    /** One job has changed tables, and nothing else. */
    twostate lemma EntryMoved(m: Message)
      requires m.JobDefine? && old(BoardOk()) && m.tempId in old(tempJobs) && m.id !in old(jobs)
      requires jobs == old(jobs)[m.id := old(tempJobs[m.tempId])] && tempJobs == old(tempJobs) - {m.tempId}
      requires queues == old(queues) && pool == old(pool) && jobs[m.id].runId == m.id
      requires forall j :: j in old(pool) && j != jobs[m.id] ==> j.State() == old(j.State())
      ensures BoardOk()
      ensures BoardView() == (var b := old(BoardView());
        Board(b.jobs[m.id := jobs[m.id].State()], b.temps - {m.tempId}, b.queues))
    {
      hide Linked, StatesOf, RowIds, NoRepeats, GebrJob.State;
      EntryMovedLinked(m);
      EntryMovedValues(m);
    }

    twostate lemma EntryMovedLinked(m: Message)
      requires m.JobDefine? && old(BoardOk()) && m.tempId in old(tempJobs) && m.id !in old(jobs)
      requires jobs == old(jobs)[m.id := old(tempJobs[m.tempId])] && tempJobs == old(tempJobs) - {m.tempId}
      requires queues == old(queues) && pool == old(pool) && jobs[m.id].runId == m.id
      requires forall j :: j in old(pool) && j != jobs[m.id] ==> j.State() == old(j.State())
      ensures Linked()
    {
      hide StatesOf, RowIds, GebrJob.State;
    }

    twostate lemma EntryMovedValues(m: Message)
      requires m.JobDefine? && old(BoardOk()) && m.tempId in old(tempJobs) && m.id !in old(jobs)
      requires jobs == old(jobs)[m.id := old(tempJobs[m.tempId])] && tempJobs == old(tempJobs) - {m.tempId}
      requires queues == old(queues) && pool == old(pool) && jobs[m.id].runId == m.id
      requires forall j :: j in old(pool) && j != jobs[m.id] ==> j.State() == old(j.State())
      ensures StatesOf(jobs) == old(StatesOf(jobs))[m.id := jobs[m.id].State()]
      ensures StatesOf(tempJobs) == old(StatesOf(tempJobs)) - {m.tempId} && RowIds(queues) == old(RowIds(queues))
    {
      hide RowIds, StatesOf, GebrJob.State, Linked, NoRepeats;
      EntryLeft(m);
      EntryCame(m);
      RowsStayed(m);
    }

    twostate lemma RowsStayed(m: Message)
      requires m.JobDefine? && old(BoardOk()) && m.tempId in old(tempJobs) && m.id !in old(jobs)
      requires jobs == old(jobs)[m.id := old(tempJobs[m.tempId])] && tempJobs == old(tempJobs) - {m.tempId}
      requires queues == old(queues) && pool == old(pool) && jobs[m.id].runId == m.id
      requires forall j :: j in old(pool) && j != jobs[m.id] ==> j.State() == old(j.State())
      ensures RowIds(queues) == old(RowIds(queues))
    {
      hide StatesOf, GebrJob.State;
      RowIdsSame(queues);
    }

    twostate lemma EntryCame(m: Message)
      requires m.JobDefine? && old(BoardOk()) && m.tempId in old(tempJobs) && m.id !in old(jobs)
      requires jobs == old(jobs)[m.id := old(tempJobs[m.tempId])] && tempJobs == old(tempJobs) - {m.tempId}
      requires queues == old(queues) && pool == old(pool) && jobs[m.id].runId == m.id
      requires forall j :: j in old(pool) && j != jobs[m.id] ==> j.State() == old(j.State())
      ensures StatesOf(jobs) == old(StatesOf(jobs))[m.id := jobs[m.id].State()]
    {
      hide RowIds, GebrJob.State, StatesOf, NoRepeats, Linked;
      OthersSame(m);
    }

    twostate lemma OthersSame(m: Message)
      requires m.JobDefine? && old(Linked()) && m.tempId in old(tempJobs)
      requires forall j :: j in old(pool) && j != old(tempJobs[m.tempId]) ==> j.State() == old(j.State())
      ensures forall id :: id in old(jobs) ==> old(jobs)[id].State() == old(jobs[id].State())
    {
      hide GebrJob.State;
    }

    twostate lemma EntryLeft(m: Message)
      requires m.JobDefine? && old(BoardOk()) && m.tempId in old(tempJobs) && m.id !in old(jobs)
      requires jobs == old(jobs)[m.id := old(tempJobs[m.tempId])] && tempJobs == old(tempJobs) - {m.tempId}
      requires queues == old(queues) && pool == old(pool) && jobs[m.id].runId == m.id
      requires forall j :: j in old(pool) && j != jobs[m.id] ==> j.State() == old(j.State())
      ensures StatesOf(tempJobs) == old(StatesOf(tempJobs)) - {m.tempId}
    {
      hide RowIds, GebrJob.State;
    }

    /** A temporary job gets its real id and changes tables. */
    method Promote(tempId: string, id: string)
      requires Linked() && tempId in tempJobs && id !in jobs
      modifies `jobs, `tempJobs, tempJobs[tempId]
      ensures jobs == old(jobs)[id := old(tempJobs[tempId])] && tempJobs == old(tempJobs) - {tempId}
      ensures jobs[id].State() == Named(old(tempJobs[tempId].State()), id)
      ensures AllJobs() == old(AllJobs()) && Linked() && SameObjects()
    {
      var job := tempJobs[tempId];
      MoveKeepsValues(jobs, tempJobs, id, tempId);
      tempJobs := tempJobs - {tempId};
      job.SetRunId(id);
      jobs := jobs[id := job];
    }

    /** Called by the interface when the user submits a flow. */
    method AddTemporaryJob(job: GebrJob)
      requires Linked() && job !in pool
      modifies `tempJobs, `pool
      ensures Linked() && pool == old(pool) + {job} && tempJobs == old(tempJobs)[job.runId := job]
      ensures BoardView() == old(BoardView()).(temps := old(BoardView()).temps[job.runId := job.State()])
      ensures old(AllJobs()) <= AllJobs() <==> job.runId !in old(tempJobs)
    {
      hide BoardView, GebrJob.State, StatesOf, RowIds, Linked;
      LosesNone(job);
      tempJobs := tempJobs[job.runId := job];
      pool := pool + {job};
      TempLinked(job.runId);
      TempAdded(job.runId);
    }

    /** Making an object elsewhere changes nothing here. */
    twostate lemma BoardSame()
      requires old(Linked()) && unchanged(this) && forall j :: j in old(pool) ==> unchanged(j)
      ensures Linked() && BoardView() == old(BoardView())
    {
      hide GebrJob.State;
      StatesSame(jobs);
      StatesSame(tempJobs);
      RowIdsSame(queues);
    }

    twostate lemma TempLinked(id: string)
      requires old(Linked()) && id in tempJobs && tempJobs[id].runId == id
      requires tempJobs == old(tempJobs)[id := tempJobs[id]]
      requires jobs == old(jobs) && queues == old(queues)
      requires pool == old(pool) + {tempJobs[id]} && tempJobs[id] !in old(pool)
      requires forall j :: j in old(pool) ==> j.State() == old(j.State())
      ensures Linked()
    {
      hide GebrJob.State;
    }

    lemma LosesNone(job: GebrJob)
      requires Linked() && job !in pool
      ensures AllJobs() <= jobs.Values + tempJobs[job.runId := job].Values <==> job.runId !in tempJobs
    {
      hide GebrJob.State;
      TablesDisjoint();
      InsertKeepsValues(jobs, tempJobs, job.runId, job);
    }

    twostate lemma TempAdded(id: string)
      requires old(Linked()) && id in tempJobs && tempJobs == old(tempJobs)[id := tempJobs[id]]
      requires jobs == old(jobs) && queues == old(queues)
      requires forall j :: j in old(pool) ==> j.State() == old(j.State())
      ensures BoardView() == old(BoardView()).(temps := old(BoardView()).temps[id := tempJobs[id].State()])
    {
      hide GebrJob.State;
      assert StatesOf(tempJobs) == old(StatesOf(tempJobs))[id := tempJobs[id].State()];
      StatesSame(jobs);
      RowIdsSame(queues);
    }

    method HandleJobMessage(m: Message) returns (r: Outcome)
      requires BoardOk() && AboutJob(m)
      modifies `jobs, `tempJobs, `queues, `pool, pool
      ensures BoardOk() && SameObjects() && fresh(pool - old(pool)) && old(pool) <= pool
      ensures (BoardView(), r) == OnJob(old(BoardView()), m)
      ensures forall j :: j in old(pool) && (m.id !in jobs || j != jobs[m.id]) ==> unchanged(j)
    {
      r := Fine;
      match m
      case JobDefine(_, _, _, _, _, _, _, _, _) => var define := HandleJob(m);
      case Issues(id, issues) => r := HandleIssues(id, issues);
      case CmdLine(id, frac, cmd) => r := HandleCmdLine(id, frac, cmd);
      case OutputOf(id, frac, text) => r := HandleOutput(id, frac, text);
      case StatusChange(id, s, parameter) => r := HandleStatus(id, s, parameter);
      case CloseJob(_) =>
    }

    // ------------------------------------------------------------ machines and groups

    /** The position of the machine at `address`, or -1. */
    method FindDaemon(address: string) returns (k: int)
      ensures k == Position(MachinesOf(store), address)
      ensures -1 <= k < |store| && (k >= 0 ==> store[k].address == address)
    {
      k := 0;
      while k < |store|
        invariant 0 <= k <= |store|
        invariant forall i :: 0 <= i < k ==> store[i].address != address
      {
        if store[k].address == address { return; }
        k := k + 1;
      }
      k := -1;
    }

    /** Every tag once, collected in a sorted tree and read out backwards. */
    method GetAllTags() returns (tags: seq<string>)
      ensures tags == Reverse(TagTree(MachinesOf(store)))
      ensures Descending(tags) && Members(tags) == TagSet(MachinesOf(store))
    {
      ghost var ms := MachinesOf(store);
      var tree: seq<string> := [];
      for i := 0 to |store|
        invariant Ascending(tree) && tree == TagTree(ms[..i])
      {
        assert ms[..i + 1][..i] == ms[..i] && ms[..i + 1][i] == ms[i];
        if !store[i].IsAutochoose() {
          tree := InsertTags(tree, store[i].tags);
        }
      }
      assert ms[..|ms|] == ms;
      tags := Reverse(tree);
      ReverseMembers(tree);
    }

    method UpdateGroupsStore()
      modifies `groups, `announced
      ensures RosterView() == Announce(MachinesOf(store))
    {
      hide DaemonServer.State, MachinesOf, TagRows, MachineRows, TagTree;
      groups := [GroupName("")];
      var tags := GetAllTags();
      AppendTagRows(tags);
      AppendDaemonRows();
      announced := true;
    }

    method AppendTagRows(tags: seq<string>)
      modifies `groups
      ensures groups == old(groups) + TagRows(tags)
    {
      for i := 0 to |tags|
        invariant groups == old(groups) + TagRows(tags[..i])
      {
        assert TagRows(tags[..i + 1]) == TagRows(tags[..i]) + [GroupName(tags[i])];
        groups := groups + [GroupName(tags[i])];
      }
      assert tags[..|tags|] == tags;
    }

    method AppendDaemonRows()
      modifies `groups
      ensures groups == old(groups) + MachineRows(MachinesOf(store))
    {
      ghost var ms := MachinesOf(store);
      for i := 0 to |store|
        invariant groups == old(groups) + MachineRows(ms[..i])
      {
        MachineRowsSnoc(ms[..i], ms[i]);
        assert ms[..i + 1] == ms[..i] + [ms[i]];
        if !store[i].IsAutochoose() {
          groups := groups + [DaemonName(store[i].address, store[i].hostname)];
        }
      }
      assert ms[..|ms|] == ms;
    }

    /** One machine of the list has changed and nothing else. */
    twostate lemma OneMachine(k: nat)
      requires old(RosterOk()) && store == old(store) && machines == old(machines) && k < |store|
      requires forall d :: d in old(machines) && d != store[k] ==> d.State() == old(d.State())
      ensures RosterOk() && MachinesOf(store) == old(MachinesOf(store))[k := store[k].State()]
    {
      forall i | 0 <= i < |store| && i != k ensures store[i] != store[k] {
        if i < k { assert store[i].address != store[k].address; } else { assert store[k].address != store[i].address; }
      }
    }

    method HandleServerState(hostname: string, address: string, state: string, ncores: int)
      requires RosterOk()
      modifies `store, `groups, `announced, `machines, machines
      ensures RosterOk() && fresh(machines - old(machines)) && old(machines) <= machines
      ensures RosterView() == NoteMachine(old(RosterView()), hostname, address, state, ncores)
      ensures forall d :: d in old(machines) && !(d in old(store) && d.address == address) ==> unchanged(d)
    {
      hide DaemonServer.State, GroupsOf, MachinesOf, DistinctAddresses;
      var k := FindDaemon(address);
      if k == -1 {
        AddMachine(hostname, address, state, ncores);
      } else {
        SetMachine(k, hostname, state, ncores);
      }
      UpdateGroupsStore();
    }

    method SetMachine(k: nat, hostname: string, state: string, ncores: int)
      requires RosterOk() && k < |store|
      modifies store[k]
      ensures RosterOk()
      ensures MachinesOf(store) ==
        old(MachinesOf(store))[k := old(store[k].State()).(state := state, hostname := hostname, ncores := ncores)]
    {
      store[k].state := state;
      store[k].hostname := hostname;
      store[k].ncores := ncores;
      OneMachine(k);
    }

    method AddMachine(hostname: string, address: string, state: string, ncores: int)
      requires RosterOk() && Position(MachinesOf(store), address) == -1
      modifies `store, `machines
      ensures RosterOk() && fresh(machines - old(machines)) && old(machines) <= machines
      ensures MachinesOf(store) == [Machine(address, hostname, state, [], ncores, None)] + old(MachinesOf(store))
    {
      hide MachinesOf, DistinctAddresses;
      var daemon := new DaemonServer(address, state);
      daemon.hostname := hostname;
      daemon.ncores := ncores;
      store := [daemon] + store;
      machines := machines + {daemon};
      MachineAdded(daemon.State());
      DistinctCons(daemon.State(), old(MachinesOf(store)));
    }

    twostate lemma MachineAdded(d: Machine)
      requires |store| == |old(store)| + 1 && store[1..] == old(store) && store[0].State() == d
      requires forall i :: 0 <= i < |old(store)| ==> old(store)[i].State() == old(store[i].State())
      ensures MachinesOf(store) == [d] + old(MachinesOf(store))
    {
      hide DaemonServer.State;
    }

    method HandleAddGroups(address: string, tags: string) returns (r: Outcome)
      requires RosterOk()
      modifies `groups, `announced, machines
      ensures RosterOk() && (RosterView(), r) == TagMachine(old(RosterView()), address, tags)
      ensures forall d :: d in machines && !(d in store && d.address == address) ==> unchanged(d)
    {
      hide GroupsOf, MachinesOf, DistinctAddresses, Split, Reverse;
      var k := FindDaemon(address);
      if k == -1 { return Undefined; }
      store[k].SetTags(Split(tags, ','));
      OneMachine(k);
      UpdateGroupsStore();
      r := Fine;
    }

    method HandleServerRemove(address: string)
      requires RosterOk()
      modifies `store, `groups, `announced
      ensures RosterOk() && RosterView() == Announce(WithoutAddress(old(MachinesOf(store)), address))
    {
      hide WithoutAddress, GroupsOf, MachinesOf, DaemonServer.State, Known;
      RemoveRows(address);
      WithoutAddressKeeps(old(MachinesOf(store)), address);
      UpdateGroupsStore();
    }

    /** Every row with the address goes; the walk already holds the next row when one does. */
    method RemoveRows(address: string)
      requires Known()
      modifies `store
      ensures Known() && MachinesOf(store) == WithoutAddress(old(MachinesOf(store)), address)
    {
      hide MachinesOf, DaemonServer.State, Cut, Known;
      var i := 0;
      ghost var before := MachinesOf(store);
      assert before[..0] == [] && before[0..] == before;
      while i < |store|
        invariant i <= |store| && Known()
        invariant WithoutAddress(before, address) ==
          MachinesOf(store)[..i] + WithoutAddress(MachinesOf(store)[i..], address)
        decreases |store| - i
      {
        WalkStep(MachinesOf(store), i, address);
        if store[i].address == address {
          RemoveRow(i);
        } else {
          i := i + 1;
        }
      }
      assert MachinesOf(store)[..i] == MachinesOf(store) && MachinesOf(store)[i..] == [];
    }

    method RemoveRow(i: nat)
      requires Known() && i < |store|
      modifies `store
      ensures Known() && |store| == |old(store)| - 1 && MachinesOf(store) == Cut(old(MachinesOf(store)), i)
    {
      store := Cut(store, i);
    }

    method HandleMpi(address: string, flavors: string) returns (r: Outcome)
      requires RosterOk()
      modifies `groups, `announced, machines
      ensures RosterOk() && (RosterView(), r) == NoteFlavors(old(RosterView()), address, flavors)
      ensures forall d :: d in machines && !(d in store && d.address == address) ==> unchanged(d)
    {
      hide GroupsOf, MachinesOf, DistinctAddresses, Split, Reverse;
      var k := FindDaemon(address);
      if k == -1 {
        StateChanged(true);
        return Bad;
      }
      store[k].mpiFlavors := Some(flavors);
      OneMachine(k);
      r := Fine;
    }

    /** The connection changed state; a lost one empties the list before it is derived again. The err
        label disconnects, which is such a change. */
    method StateChanged(disconnected: bool)
      modifies `groups, `announced
      ensures RosterView() == Announce(old(MachinesOf(store)))
    {
      if disconnected { groups := []; }
      UpdateGroupsStore();
    }

    method HandleDaemonMessage(m: Message) returns (r: Outcome)
      requires RosterOk() && !AboutJob(m)
      modifies `store, `groups, `announced, `machines, machines
      ensures RosterOk() && fresh(machines - old(machines)) && old(machines) <= machines
      ensures (RosterView(), r) == OnMachine(old(RosterView()), m)
    {
      hide RosterOk, GroupsOf, MachinesOf, WithoutAddress, TagMachine, NoteMachine, NoteFlavors;
      r := Fine;
      match m
      case AddGroups(address, tags) => r := HandleAddGroups(address, tags);
      case ServerState(hostname, address, state, ncores) => HandleServerState(hostname, address, state, ncores);
      case ServerRemove(address) => HandleServerRemove(address);
      case MpiFlavors(address, flavors) => r := HandleMpi(address, flavors);
      case LoggedIn => StateChanged(false);
      case Other =>
      case Malformed =>
        StateChanged(true);
        r := Bad;
    }

    // ------------------------------------------------------------ the message loop

    lemma Parts()
      requires Valid()
      ensures BoardOk() && RosterOk()
    {
    }

    method HandleOne(m: Message) returns (r: Outcome)
      requires BoardOk() && RosterOk()
      modifies `jobs, `tempJobs, `queues, `pool, pool, `store, `groups, `announced, `machines, machines
      ensures Linked() && Known() && SameObjects() && (View(), r) == OnMessage(old(View()), m)
      ensures fresh(pool - old(pool)) && fresh(machines - old(machines))
    {
      hide OnJob, OnMachine, BoardView, RosterView, Linked, Known, NoRepeats, DistinctAddresses;
      if AboutJob(m) {
        r := HandleJobMessage(m);
      } else {
        r := HandleDaemonMessage(m);
      }
    }

    /** One turn of the loop. */
    method TakeLast() returns (r: Outcome)
      requires Valid() && messages != []
      modifies `jobs, `tempJobs, `queues, `pool, pool, `store, `groups, `announced, `machines, machines
      modifies `messages, `handled
      ensures Valid() && SameObjects() && (View(), r) == Turn(old(View()))
      ensures fresh(pool - old(pool)) && fresh(machines - old(machines))
    {
      hide OnMessage, StatesOf, RowIds, MachinesOf, Linked, Known, Sound, BoardView, RosterView;
      Parts();
      TurnSound(View(), session);
      var m := messages[|messages| - 1];
      r := HandleOne(m);
      if r != Undefined {
        messages := messages[..|messages| - 1];
        if r == Fine { handled := handled + [m]; }
      }
    }

    /** parse_messages: takes messages from the tail of the list until it is empty, one is bad, or
        C stops promising anything. */
    method ParseMessages() returns (r: Outcome)
      requires Valid()
      modifies `jobs, `tempJobs, `queues, `pool, pool, `store, `groups, `announced, `machines, machines
      modifies `messages, `handled
      ensures Valid() && SameObjects() && (View(), r) == Parse(old(View()))
      ensures fresh(pool - old(pool)) && fresh(machines - old(machines))
      ensures Extends(old(View()).board.jobs, View().board.jobs)
    {
      hide Turn, Valid, BoardView, RosterView, Extends;
      ghost var start := View();
      ParseKeeps(start);
      while messages != []
        invariant Valid() && SameObjects() && Parse(View()) == Parse(start)
        invariant fresh(pool - old(pool)) && fresh(machines - old(machines))
        decreases |messages|
      {
        TurnPending(View());
        r := TakeLast();
        if r != Fine { return; }
      }
      r := Fine;
    }

    method Step(e: Event) returns (r: Outcome)
      requires Valid()
      modifies this, pool, machines
      ensures Valid() && (View(), r) == OnEvent(old(View()), e, session)
      ensures fresh(pool - old(pool)) && fresh(machines - old(machines))
    {
      hide Valid, BoardView, RosterView, Parse, TempId, Submitted, Announce, Sound;
      r := Fine;
      match e
      case Submit(skipped, queue) => SubmitJob(skipped, queue);
      case Deliver(received) =>
        Receive(received);
        r := ParseMessages();
      case Connection(lost) =>
        ConnectionChanged(lost);
    }

    method SubmitJob(skipped: nat, queue: string)
      requires Valid()
      modifies `tempJobs, `pool, `nextTemp
      ensures Valid() && View() == Submitted(old(View()), skipped, queue, session) && fresh(pool - old(pool))
    {
      hide TempId, Sound, BoardView, RosterView, NewState, Linked, Known;
      EventSound(View(), Submit(skipped, queue), session);
      InsertNew(TempId(nextTemp + skipped, session), queue);
      nextTemp := nextTemp + skipped + 1;
    }

    method InsertNew(id: string, queue: string)
      requires Linked()
      modifies `tempJobs, `pool
      ensures Linked() && fresh(pool - old(pool))
      ensures BoardView() == old(BoardView()).(temps := old(BoardView()).temps[id := NewState(id, queue)])
    {
      hide BoardView, GebrJob.State, NewState, Linked, AllJobs;
      var job := NewFake(id, queue);
      BoardSame();
      AddTemporaryJob(job);
    }

    method NewFake(id: string, queue: string) returns (job: GebrJob)
      ensures fresh(job) && job.State() == NewState(id, queue) && job.runId == id
    {
      job := new GebrJob(id, queue);
    }

    method Receive(received: seq<Message>)
      requires Valid()
      modifies `messages
      ensures Valid() && View() == old(View()).(pending := received + old(messages))
    {
      hide Sound, BoardView, RosterView, Linked, Known;
      PendingSound(View(), received + messages, session);
      messages := received + messages;
    }

    method ConnectionChanged(lost: bool)
      requires Valid()
      modifies `groups, `announced
      ensures Valid() && View() == old(View()).(roster := Announce(old(View()).roster.machines))
    {
      hide Sound, BoardView, MachinesOf, GroupsOf, Linked, Known;
      EventSound(View(), Connection(lost), session);
      StateChanged(lost);
    }

    // ------------------------------------------------------------ cores

    /** Which machines count: of a group, or all but the autochoose entry when no group is named; with a
        flavor, only those that list it. */
    lemma MachinesCounted(d: DaemonServer, flavor: Option<string>, group: string)
      ensures Accepts(d, flavor) <==>
        (flavor.Some? ==> d.mpiFlavors.Some? && flavor.value in Split(d.mpiFlavors.value, ','))
      ensures Matches(d, flavor, group) <==>
        d.address != "" && (group == "" || group in d.tags) && Accepts(d, flavor)
    {
    }

    /** The cores a submission to one machine, or to the machines of a group, can count on. */
    method GetNCores(flavor: Option<string>, group: string, oneDaemon: bool) returns (sum: int)
      requires RosterOk()
      ensures sum == CoreSum(if oneDaemon then set d | d in store && d.address == group && Accepts(d, flavor)
                             else set d | d in store && Matches(d, flavor, group))
    {
      if oneDaemon {
        sum := DaemonCores(flavor, group);
      } else {
        sum := GroupCores(flavor, group);
      }
    }

    method DaemonCores(flavor: Option<string>, address: string) returns (sum: int)
      requires RosterOk()
      ensures sum == CoreSum(set d | d in store && d.address == address && Accepts(d, flavor))
    {
      hide CoreSum;
      var k := FindDaemon(address);
      ghost var counted := set d | d in store && d.address == address && Accepts(d, flavor);
      OneAddress(address, k);
      NoCores();
      if k >= 0 && (flavor.None? || store[k].AcceptsMpi(flavor.value)) {
        assert counted == {} + {store[k]};
        CoreSumAdd({}, store[k]);
        return store[k].ncores;
      }
      assert counted == {};
      sum := 0;
    }

    lemma OneAddress(address: string, k: int)
      requires RosterOk() && k == Position(MachinesOf(store), address)
      ensures forall d :: d in store && d.address == address <==> k >= 0 && d == store[k]
    {
      hide Position, RosterOk, DaemonServer.State;
      ApartObjects();
      forall d | d in store && d.address == address ensures k >= 0 && d == store[k] {
        var i :| 0 <= i < |store| && store[i] == d;
        OnlyPlace(address, k, i);
      }
    }

    lemma OnlyPlace(address: string, k: int, i: nat)
      requires RosterOk() && k == Position(MachinesOf(store), address) && i < |store| && store[i].address == address
      ensures k == i
    {
      hide Position, DaemonServer.State;
      var ms := MachinesOf(store);
      assert ms[i].address == address;
      assert forall a, b :: 0 <= a < b < |ms| ==> ms[a].address != ms[b].address;
    }

    /** No machine is listed twice, and none shares its address. */
    lemma ApartObjects()
      requires RosterOk()
      ensures forall i, j :: 0 <= i < j < |store| ==> store[i] != store[j] && store[i].address != store[j].address
    {
      forall i, j | 0 <= i < j < |store| ensures store[i].address != store[j].address {
        assert MachinesOf(store)[i].address != MachinesOf(store)[j].address;
      }
    }

    method GroupCores(flavor: Option<string>, group: string) returns (sum: int)
      requires RosterOk()
      ensures sum == CoreSum(set d | d in store && Matches(d, flavor, group))
    {
      hide CoreSum;
      sum := 0;
      ghost var counted: set<DaemonServer> := {};
      NoCores();
      ApartObjects();
      for i := 0 to |store|
        invariant counted == set d | d in store[..i] && Matches(d, flavor, group)
        invariant sum == CoreSum(counted)
      {
        var daemon := store[i];
        assert store[..i + 1] == store[..i] + [daemon];
        assert daemon !in store[..i];
        var has := daemon.HasTag(group);
        if !daemon.IsAutochoose() && has && (flavor.None? || daemon.AcceptsMpi(flavor.value)) {
          CoreSumAdd(counted, daemon);
          counted := counted + {daemon};
          sum := sum + daemon.ncores;
        }
      }
      assert store[..|store|] == store;
    }
  }

  lemma NoCores()
    ensures CoreSum({}) == 0
  {
  }

  predicate Accepts(d: DaemonServer, flavor: Option<string>)
    reads d
  {
    flavor.None? || d.AcceptsMpi(flavor.value)
  }

  predicate Matches(d: DaemonServer, flavor: Option<string>, group: string)
    reads d
  {
    !d.IsAutochoose() && (group == "" || group in d.tags) && Accepts(d, flavor)
  }

  ghost function Pick(s: set<DaemonServer>): (d: DaemonServer)
    requires s != {}
    ensures d in s
  {
    var d :| d in s; d
  }

  /** The cores of a set of machines together. */
  ghost function CoreSum(s: set<DaemonServer>): int
    reads s
    decreases s
  {
    if s == {} then 0 else Pick(s).ncores + CoreSum(s - {Pick(s)})
  }

  lemma {:induction false} CoreSumAdd(s: set<DaemonServer>, d: DaemonServer)
    requires d !in s
    ensures CoreSum(s + {d}) == CoreSum(s) + d.ncores
    decreases s
  {
    var e := Pick(s + {d});
    if e == d {
      assert s + {d} - {d} == s;
    } else {
      assert s + {d} - {e} == (s - {e}) + {d};
      CoreSumAdd(s - {e}, d);
      CoreSumAdd(s - {e}, e);
      assert s - {e} + {e} == s;
    }
  }

  // ---------------------------------------------------------------- whole sessions

  /** The objects end as the session says their values do: sound at every event boundary, stopped
      only by undefined behaviour, each job and machine as the messages say, and the groups list the one the
      machines call for from the first group or state message or change of the connection on. */
  method Session(events: seq<Event>, session: string) returns (server: GebrMaestroServer, done: nat)
    ensures server.Valid() && (server.View(), done) == Run(START, events, session) && done <= |events|
    ensures done < |events| ==>
      OnEvent(Run(START, events[..done], session).0, events[done], session) == (server.View(), Undefined)
    ensures forall id :: id in server.jobs ==> AsTold(server.jobs[id].tasks, WordsTo(id, server.handled))
    ensures forall id :: id in server.jobs ==> IsAsSaid(server.jobs[id].State(), id, server.handled)
    ensures MachinesSaid(MachinesOf(server.store), server.handled)
    ensures ToldGroups(server.handled) || (exists i :: 0 <= i < done && events[i].Connection?) ==>
      DerivedFrom(server.groups, MachinesOf(server.store))
  {
    hide GebrMaestroServer.Valid, GebrMaestroServer.View, Run, OnEvent, AsTold, WordsTo, IsAsSaid, MachinesSaid,
      ToldGroups, DerivedFrom;
    server := new GebrMaestroServer(session);
    done := 0;
    RunWhole(events, session);
    while done < |events|
      invariant done <= |events| && server.Valid() && server.session == session
      invariant fresh(server) && fresh(server.pool) && fresh(server.machines)
      invariant Run(START, events, session) == RunFrom(server.View(), events, done, session)
      invariant done == |events| ==> Run(START, events, session) == (server.View(), done)
      decreases |events| - done
    {
      RunStep(server.View(), events, done, session);
      var r := server.Step(events[done]);
      if r == Undefined { break; }
      done := done + 1;
      if done == |events| { RunNone(server.View(), events, session); }
    }
    SessionMeaning(server, events, done);
  }

  /** What is left of a run after so many events. */
  ghost function RunFrom(c: Client, es: seq<Event>, k: nat, session: string): (Client, nat)
    requires k <= |es|
  {
    (Run(c, es[k..], session).0, k + Run(c, es[k..], session).1)
  }

  lemma RunWhole(es: seq<Event>, session: string)
    ensures RunFrom(START, es, 0, session) == Run(START, es, session)
    ensures es == [] ==> Run(START, es, session) == (START, 0)
  {
    assert es[0..] == es;
  }

  lemma RunNone(c: Client, es: seq<Event>, session: string)
    ensures RunFrom(c, es, |es|, session) == (c, |es|)
  {
  }

  lemma RunStep(c: Client, es: seq<Event>, k: nat, session: string)
    requires k < |es|
    ensures var (c', r) := OnEvent(c, es[k], session);
      RunFrom(c, es, k, session) == if r == Undefined then (c', k) else RunFrom(c', es, k + 1, session)
  {
    assert es[k..][0] == es[k] && es[k..][1..] == es[k + 1..];
  }

  lemma SessionMeaning(server: GebrMaestroServer, events: seq<Event>, done: nat)
    requires server.Valid() && (server.View(), done) == Run(START, events, server.session)
    ensures done <= |events|
    ensures done < |events| ==>
      OnEvent(Run(START, events[..done], server.session).0, events[done], server.session) == (server.View(), Undefined)
    ensures forall id :: id in server.jobs ==> AsTold(server.jobs[id].tasks, WordsTo(id, server.handled))
    ensures forall id :: id in server.jobs ==> IsAsSaid(server.jobs[id].State(), id, server.handled)
    ensures MachinesSaid(MachinesOf(server.store), server.handled)
    ensures ToldGroups(server.handled) || (exists i :: 0 <= i < done && events[i].Connection?) ==>
      DerivedFrom(server.groups, MachinesOf(server.store))
  {
    hide Run, AsTold, WordsTo, IsAsSaid, MachinesSaid, DerivedFrom, GroupsOf;
    RunStops(START, events, server.session);
    forall id | id in server.jobs
      ensures AsTold(server.jobs[id].tasks, WordsTo(id, server.handled))
      ensures IsAsSaid(server.jobs[id].State(), id, server.handled)
    {
      assert id in server.View().board.jobs;
      JobsAsTold(events, server.session, id);
      JobsAsSaid(events, server.session, id);
    }
    MachinesAsSaid(events, server.session);
    if ToldGroups(server.handled) || exists i :: 0 <= i < done && events[i].Connection? {
      GroupsFollow(events, server.session);
    }
  }

  lemma DistinctCons(d: Machine, ms: seq<Machine>)
    requires DistinctAddresses(ms) && Position(ms, d.address) == -1
    ensures DistinctAddresses([d] + ms)
  {
  }

  method InsertTags(tree: seq<string>, tags: seq<string>) returns (r: seq<string>)
    requires Ascending(tree)
    ensures r == InsertAll(tree, tags)
  {
    r := tree;
    for j := 0 to |tags|
      invariant Ascending(r) && r == InsertAll(tree, tags[..j])
    {
      assert tags[..j + 1][..j] == tags[..j] && tags[..j + 1][j] == tags[j];
      r := Insert(r, tags[j]);
    }
    assert tags[..|tags|] == tags;
  }

  lemma {:induction false} MachineRowsSnoc(ms: seq<Machine>, d: Machine)
    ensures MachineRows(ms + [d]) ==
      MachineRows(ms) + if d.address == "" then [] else [DaemonName(d.address, d.hostname)]
  {
    if ms == [] {
      assert [d][1..] == [];
    } else {
      MachineRowsSnoc(ms[1..], d);
      assert (ms + [d])[1..] == ms[1..] + [d];
    }
  }

  /** Whether the machine at the walk's place stays or goes. */
  lemma WalkStep(ms: seq<Machine>, i: nat, address: string)
    requires i < |ms|
    ensures ms[..i] + WithoutAddress(ms[i..], address) ==
      if ms[i].address == address then Cut(ms, i)[..i] + WithoutAddress(Cut(ms, i)[i..], address)
      else ms[..i + 1] + WithoutAddress(ms[i + 1..], address)
  {
    assert ms[i..][1..] == ms[i + 1..] && ms[i..][0] == ms[i];
    assert Cut(ms, i)[..i] == ms[..i] && Cut(ms, i)[i..] == ms[i + 1..];
    assert ms[..i + 1] == ms[..i] + [ms[i]];
  }

  /** What a `job` message sets on a job however it was found; whether it changed the queue. */
  method Refresh(job: GebrJob, m: Message) returns (requeued: bool)
    requires m.JobDefine?
    modifies job
    ensures job.State() == Refreshed(old(job.State()), m) && requeued == (old(job.queue) != m.queue)
  {
    job.SetServerLists(m.servers);
    job.details := Some(m.details);
    job.status := m.status;
    requeued := job.queue != m.queue;
    if requeued { job.queue := m.queue; }
  }

  /** A job the client did not know, as when it connects while jobs are running. */
  method NewJob(m: Message) returns (job: GebrJob)
    requires m.JobDefine?
    ensures fresh(job) && job.State() == Arrived(m) && job.runId == m.id && job.status == m.status
  {
    job := new GebrJob(m.id, m.queue);
    var requeued := Refresh(job, m);
    job.isFake := false;
    job.origin := Some(m.origin);
    if m.startDate != "" { job.startDate := Some(m.startDate); }
    if m.finishDate != "" { job.finishDate := Some(m.finishDate); }
  }

  lemma MoveKeepsValues<K, V>(a: map<K, V>, b: map<K, V>, ka: K, kb: K)
    requires ka !in a && kb in b
    ensures a[ka := b[kb]].Values + (b - {kb}).Values == a.Values + b.Values
  {
    forall v ensures v in a[ka := b[kb]].Values + (b - {kb}).Values <==> v in a.Values + b.Values {
      assert a[ka := b[kb]][ka] == b[kb];
      if v in a.Values { var k :| k in a && a[k] == v; assert a[ka := b[kb]][k] == v; }
      if v in b.Values { var k :| k in b && b[k] == v; assert k == kb || (b - {kb})[k] == v; }
    }
  }

  /** A new value for a key loses a value exactly when the key had one, if values are not repeated. */
  lemma InsertKeepsValues<K, V>(a: map<K, V>, b: map<K, V>, k: K, v: V)
    requires v !in b.Values && v !in a.Values && a.Values !! b.Values
    requires k in b ==> forall i :: i in b && b[i] == b[k] ==> i == k
    ensures a.Values + b.Values <= a.Values + b[k := v].Values <==> k !in b
  {
    if k in b {
      assert b[k] in a.Values + b.Values && b[k] !in a.Values;
      assert b[k] !in b[k := v].Values;
    } else {
      forall x | x in b.Values ensures x in b[k := v].Values {
        var i :| i in b && b[i] == x;
        assert b[k := v][i] == x;
      }
    }
  }
}
