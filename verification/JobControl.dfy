/**
 The job list (gebr/gebr-job-control.c): which rows the filters let through, and how many jobs the
 message about filtered jobs speaks of.
 */
module JobControl {
  import opened Strings
  import opened Job

  /** A list row: a time header, a job, or a row that has been appended and not filled yet. */
  datatype Row = Header(bucket: nat) | JobRow(job: JobView) | Blank

  /** What the filters look at. `bucket` is the time bucket of the job's submission; `tasks` are the
      machines with whether they got a share. */
  datatype JobView = JobView(bucket: nat, status: Status, flowId: Option<string>, title: Option<string>,
    groupType: string, group: string, tasks: seq<(string, bool)>)

  datatype StatusChoice = StatusUnset | AnyStatus | OneStatus(status: Status)
  datatype ServerChoice = ServerUnset | AnyServer | OneGroup(kind: string, group: string) | OneDaemon(address: string)
  datatype FlowChoice = FlowUnset | AnyFlow | OneFlow(title: Option<string>)

  const TIME_N_TYPES: nat := 7

  // ---------------------------------------------------------------- the filters as predicates

  predicate StatusPasses(c: StatusChoice, r: Row) {
    match c
    case OneStatus(s) => r.JobRow? && (r.job.status == s || (r.job.status == Failed && s == Canceled))
    case _ => true
  }

  function Active(tasks: seq<(string, bool)>): nat {
    if tasks == [] then 0 else (if tasks[0].1 then 1 else 0) + Active(tasks[1..])
  }

  /** The machines of a job are listed at their own places but only as many places as there are
      active machines are looked at. */
  predicate RunsOn(tasks: seq<(string, bool)>, address: string) {
    exists i :: 0 <= i < |tasks| && i < Active(tasks) && tasks[i].1 && tasks[i].0 == address
  }

  /** Some active machine of the job has the address. */
  predicate Uses(tasks: seq<(string, bool)>, address: string) {
    exists i :: 0 <= i < |tasks| && tasks[i].1 && tasks[i].0 == address
  }

  /** No active machine comes after one that is not. */
  predicate NoGap(tasks: seq<(string, bool)>) {
    forall i, j :: 0 <= i < j < |tasks| && tasks[j].1 ==> tasks[i].1
  }

  lemma {:induction false} LastActive(tasks: seq<(string, bool)>) returns (l: nat)
    requires exists i :: 0 <= i < |tasks| && tasks[i].1
    ensures l < |tasks| && tasks[l].1 && Active(tasks) <= l + 1
  {
    if exists i :: 0 <= i < |tasks[1..]| && tasks[1..][i].1 {
      l := LastActive(tasks[1..]);
      l := l + 1;
    } else {
      assert forall i :: 0 < i < |tasks| ==> tasks[i] == tasks[1..][i - 1];
      NoneActive(tasks[1..]);
      l := 0;
    }
  }

  lemma {:induction false} NoneActive(tasks: seq<(string, bool)>)
    requires forall i :: 0 <= i < |tasks| ==> !tasks[i].1
    ensures Active(tasks) == 0
  {
    if tasks != [] { NoneActive(tasks[1..]); }
  }

  lemma {:induction false} NoGapIff(tasks: seq<(string, bool)>)
    ensures NoGap(tasks) <==> forall i :: 0 <= i < |tasks| && tasks[i].1 ==> i < Active(tasks)
  {
    if tasks != [] {
      var rest := tasks[1..];
      NoGapIff(rest);
      assert forall i :: 0 < i < |tasks| ==> tasks[i] == rest[i - 1];
      if tasks[0].1 {
        assert NoGap(tasks) <==> NoGap(rest);
        assert forall i :: 0 <= i < |rest| ==> rest[i] == tasks[i + 1];
      } else if exists i :: 0 <= i < |rest| && rest[i].1 {
        var l := LastActive(rest);
        assert tasks[l + 1].1;
      }
    }
  }

  /** The machine filter finds every active machine of a job exactly when they are listed before all
      others. */
  lemma GapHidesMachine(tasks: seq<(string, bool)>)
    requires forall i, j :: 0 <= i < j < |tasks| ==> tasks[i].0 != tasks[j].0
    ensures (forall a :: RunsOn(tasks, a) <==> Uses(tasks, a)) <==> NoGap(tasks)
  {
    NoGapIff(tasks);
    if forall a :: RunsOn(tasks, a) <==> Uses(tasks, a) {
      forall i | 0 <= i < |tasks| && tasks[i].1 ensures i < Active(tasks) {
        assert Uses(tasks, tasks[i].0);
        assert RunsOn(tasks, tasks[i].0);
      }
    }
  }

  /** One machine without a share before one with: the filter misses the second. */
  lemma MachineMissed()
    ensures var tasks := [("a", false), ("b", true)]; Uses(tasks, "b") && !RunsOn(tasks, "b")
  {
    var tasks := [("a", false), ("b", true)];
    assert tasks[1].1;
    assert tasks[1..] == [("b", true)] && [("b", true)][1..] == [];
    assert Active(tasks) == 1;
  }

  predicate ServerPasses(c: ServerChoice, r: Row) {
    match c
    case OneGroup(kind, group) => r.JobRow? && kind == r.job.groupType && r.job.group == group
    case OneDaemon(address) => r.JobRow? && RunsOn(r.job.tasks, address)
    case _ => true
  }

  predicate FlowPasses(c: FlowChoice, r: Row) {
    match c
    case OneFlow(title) => r.JobRow? && (title.None? || r.job.title == title)
    case _ => true
  }

  datatype Filters =
    Filters(automaticFlow: Option<string>, status: StatusChoice, server: ServerChoice, flow: FlowChoice)

  /** A row that is not a header passes the automatic flow filter if there is one, and otherwise
      all three choices. */
  predicate Passes(f: Filters, r: Row) {
    if f.automaticFlow.Some? then r.JobRow? && r.job.flowId == f.automaticFlow
    else StatusPasses(f.status, r) && ServerPasses(f.server, r) && FlowPasses(f.flow, r)
  }

  /** Some job of the bucket passes and is listed before any row not filled yet. */
  predicate BucketShown(f: Filters, rows: seq<Row>, bucket: nat) {
    exists i :: 0 <= i < |rows| && rows[i].JobRow? && rows[i].job.bucket == bucket && Passes(f, rows[i]) &&
                forall j :: 0 <= j < i ==> !rows[j].Blank?
  }

  predicate Visible(f: Filters, rows: seq<Row>, i: nat)
    requires i < |rows|
  {
    if rows[i].Header? then BucketShown(f, rows, rows[i].bucket) else Passes(f, rows[i])
  }

  // ---------------------------------------------------------------- which rows are shown

  lemma {:induction false} ActiveCount(tasks: seq<(string, bool)>)
    ensures Active(tasks) == |set i | 0 <= i < |tasks| && tasks[i].1|
  {
    var all := set i | 0 <= i < |tasks| && tasks[i].1;
    if tasks == [] {
      assert all == {};
    } else {
      var later := set i | 1 <= i < |tasks| && tasks[i].1;
      ActiveCount(tasks[1..]);
      LaterCount(tasks);
      assert all == later + if tasks[0].1 then {0} else {};
    }
  }

  lemma LaterCount(tasks: seq<(string, bool)>)
    requires tasks != []
    ensures |set i | 1 <= i < |tasks| && tasks[i].1| == |set i | 0 <= i < |tasks[1..]| && tasks[1..][i].1|
  {
    var rest := tasks[1..];
    var below, later := set i | 0 <= i < |rest| && rest[i].1, set i | 1 <= i < |tasks| && tasks[i].1;
    assert forall i :: 0 <= i < |rest| ==> rest[i] == tasks[i + 1];
    var there, back := map i | i in below :: i + 1, map i | i in later :: i - 1;
    assert forall i :: i in later ==> rest[i - 1] == tasks[i];
    SameSize(below, later, there, back);
  }

  lemma SameSize(a: set<nat>, b: set<nat>, there: map<nat, nat>, back: map<nat, nat>)
    requires a == there.Keys && b == back.Keys
    requires forall x :: x in a ==> there[x] in b && back[there[x]] == x
    requires forall x :: x in b ==> back[x] in a && there[back[x]] == x
    ensures |a| == |b|
  {
    InjectiveImage(there, a, b);
    InjectiveImage(back, b, a);
  }

  /** With an automatic flow a job is shown exactly when it belongs to that flow. Otherwise it has to
      be what every choice asks for: a choice that is unset or takes all asks nothing; a status asks
      for itself, Canceled for failed jobs too; a group asks for its name and kind; a machine, to be
      one of those that take part, among as many first places as take part; a flow asks for its
      title. */
  lemma JobShown(f: Filters, rows: seq<Row>, i: nat)
    requires i < |rows| && rows[i].JobRow?
    ensures var job := rows[i].job; Visible(f, rows, i) <==>
      if f.automaticFlow.Some? then job.flowId == f.automaticFlow else
        && (f.status.OneStatus? ==>
              job.status == f.status.status || (job.status == Failed && f.status.status == Canceled))
        && (f.server.OneGroup? ==> job.groupType == f.server.kind && job.group == f.server.group)
        && (f.server.OneDaemon? ==>
              exists k :: 0 <= k < |job.tasks| && job.tasks[k] == (f.server.address, true) &&
                          k < |set j | 0 <= j < |job.tasks| && job.tasks[j].1|)
        && (f.flow.OneFlow? && f.flow.title.Some? ==> job.title == f.flow.title)
  {
    var tasks := rows[i].job.tasks;
    ActiveCount(tasks);
    if f.server.OneDaemon? {
      var a := f.server.address;
      if k :| 0 <= k < |tasks| && k < Active(tasks) && tasks[k].1 && tasks[k].0 == a { assert tasks[k] == (a, true); }
      if k :| 0 <= k < |tasks| && k < Active(tasks) && tasks[k] == (a, true) { assert tasks[k].1 && tasks[k].0 == a; }
    }
  }

  /** A row not filled yet is shown exactly when nothing at all is asked for. */
  lemma BlankShown(f: Filters, rows: seq<Row>, i: nat)
    requires i < |rows| && rows[i].Blank?
    ensures Visible(f, rows, i) <==>
      f.automaticFlow.None? && !f.status.OneStatus? && !f.server.OneGroup? && !f.server.OneDaemon? && !f.flow.OneFlow?
  {
  }

  /** A header is shown exactly when a job of its bucket is, before the first row not filled yet. */
  lemma HeaderShown(f: Filters, rows: seq<Row>, i: nat)
    requires i < |rows| && rows[i].Header?
    ensures Visible(f, rows, i) <==>
      exists k :: 0 <= k < |rows| && rows[k].JobRow? && rows[k].job.bucket == rows[i].bucket && Visible(f, rows, k) &&
                  Blank !in rows[..k]
  {
    if Visible(f, rows, i) {
      var k :| 0 <= k < |rows| && rows[k].JobRow? && rows[k].job.bucket == rows[i].bucket && Passes(f, rows[k]) &&
        forall j :: 0 <= j < k ==> !rows[j].Blank?;
      assert Blank !in rows[..k] && Visible(f, rows, k);
    }
    forall k | 0 <= k < |rows| && rows[k].JobRow? && rows[k].job.bucket == rows[i].bucket && Visible(f, rows, k)
      ensures Blank !in rows[..k] ==> Visible(f, rows, i)
    {
      assert forall j :: 0 <= j < k ==> rows[..k][j] == rows[j];
      assert Passes(f, rows[k]);
    }
  }

  // ---------------------------------------------------------------- the filters as they run

  class JobList {
    var rows: seq<Row>
    var filters: Filters
    var useAutomaticFilter: bool
    var useFilterStatus: bool
    var useFilterServers: bool
    var useFilterFlow: bool

    method VisibleForFlow(flowId: string, r: Row) returns (v: bool)
      requires !r.Header?
      modifies `useAutomaticFilter
      ensures v == (r.JobRow? && r.job.flowId == Some(flowId)) && useAutomaticFilter
    {
      useAutomaticFilter := true;
      if r.Blank? { return false; }
      v := r.job.flowId == Some(flowId);
    }

    method VisibleForStatus(r: Row) returns (v: bool)
      requires !r.Header?
      modifies `useFilterStatus
      ensures v == StatusPasses(filters.status, r)
      ensures useFilterStatus == match filters.status
        case StatusUnset => old(useFilterStatus) case AnyStatus => false case OneStatus(_) => true
    {
      match filters.status
      case StatusUnset => return true;
      case AnyStatus =>
        useFilterStatus := false;
        return true;
      case OneStatus(chosen) =>
        useFilterStatus := true;
        if r.Blank? { return false; }
        var status := r.job.status;
        v := false;
        if status == chosen { v := true; } else if status == Failed && chosen == Canceled { v := true; }
    }

    method VisibleForServers(r: Row) returns (v: bool)
      requires !r.Header?
      modifies `useFilterServers
      ensures v == ServerPasses(filters.server, r)
      ensures useFilterServers == match filters.server
        case ServerUnset => old(useFilterServers) case AnyServer => false case _ => true
    {
      match filters.server
      case ServerUnset => return true;
      case AnyServer =>
        useFilterServers := false;
        return true;
      case OneGroup(kind, group) =>
        useFilterServers := true;
        v := r.JobRow? && kind == r.job.groupType && r.job.group == group;
      case OneDaemon(address) =>
        useFilterServers := true;
        if r.Blank? { return false; }
        var tasks := r.job.tasks;
        var n := CountActive(tasks);
        v := false;
        for i := 0 to n
          invariant v <==> exists k :: 0 <= k < |tasks| && k < i && tasks[k].1 && tasks[k].0 == address
        {
          if i < |tasks| && tasks[i].1 && tasks[i].0 == address { v := true; }
        }
    }

    method VisibleForFlowName(r: Row) returns (v: bool)
      requires !r.Header?
      modifies `useFilterFlow
      ensures v == FlowPasses(filters.flow, r)
      ensures useFilterFlow == match filters.flow
        case FlowUnset => old(useFilterFlow) case AnyFlow => false case OneFlow(_) => true
    {
      match filters.flow
      case FlowUnset => return true;
      case AnyFlow =>
        useFilterFlow := false;
        return true;
      case OneFlow(title) =>
        useFilterFlow := true;
        if r.Blank? { return false; }
        if title.None? { return true; }
        v := r.job.title == title;
    }

    /** jobs_visible_func: headers ask about the jobs, jobs never ask about headers. */
    method VisibleFunc(i: nat) returns (v: bool)
      requires i < |rows|
      modifies `useAutomaticFilter, `useFilterStatus, `useFilterServers, `useFilterFlow
      ensures v == Visible(filters, rows, i)
      ensures !rows[i].Header? && filters.automaticFlow.Some? ==> useAutomaticFilter
      ensures !rows[i].Header? && filters.automaticFlow.None? ==>
        && (filters.status.OneStatus? ==> useFilterStatus) && (filters.status.AnyStatus? ==> !useFilterStatus)
        && (filters.server.OneGroup? || filters.server.OneDaemon? ==> useFilterServers)
        && (filters.server.AnyServer? ==> !useFilterServers)
        && (filters.flow.OneFlow? ==> useFilterFlow) && (filters.flow.AnyFlow? ==> !useFilterFlow)
      decreases if rows[i].Header? then 2 else 0
    {
      if rows[i].Header? {
        v := ControlVisible(i);
        return;
      }
      if filters.automaticFlow.Some? {
        v := VisibleForFlow(filters.automaticFlow.value, rows[i]);
        return;
      }
      v := true;
      var status := VisibleForStatus(rows[i]);
      if !status { v := false; }
      var servers := VisibleForServers(rows[i]);
      if !servers { v := false; }
      var flow := VisibleForFlowName(rows[i]);
      if !flow { v := false; }
    }

    /** jobs_control_visible: stops at the first match, and at the first row not filled yet. */
    method ControlVisible(i: nat) returns (hasJob: bool)
      requires i < |rows| && rows[i].Header?
      modifies `useAutomaticFilter, `useFilterStatus, `useFilterServers, `useFilterFlow
      ensures hasJob == BucketShown(filters, rows, rows[i].bucket)
      decreases 1
    {
      hasJob := false;
      var k := 0;
      while k < |rows| && !hasJob
        invariant k <= |rows| && (forall j :: 0 <= j < k ==> !rows[j].Blank?)
        invariant hasJob ==> BucketShown(filters, rows, rows[i].bucket)
        invariant !hasJob ==> forall j :: 0 <= j < k && rows[j].JobRow? && rows[j].job.bucket == rows[i].bucket ==>
          !Passes(filters, rows[j])
      {
        if rows[k].Blank? { return; }
        if rows[k].JobRow? && rows[k].job.bucket == rows[i].bucket {
          hasJob := VisibleFunc(k);
        }
        k := k + 1;
      }
    }
  }

  method CountActive(tasks: seq<(string, bool)>) returns (n: nat)
    ensures n == Active(tasks)
  {
    n := 0;
    for i := 0 to |tasks|
      invariant Active(tasks) == n + Active(tasks[i..])
    {
      assert tasks[i..][1..] == tasks[i + 1..];
      if tasks[i].1 { n := n + 1; }
    }
  }

  // ---------------------------------------------------------------- counting hidden jobs

  function Headers(rows: seq<Row>): set<nat> {
    set i | 0 <= i < |rows| && rows[i].Header?
  }

  /** The rows the message counts as jobs. */
  function Others(rows: seq<Row>): set<nat> {
    set i | 0 <= i < |rows| && !rows[i].Header?
  }

  function VisibleRows(f: Filters, rows: seq<Row>): set<nat> {
    set i | 0 <= i < |rows| && Visible(f, rows, i)
  }

  /** The list as it is set up: one header for each of the seven buckets. */
  ghost predicate OneHeaderPerBucket(rows: seq<Row>) {
    && |Headers(rows)| == TIME_N_TYPES
    && forall i, j :: i in Headers(rows) && j in Headers(rows) && i != j ==> rows[i].bucket != rows[j].bucket
  }

  /** The visible rows in the order of the view, each once. */
  ghost predicate ViewOf(view: seq<nat>, f: Filters, rows: seq<Row>) {
    && (forall i, j :: 0 <= i < j < |view| ==> view[i] != view[j])
    && (forall i :: i in view <==> i in VisibleRows(f, rows))
  }

  /** A job that makes the header at `h` visible. */
  function Reason(f: Filters, rows: seq<Row>, h: nat): (i: nat)
    requires h < |rows| && rows[h].Header? && Visible(f, rows, h)
    ensures i < |rows| && rows[i].JobRow? && rows[i].job.bucket == rows[h].bucket && Passes(f, rows[i])
  {
    FirstReason(f, rows, rows[h].bucket, 0)
  }

  function FirstReason(f: Filters, rows: seq<Row>, bucket: nat, from: nat): (i: nat)
    requires from <= |rows|
    requires exists i :: from <= i < |rows| && rows[i].JobRow? && rows[i].job.bucket == bucket && Passes(f, rows[i])
    ensures i < |rows| && rows[i].JobRow? && rows[i].job.bucket == bucket && Passes(f, rows[i])
    decreases |rows| - from
  {
    if rows[from].JobRow? && rows[from].job.bucket == bucket && Passes(f, rows[from]) then from
    else FirstReason(f, rows, bucket, from + 1)
  }

  lemma {:induction false} InjectiveImage(m: map<nat, nat>, keys: set<nat>, image: set<nat>)
    requires keys <= m.Keys && forall k :: k in keys ==> m[k] in image
    requires forall a, b :: a in keys && b in keys && a != b ==> m[a] != m[b]
    ensures |keys| <= |image|
    decreases |keys|
  {
    if keys != {} {
      var k :| k in keys;
      InjectiveImage(m, keys - {k}, image - {m[k]});
    }
  }

  /** Each visible header has a visible job of its own bucket, and the buckets are different: so
      there are never more visible headers than visible jobs. */
  lemma HeadersBelowJobs(f: Filters, rows: seq<Row>)
    requires OneHeaderPerBucket(rows)
    ensures |Headers(rows) * VisibleRows(f, rows)| <= |Others(rows) * VisibleRows(f, rows)| <= |Others(rows)|
  {
    var hs, js := Headers(rows) * VisibleRows(f, rows), Others(rows) * VisibleRows(f, rows);
    var m := map h | h in hs :: Reason(f, rows, h);
    forall h | h in hs ensures m[h] in js { assert Visible(f, rows, m[h]); }
    InjectiveImage(m, hs, js);
    SubsetSize(js, Others(rows));
  }

  lemma {:induction false} SubsetSize<T>(a: set<T>, b: set<T>)
    requires a <= b
    ensures |a| <= |b|
    decreases |a|
  {
    if a != {} {
      var x :| x in a;
      SubsetSize(a - {x}, b - {x});
    }
  }

  lemma {:induction false} DistinctSize(l: seq<nat>, s: set<nat>)
    requires forall i, j :: 0 <= i < j < |l| ==> l[i] != l[j]
    requires forall x :: x in l <==> x in s
    ensures |l| == |s|
    decreases |l|
  {
    if l == [] {
      assert s == {};
    } else {
      assert l == [l[0]] + l[1..];
      DistinctSize(l[1..], s - {l[0]});
      assert l[0] in s;
    }
  }

  lemma RowsSplit(rows: seq<Row>)
    ensures |Headers(rows)| + |Others(rows)| == |rows|
  {
    var all := Headers(rows) + Others(rows);
    var l := seq(|rows|, i => i);
    forall x ensures x in l <==> x in all { if x in all { assert l[x] == x; } }
    DistinctSize(l, all);
  }

  datatype Message = NoJobs | Filtered(hidden: int, total: int) | SelectAJob | ManySelected

  /** The message of on_select_non_single_job. The counting loop gives up as soon as it has seen as
      many headers as there are jobs; it misses none by that. */
  method NonSingleMessage(f: Filters, rows: seq<Row>, view: seq<nat>, selected: bool) returns (msg: Message)
    requires OneHeaderPerBucket(rows) && ViewOf(view, f, rows)
    ensures var hidden := |Others(rows) - VisibleRows(f, rows)|;
      msg == if selected then ManySelected
             else if |Others(rows)| == 0 then NoJobs
             else if hidden > 0 then Filtered(hidden, |Others(rows)|)
             else SelectAJob
  {
    var realN := |rows| - TIME_N_TYPES;
    var virtN := |view|;
    RowsSplit(rows);
    HeadersBelowJobs(f, rows);
    var controlNVirt := CountHeaders(rows, view, realN, f);
    virtN := virtN - controlNVirt;
    ViewSplit(f, rows, view);
    if selected { return ManySelected; }
    if realN == 0 { return NoJobs; }
    if virtN < realN { return Filtered(realN - virtN, realN); }
    msg := SelectAJob;
  }

  method CountHeaders(rows: seq<Row>, view: seq<nat>, realN: int, ghost f: Filters) returns (n: int)
    requires ViewOf(view, f, rows) && realN >= |Headers(rows) * VisibleRows(f, rows)|
    ensures n == |Headers(rows) * VisibleRows(f, rows)|
  {
    hide Visible;
    n := 0;
    var k := 0;
    ghost var seen: set<nat> := {};
    while k < |view| && n < realN
      invariant 0 <= k <= |view| && n == |seen|
      invariant forall i :: i in seen <==> i in view[..k] && i in Headers(rows)
    {
      assert view[..k + 1] == view[..k] + [view[k]];
      assert view[k] in view && view[k] !in view[..k];
      if rows[view[k]].Header? {
        seen := seen + {view[k]};
        n := n + 1;
      }
      k := k + 1;
    }
    var all := Headers(rows) * VisibleRows(f, rows);
    assert seen <= all;
    if k == |view| {
      assert view[..k] == view;
      assert seen == all;
    } else {
      SubsetSize(seen, all);
    }
  }

  lemma ViewSplit(f: Filters, rows: seq<Row>, view: seq<nat>)
    requires ViewOf(view, f, rows)
    ensures var shown := VisibleRows(f, rows);
      && |view| == |Headers(rows) * shown| + |Others(rows) * shown|
      && |Others(rows) - shown| == |Others(rows)| - |Others(rows) * shown|
  {
    hide Visible;
    var shown := VisibleRows(f, rows);
    DistinctSize(view, shown);
    assert shown == Headers(rows) * shown + Others(rows) * shown;
    assert Others(rows) == Others(rows) * shown + (Others(rows) - shown);
  }
}
