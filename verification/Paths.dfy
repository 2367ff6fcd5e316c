/**
 Rewriting every path of a flow, its nested revisions included (gebr/flow.c; the walk over the
 parameters is that of libgebr/geoxml/program.c).
 */
module Paths {

  datatype Param = Other(text: string) | File(values: seq<string>) | Group(instances: seq<Instance>)

  datatype Instance = Instance(params: seq<Param>)

  datatype Program = Program(params: seq<Param>, mpiParams: seq<Param>, pathError: bool)

  /** The data of a revision: a flow that loads, or text that does not. */
  datatype Data = Opaque(xml: string) | Nested(flow: Flow)

  datatype Revision = Revision(title: string, data: Data)

  datatype Flow = Flow(input: string, output: string, error: string, programs: seq<Program>, revisions: seq<Revision>)

  // ---------------------------------------------------------------- what the rewriting computes

  /** Empty values are passed over. */
  function MapValues(vs: seq<string>, f: string -> string): seq<string> {
    if vs == [] then [] else [if vs[0] == "" then "" else f(vs[0])] + MapValues(vs[1..], f)
  }

  predicate Dirty(vs: seq<string>) {
    exists i :: 0 <= i < |vs| && vs[i] != ""
  }

  /** The parameters after the walk, and whether it ran to the end: when programs are to be marked
      unconfigured it stops after the first file parameter that held a path. */
  function MapParams(ps: seq<Param>, f: string -> string, stop: bool): (seq<Param>, bool)
    decreases ps
  {
    if ps == [] then ([], true) else
      var (p, go) := MapParam(ps[0], f, stop);
      if !go then ([p] + ps[1..], false) else
        var (rest, done) := MapParams(ps[1..], f, stop);
        ([p] + rest, done)
  }

  function MapParam(p: Param, f: string -> string, stop: bool): (Param, bool)
    decreases p
  {
    match p
    case File(vs) => (File(MapValues(vs, f)), !(stop && Dirty(vs)))
    case Group(insts) =>
      var (insts', all) := MapInstances(insts, f, stop);
      (Group(insts'), all)
    case Other(_) => (p, true)
  }

  function MapInstances(insts: seq<Instance>, f: string -> string, stop: bool): (seq<Instance>, bool)
    decreases insts
  {
    if insts == [] then ([], true) else
      var (first, all) := MapParams(insts[0].params, f, stop);
      if !all then ([Instance(first)] + insts[1..], false) else
        var (rest, done) := MapInstances(insts[1..], f, stop);
        ([Instance(first)] + rest, done)
  }

  function MapProgram(p: Program, f: string -> string, stop: bool): Program {
    var (params, a) := MapParams(p.params, f, stop);
    var (mpi, b) := MapParams(p.mpiParams, f, stop);
    Program(params, mpi, p.pathError || !a || !b)
  }

  function MapPrograms(ps: seq<Program>, f: string -> string, stop: bool): seq<Program> {
    if ps == [] then [] else [MapProgram(ps[0], f, stop)] + MapPrograms(ps[1..], f, stop)
  }

  function MapFlow(w: Flow, f: string -> string, stop: bool): Flow
    decreases w
  {
    Flow(f(w.input), f(w.output), f(w.error), MapPrograms(w.programs, f, stop), MapRevisions(w.revisions, f, stop))
  }

  function MapRevisions(rs: seq<Revision>, f: string -> string, stop: bool): seq<Revision>
    decreases rs
  {
    if rs == [] then [] else [MapRevision(rs[0], f, stop)] + MapRevisions(rs[1..], f, stop)
  }

  function MapRevision(r: Revision, f: string -> string, stop: bool): Revision
    decreases r
  {
    match r.data
    case Opaque(_) => r
    case Nested(w) => r.(data := Nested(MapFlow(w, f, stop)))
  }

  // ---------------------------------------------------------------- the paths of a flow

  /** A stream, or a value of a file parameter. Empty ones are there too, each in its place. */
  datatype Path = Stream(text: string) | Value(text: string)

  /** What the rewriting does to one of them: streams are always given to the function, values only
      when they are not empty. */
  function OnPath(p: Path, f: string -> string): Path {
    match p
    case Stream(t) => Stream(f(t))
    case Value(t) => if t == "" then p else Value(f(t))
  }

  function MapPaths(l: seq<Path>, f: string -> string): (r: seq<Path>)
    ensures |r| == |l| && forall i :: 0 <= i < |r| ==> r[i] == OnPath(l[i], f)
  {
    seq(|l|, i requires 0 <= i < |l| => OnPath(l[i], f))
  }

  lemma MapPathsConcat(a: seq<Path>, b: seq<Path>, f: string -> string)
    ensures MapPaths(a + b, f) == MapPaths(a, f) + MapPaths(b, f)
  {
  }

  function ValuePaths(vs: seq<string>): (r: seq<Path>)
    ensures |r| == |vs| && forall i :: 0 <= i < |r| ==> r[i] == Value(vs[i])
  {
    seq(|vs|, i requires 0 <= i < |vs| => Value(vs[i]))
  }

  function OnePaths(p: Param): seq<Path>
    decreases p
  {
    match p
    case File(vs) => ValuePaths(vs)
    case Group(insts) => InstancePaths(insts)
    case Other(_) => []
  }

  function ParamPaths(ps: seq<Param>): seq<Path>
    decreases ps
  {
    if ps == [] then [] else OnePaths(ps[0]) + ParamPaths(ps[1..])
  }

  function InstancePaths(insts: seq<Instance>): seq<Path>
    decreases insts
  {
    if insts == [] then [] else ParamPaths(insts[0].params) + InstancePaths(insts[1..])
  }

  function ProgramPaths(ps: seq<Program>): seq<Path> {
    if ps == [] then [] else ParamPaths(ps[0].params) + ParamPaths(ps[0].mpiParams) + ProgramPaths(ps[1..])
  }

  function StreamsOf(w: Flow): seq<Path> { [Stream(w.input), Stream(w.output), Stream(w.error)] }

  /** The streams and all file values, at every depth of revisions that load. */
  function FlowPaths(w: Flow): seq<Path>
    decreases w
  {
    StreamsOf(w) + ProgramPaths(w.programs) + RevisionPaths(w.revisions)
  }

  function RevisionPaths(rs: seq<Revision>): seq<Path>
    decreases rs
  {
    if rs == [] then [] else
      (match rs[0].data case Opaque(_) => [] case Nested(w) => FlowPaths(w)) + RevisionPaths(rs[1..])
  }

  // ---------------------------------------------------------------- every path is rewritten

  lemma {:induction false} MapValuesAt(vs: seq<string>, f: string -> string)
    ensures var r := MapValues(vs, f);
      |r| == |vs| && forall i :: 0 <= i < |r| ==> r[i] == if vs[i] == "" then "" else f(vs[i])
  {
    if vs != [] { MapValuesAt(vs[1..], f); }
  }

  lemma ValuesRewritten(vs: seq<string>, f: string -> string)
    ensures ValuePaths(MapValues(vs, f)) == MapPaths(ValuePaths(vs), f)
  {
    MapValuesAt(vs, f);
  }

  lemma {:induction false} ParamsRewritten(ps: seq<Param>, f: string -> string)
    ensures MapParams(ps, f, false).1
    ensures ParamPaths(MapParams(ps, f, false).0) == MapPaths(ParamPaths(ps), f)
    decreases ps
  {
    if ps != [] {
      OneRewritten(ps[0], f);
      ParamsRewritten(ps[1..], f);
      MapPathsConcat(OnePaths(ps[0]), ParamPaths(ps[1..]), f);
    }
  }

  lemma {:induction false} OneRewritten(p: Param, f: string -> string)
    ensures MapParam(p, f, false).1
    ensures OnePaths(MapParam(p, f, false).0) == MapPaths(OnePaths(p), f)
    decreases p
  {
    match p
    case File(vs) => ValuesRewritten(vs, f);
    case Group(insts) => InstancesRewritten(insts, f);
    case Other(_) =>
  }

  lemma {:induction false} InstancesRewritten(insts: seq<Instance>, f: string -> string)
    ensures MapInstances(insts, f, false).1
    ensures InstancePaths(MapInstances(insts, f, false).0) == MapPaths(InstancePaths(insts), f)
    decreases insts
  {
    if insts != [] {
      ParamsRewritten(insts[0].params, f);
      InstancesRewritten(insts[1..], f);
      MapPathsConcat(ParamPaths(insts[0].params), InstancePaths(insts[1..]), f);
    }
  }

  lemma {:induction false} ProgramsRewritten(ps: seq<Program>, f: string -> string)
    ensures ProgramPaths(MapPrograms(ps, f, false)) == MapPaths(ProgramPaths(ps), f)
  {
    if ps != [] {
      var p := ps[0];
      ParamsRewritten(p.params, f);
      ParamsRewritten(p.mpiParams, f);
      ProgramsRewritten(ps[1..], f);
      MapPathsConcat(ParamPaths(p.params), ParamPaths(p.mpiParams), f);
      MapPathsConcat(ParamPaths(p.params) + ParamPaths(p.mpiParams), ProgramPaths(ps[1..]), f);
    }
  }

  /** Without marking programs, the paths of the rewritten flow are the old ones rewritten one by
      one, in the same places, whatever the function. */
  lemma {:induction false} PathsRewritten(w: Flow, f: string -> string)
    ensures FlowPaths(MapFlow(w, f, false)) == MapPaths(FlowPaths(w), f)
    decreases w
  {
    ProgramsRewritten(w.programs, f);
    RevisionsRewritten(w.revisions, f);
    var ps, rs := ProgramPaths(w.programs), RevisionPaths(w.revisions);
    MapPathsConcat(StreamsOf(w), ps, f);
    MapPathsConcat(StreamsOf(w) + ps, rs, f);
    assert MapPaths(StreamsOf(w), f) == StreamsOf(MapFlow(w, f, false));
  }

  lemma {:induction false} RevisionsRewritten(rs: seq<Revision>, f: string -> string)
    ensures RevisionPaths(MapRevisions(rs, f, false)) == MapPaths(RevisionPaths(rs), f)
    decreases rs
  {
    if rs != [] {
      RevisionsRewritten(rs[1..], f);
      match rs[0].data
      case Opaque(_) => MapPathsConcat([], RevisionPaths(rs[1..]), f);
      case Nested(w) =>
        PathsRewritten(w, f);
        MapPathsConcat(FlowPaths(w), RevisionPaths(rs[1..]), f);
    }
  }

  // ---------------------------------------------------------------- nothing else is rewritten

  /** A flow with its paths taken out: of file values only their number is left. */
  function BareParams(ps: seq<Param>): seq<Param>
    decreases ps
  {
    if ps == [] then [] else [BareParam(ps[0])] + BareParams(ps[1..])
  }

  function BareParam(p: Param): Param
    decreases p
  {
    match p
    case File(vs) => File(seq(|vs|, _ => ""))
    case Group(insts) => Group(BareInstances(insts))
    case Other(_) => p
  }

  function BareInstances(insts: seq<Instance>): seq<Instance>
    decreases insts
  {
    if insts == [] then [] else [Instance(BareParams(insts[0].params))] + BareInstances(insts[1..])
  }

  function BarePrograms(ps: seq<Program>): seq<Program> {
    if ps == [] then [] else [BareProgram(ps[0])] + BarePrograms(ps[1..])
  }

  function BareProgram(p: Program): Program {
    Program(BareParams(p.params), BareParams(p.mpiParams), p.pathError)
  }

  function Bare(w: Flow): Flow
    decreases w
  {
    Flow("", "", "", BarePrograms(w.programs), BareRevisions(w.revisions))
  }

  function BareRevisions(rs: seq<Revision>): seq<Revision>
    decreases rs
  {
    if rs == [] then [] else [BareRevision(rs[0])] + BareRevisions(rs[1..])
  }

  function BareRevision(r: Revision): Revision
    decreases r
  {
    match r.data
    case Opaque(_) => r
    case Nested(w) => Revision(r.title, Nested(Bare(w)))
  }

  lemma ConcatSplit<T>(a: seq<T>, b: seq<T>, c: seq<T>, d: seq<T>)
    requires |a| == |c|
    ensures a + b == c + d <==> a == c && b == d
  {
    if a + b == c + d {
      assert a == (a + b)[..|a|] && c == (c + d)[..|c|];
      assert b == (a + b)[|a|..] && d == (c + d)[|c|..];
    }
  }

  lemma {:induction false} ParamsDetermined(a: seq<Param>, b: seq<Param>)
    requires BareParams(a) == BareParams(b)
    ensures |ParamPaths(a)| == |ParamPaths(b)| && (ParamPaths(a) == ParamPaths(b) ==> a == b)
    decreases a
  {
    if a != [] {
      ConcatSplit([BareParam(a[0])], BareParams(a[1..]), [BareParam(b[0])], BareParams(b[1..]));
      ParamsDetermined(a[1..], b[1..]);
      ParamDetermined(a[0], b[0]);
      assert a == [a[0]] + a[1..] && b == [b[0]] + b[1..];
      ConcatSplit(OnePaths(a[0]), ParamPaths(a[1..]), OnePaths(b[0]), ParamPaths(b[1..]));
    }
  }

  lemma {:induction false} ParamDetermined(a: Param, b: Param)
    requires BareParam(a) == BareParam(b)
    ensures |OnePaths(a)| == |OnePaths(b)| && (OnePaths(a) == OnePaths(b) ==> a == b)
    decreases a
  {
    match a
    case File(vs) =>
      assert |BareParam(a).values| == |vs| && |BareParam(b).values| == |b.values|;
      if OnePaths(a) == OnePaths(b) {
        forall i | 0 <= i < |vs| ensures vs[i] == b.values[i] {
          assert OnePaths(a)[i] == Value(vs[i]) && OnePaths(b)[i] == Value(b.values[i]);
        }
      }
    case Group(insts) => InstancesDetermined(insts, b.instances);
    case Other(_) =>
  }

  lemma {:induction false} InstancesDetermined(a: seq<Instance>, b: seq<Instance>)
    requires BareInstances(a) == BareInstances(b)
    ensures |InstancePaths(a)| == |InstancePaths(b)| && (InstancePaths(a) == InstancePaths(b) ==> a == b)
    decreases a
  {
    if a != [] {
      ConcatSplit([Instance(BareParams(a[0].params))], BareInstances(a[1..]),
                  [Instance(BareParams(b[0].params))], BareInstances(b[1..]));
      ParamsDetermined(a[0].params, b[0].params);
      InstancesDetermined(a[1..], b[1..]);
      assert a == [a[0]] + a[1..] && b == [b[0]] + b[1..];
      ConcatSplit(ParamPaths(a[0].params), InstancePaths(a[1..]), ParamPaths(b[0].params), InstancePaths(b[1..]));
    }
  }

  lemma {:induction false} ProgramsDetermined(a: seq<Program>, b: seq<Program>)
    requires BarePrograms(a) == BarePrograms(b)
    ensures |ProgramPaths(a)| == |ProgramPaths(b)| && (ProgramPaths(a) == ProgramPaths(b) ==> a == b)
  {
    if a != [] {
      var p, q := a[0], b[0];
      ConcatSplit([BareProgram(p)], BarePrograms(a[1..]), [BareProgram(q)], BarePrograms(b[1..]));
      ParamsDetermined(p.params, q.params);
      ParamsDetermined(p.mpiParams, q.mpiParams);
      ProgramsDetermined(a[1..], b[1..]);
      assert a == [p] + a[1..] && b == [q] + b[1..];
      ConcatSplit(ParamPaths(p.params), ParamPaths(p.mpiParams), ParamPaths(q.params), ParamPaths(q.mpiParams));
      ConcatSplit(ParamPaths(p.params) + ParamPaths(p.mpiParams), ProgramPaths(a[1..]),
                  ParamPaths(q.params) + ParamPaths(q.mpiParams), ProgramPaths(b[1..]));
    }
  }

  /** Of the flows that are the same but for their paths, each is known by its paths. */
  lemma {:induction false} PathsDetermine(a: Flow, b: Flow)
    requires Bare(a) == Bare(b)
    ensures |FlowPaths(a)| == |FlowPaths(b)| && (FlowPaths(a) == FlowPaths(b) ==> a == b)
    decreases a
  {
    ProgramsDetermined(a.programs, b.programs);
    RevisionsDetermined(a.revisions, b.revisions);
    var io, io' := StreamsOf(a), StreamsOf(b);
    ConcatSplit(io, ProgramPaths(a.programs), io', ProgramPaths(b.programs));
    ConcatSplit(io + ProgramPaths(a.programs), RevisionPaths(a.revisions),
                io' + ProgramPaths(b.programs), RevisionPaths(b.revisions));
    if io == io' { assert io[0] == io'[0] && io[1] == io'[1] && io[2] == io'[2]; }
  }

  lemma {:induction false} RevisionsDetermined(a: seq<Revision>, b: seq<Revision>)
    requires BareRevisions(a) == BareRevisions(b)
    ensures |RevisionPaths(a)| == |RevisionPaths(b)| && (RevisionPaths(a) == RevisionPaths(b) ==> a == b)
    decreases a
  {
    if a != [] {
      ConcatSplit([BareRevision(a[0])], BareRevisions(a[1..]), [BareRevision(b[0])], BareRevisions(b[1..]));
      RevisionsDetermined(a[1..], b[1..]);
      assert a == [a[0]] + a[1..] && b == [b[0]] + b[1..];
      match a[0].data
      case Opaque(_) => ConcatSplit<Path>([], RevisionPaths(a[1..]), [], RevisionPaths(b[1..]));
      case Nested(w) =>
        PathsDetermine(w, b[0].data.flow);
        ConcatSplit(FlowPaths(w), RevisionPaths(a[1..]), FlowPaths(b[0].data.flow), RevisionPaths(b[1..]));
    }
  }

  lemma {:induction false} ParamsAlike(ps: seq<Param>, f: string -> string, stop: bool)
    ensures BareParams(MapParams(ps, f, stop).0) == BareParams(ps)
    decreases ps
  {
    if ps != [] {
      ParamAlike(ps[0], f, stop);
      ParamsAlike(ps[1..], f, stop);
    }
  }

  lemma {:induction false} ParamAlike(p: Param, f: string -> string, stop: bool)
    ensures BareParam(MapParam(p, f, stop).0) == BareParam(p)
    decreases p
  {
    match p
    case File(vs) => MapValuesAt(vs, f);
    case Group(insts) => InstancesAlike(insts, f, stop);
    case Other(_) =>
  }

  lemma {:induction false} InstancesAlike(insts: seq<Instance>, f: string -> string, stop: bool)
    ensures BareInstances(MapInstances(insts, f, stop).0) == BareInstances(insts)
    decreases insts
  {
    if insts != [] {
      ParamsAlike(insts[0].params, f, stop);
      InstancesAlike(insts[1..], f, stop);
    }
  }

  lemma {:induction false} ProgramsAlike(ps: seq<Program>, f: string -> string)
    ensures BarePrograms(MapPrograms(ps, f, false)) == BarePrograms(ps)
  {
    if ps != [] {
      ParamsAlike(ps[0].params, f, false);
      ParamsAlike(ps[0].mpiParams, f, false);
      ParamsRewritten(ps[0].params, f);
      ParamsRewritten(ps[0].mpiParams, f);
      ProgramsAlike(ps[1..], f);
    }
  }

  lemma {:induction false} FlowAlike(w: Flow, f: string -> string)
    ensures Bare(MapFlow(w, f, false)) == Bare(w)
    decreases w
  {
    ProgramsAlike(w.programs, f);
    RevisionsAlike(w.revisions, f);
  }

  lemma {:induction false} RevisionsAlike(rs: seq<Revision>, f: string -> string)
    ensures BareRevisions(MapRevisions(rs, f, false)) == BareRevisions(rs)
    decreases rs
  {
    if rs != [] {
      RevisionsAlike(rs[1..], f);
      match rs[0].data
      case Opaque(_) =>
      case Nested(w) => FlowAlike(w, f);
    }
  }

  /** The rewritten flow is the one flow that has the old paths rewritten one by one and is otherwise
      as the old one was. */
  lemma RewritingExactly(w: Flow, f: string -> string, x: Flow)
    ensures x == MapFlow(w, f, false) <==> Bare(x) == Bare(w) && FlowPaths(x) == MapPaths(FlowPaths(w), f)
  {
    FlowAlike(w, f);
    PathsRewritten(w, f);
    if Bare(x) == Bare(w) && FlowPaths(x) == MapPaths(FlowPaths(w), f) {
      PathsDetermine(x, MapFlow(w, f, false));
    }
  }

  // ---------------------------------------------------------------- what leaves a flow as it is

  ghost predicate Fixes(f: string -> string, l: seq<Path>) {
    forall p :: p in l ==> OnPath(p, f) == p
  }

  lemma FixedIff(f: string -> string, l: seq<Path>)
    ensures MapPaths(l, f) == l <==> Fixes(f, l)
  {
    if MapPaths(l, f) == l {
      forall p | p in l ensures OnPath(p, f) == p {
        var i :| 0 <= i < |l| && l[i] == p;
        assert MapPaths(l, f)[i] == p;
      }
    }
  }

  /** A flow is left as it is exactly when the function leaves each of its paths as it is. */
  lemma UnchangedIffFixed(w: Flow, f: string -> string)
    ensures MapFlow(w, f, false) == w <==> Fixes(f, FlowPaths(w))
  {
    RewritingExactly(w, f, w);
    FixedIff(f, FlowPaths(w));
  }

  // ---------------------------------------------------------------- one pass or two

  function After(f: string -> string, g: string -> string): string -> string { (v: string) => f(g(v)) }

  /** What the first function makes of the path is not empty, or the second leaves the empty path. */
  predicate TwiceIsOnce(p: Path, g: string -> string, f: string -> string) {
    p.Value? && p.text != "" && g(p.text) == "" ==> f("") == ""
  }

  /** Rewriting by g and then by f is rewriting by f after g exactly when that is so of each path. */
  lemma FlowComposesIff(w: Flow, g: string -> string, f: string -> string)
    ensures MapFlow(MapFlow(w, g, false), f, false) == MapFlow(w, After(f, g), false) <==>
            forall p :: p in FlowPaths(w) ==> TwiceIsOnce(p, g, f)
  {
    var l := FlowPaths(w);
    var once, twice := MapFlow(w, After(f, g), false), MapFlow(MapFlow(w, g, false), f, false);
    PathsRewritten(w, g);
    PathsRewritten(MapFlow(w, g, false), f);
    PathsRewritten(w, After(f, g));
    FlowAlike(w, g);
    FlowAlike(MapFlow(w, g, false), f);
    FlowAlike(w, After(f, g));
    PathsDetermine(twice, once);
    TwicePaths(l, g, f);
  }

  lemma TwicePaths(l: seq<Path>, g: string -> string, f: string -> string)
    ensures MapPaths(MapPaths(l, g), f) == MapPaths(l, After(f, g)) <==> forall p :: p in l ==> TwiceIsOnce(p, g, f)
  {
    forall i | 0 <= i < |l|
      ensures MapPaths(MapPaths(l, g), f)[i] == MapPaths(l, After(f, g))[i] <==> TwiceIsOnce(l[i], g, f)
    {
      assert After(f, g)(l[i].text) == f(g(l[i].text));
    }
    if MapPaths(MapPaths(l, g), f) == MapPaths(l, After(f, g)) {
      forall p | p in l ensures TwiceIsOnce(p, g, f) { var i :| 0 <= i < |l| && l[i] == p; }
    }
  }

  /** The second function has nothing to say about paths the first one emptied. */
  ghost predicate Composable(g: string -> string, f: string -> string) {
    forall v :: v != "" && g(v) == "" ==> f("") == ""
  }

  /** A flow whose one file value is v. */
  function OneFile(v: string): Flow {
    Flow("", "", "", [Program([File([v])], [], false)], [])
  }

  lemma OneFilePaths(v: string)
    ensures Value(v) in FlowPaths(OneFile(v))
  {
    var ps := OneFile(v).programs;
    assert ps[1..] == [] && ps[0].params[1..] == [];
    assert ParamPaths(ps[0].params) == ValuePaths([v]) + [];
    assert ParamPaths(ps[0].params)[0] == Value(v);
    assert ProgramPaths(ps) == ParamPaths(ps[0].params) + ParamPaths([]) + [];
    assert FlowPaths(OneFile(v))[3] == Value(v);
  }

  /** On every flow, exactly when f leaves the empty path alone or g never empties a path. */
  lemma ComposesIff(g: string -> string, f: string -> string)
    ensures (forall w :: MapFlow(MapFlow(w, g, false), f, false) == MapFlow(w, After(f, g), false)) <==>
      Composable(g, f)
  {
    if Composable(g, f) {
      forall w ensures MapFlow(MapFlow(w, g, false), f, false) == MapFlow(w, After(f, g), false) {
        FlowComposesIff(w, g, f);
      }
    } else {
      var v :| v != "" && g(v) == "" && f("") != "";
      FlowComposesIff(OneFile(v), g, f);
      OneFilePaths(v);
      assert !TwiceIsOnce(Value(v), g, f);
    }
  }

  // ---------------------------------------------------------------- stopping at the first path

  /** None of the paths is there to be rewritten: values, all empty. */
  predicate AllEmpty(l: seq<Path>) {
    forall i :: 0 <= i < |l| ==> l[i].text == ""
  }

  /** How many of the values come up to the end of the first file parameter that holds a path. */
  function Reach(ps: seq<Param>): (n: nat)
    ensures n <= |ParamPaths(ps)|
    decreases ps
  {
    if ps == [] then 0
    else if !AllEmpty(OnePaths(ps[0])) then ReachInto(ps[0])
    else |OnePaths(ps[0])| + Reach(ps[1..])
  }

  function ReachInto(p: Param): (n: nat)
    ensures n <= |OnePaths(p)|
    decreases p
  {
    match p
    case File(vs) => |vs|
    case Group(insts) => ReachInstances(insts)
    case Other(_) => 0
  }

  function ReachInstances(insts: seq<Instance>): (n: nat)
    ensures n <= |InstancePaths(insts)|
    decreases insts
  {
    if insts == [] then 0
    else if !AllEmpty(ParamPaths(insts[0].params)) then Reach(insts[0].params)
    else |ParamPaths(insts[0].params)| + ReachInstances(insts[1..])
  }

  /** The first of the paths are rewritten, the rest is left. */
  function Prefix(paths: seq<Path>, n: nat, f: string -> string): seq<Path>
    requires n <= |paths|
  {
    MapPaths(paths[..n], f) + paths[n..]
  }

  lemma PrefixIn(a: seq<Path>, b: seq<Path>, n: nat, f: string -> string)
    requires n <= |a|
    ensures Prefix(a + b, n, f) == Prefix(a, n, f) + b
  {
    assert (a + b)[..n] == a[..n] && (a + b)[n..] == a[n..] + b;
  }

  lemma PrefixPast(a: seq<Path>, b: seq<Path>, n: nat, f: string -> string)
    requires n <= |b|
    ensures Prefix(a + b, |a| + n, f) == MapPaths(a, f) + Prefix(b, n, f)
  {
    assert (a + b)[..|a| + n] == a + b[..n] && (a + b)[|a| + n..] == b[n..];
    MapPathsConcat(a, b[..n], f);
  }

  lemma PathsOfCons(p: Param, ps: seq<Param>)
    ensures ParamPaths([p] + ps) == OnePaths(p) + ParamPaths(ps)
  {
    assert ([p] + ps)[0] == p && ([p] + ps)[1..] == ps;
  }

  lemma PathsOfInstances(ps: seq<Param>, insts: seq<Instance>)
    ensures InstancePaths([Instance(ps)] + insts) == ParamPaths(ps) + InstancePaths(insts)
  {
    assert ([Instance(ps)] + insts)[0].params == ps && ([Instance(ps)] + insts)[1..] == insts;
  }

  lemma EmptyConcat(a: seq<Path>, b: seq<Path>)
    ensures AllEmpty(a + b) <==> AllEmpty(a) && AllEmpty(b)
  {
    if AllEmpty(a + b) {
      forall i | 0 <= i < |a| ensures a[i].text == "" { assert (a + b)[i] == a[i]; }
      forall i | 0 <= i < |b| ensures b[i].text == "" { assert (a + b)[|a| + i] == b[i]; }
    }
  }

  lemma DirtyIff(vs: seq<string>)
    ensures Dirty(vs) <==> !AllEmpty(ValuePaths(vs))
  {
    if Dirty(vs) {
      var i :| 0 <= i < |vs| && vs[i] != "";
      assert ValuePaths(vs)[i].text != "";
    }
  }

  lemma WholeReach(paths: seq<Path>, f: string -> string)
    ensures Prefix(paths, |paths|, f) == MapPaths(paths, f)
  {
    assert paths[..|paths|] == paths && paths[|paths|..] == [];
  }

  /** With programs to be marked, the walk over a list ends with the first file parameter that holds a
      path, and what comes up to its end is rewritten, whatever the function. */
  lemma {:induction false} StopsAtFirst(ps: seq<Param>, f: string -> string)
    ensures MapParams(ps, f, true).1 <==> AllEmpty(ParamPaths(ps))
    ensures ParamPaths(MapParams(ps, f, true).0) == Prefix(ParamPaths(ps), Reach(ps), f)
    decreases ps
  {
    if ps == [] {
      assert MapPaths([], f) + [] == [];
    } else {
      ParamStops(ps[0], f);
      StopsAtFirst(ps[1..], f);
      EmptyConcat(OnePaths(ps[0]), ParamPaths(ps[1..]));
      if AllEmpty(OnePaths(ps[0])) { GoesOn(ps, f); } else { StopsHere(ps, f); }
    }
  }

  lemma GoesOn(ps: seq<Param>, f: string -> string)
    requires ps != [] && AllEmpty(OnePaths(ps[0])) && MapParam(ps[0], f, true).1
    requires OnePaths(MapParam(ps[0], f, true).0) == MapPaths(OnePaths(ps[0]), f)
    requires ParamPaths(MapParams(ps[1..], f, true).0) == Prefix(ParamPaths(ps[1..]), Reach(ps[1..]), f)
    ensures ParamPaths(MapParams(ps, f, true).0) == Prefix(ParamPaths(ps), Reach(ps), f)
  {
    hide MapParam, OnePaths, MapPaths, Prefix, AllEmpty;
    PathsOfCons(MapParam(ps[0], f, true).0, MapParams(ps[1..], f, true).0);
    PrefixPast(OnePaths(ps[0]), ParamPaths(ps[1..]), Reach(ps[1..]), f);
  }

  lemma StopsHere(ps: seq<Param>, f: string -> string)
    requires ps != [] && !AllEmpty(OnePaths(ps[0])) && !MapParam(ps[0], f, true).1
    requires OnePaths(MapParam(ps[0], f, true).0) == Prefix(OnePaths(ps[0]), ReachInto(ps[0]), f)
    ensures ParamPaths(MapParams(ps, f, true).0) == Prefix(ParamPaths(ps), Reach(ps), f)
  {
    hide MapParam, OnePaths, Prefix, ReachInto;
    PathsOfCons(MapParam(ps[0], f, true).0, ps[1..]);
    PrefixIn(OnePaths(ps[0]), ParamPaths(ps[1..]), ReachInto(ps[0]), f);
  }

  lemma {:induction false} ParamStops(p: Param, f: string -> string)
    ensures MapParam(p, f, true).1 <==> AllEmpty(OnePaths(p))
    ensures OnePaths(MapParam(p, f, true).0) ==
      if AllEmpty(OnePaths(p)) then MapPaths(OnePaths(p), f) else Prefix(OnePaths(p), ReachInto(p), f)
    decreases p
  {
    WholeReach(OnePaths(p), f);
    match p
    case File(vs) =>
      DirtyIff(vs);
      ValuesRewritten(vs, f);
    case Group(insts) =>
      InstancesStop(insts, f);
      EmptyReach(insts);
    case Other(_) =>
  }

  lemma {:induction false} EmptyReach(insts: seq<Instance>)
    ensures AllEmpty(InstancePaths(insts)) ==> ReachInstances(insts) == |InstancePaths(insts)|
    decreases insts
  {
    if insts != [] {
      EmptyConcat(ParamPaths(insts[0].params), InstancePaths(insts[1..]));
      EmptyReach(insts[1..]);
    }
  }

  lemma {:induction false} EmptyReachParams(ps: seq<Param>)
    ensures AllEmpty(ParamPaths(ps)) ==> Reach(ps) == |ParamPaths(ps)|
    decreases ps
  {
    if ps != [] {
      EmptyConcat(OnePaths(ps[0]), ParamPaths(ps[1..]));
      EmptyReachParams(ps[1..]);
    }
  }

  lemma {:induction false} InstancesStop(insts: seq<Instance>, f: string -> string)
    ensures MapInstances(insts, f, true).1 <==> AllEmpty(InstancePaths(insts))
    ensures InstancePaths(MapInstances(insts, f, true).0) == Prefix(InstancePaths(insts), ReachInstances(insts), f)
    decreases insts
  {
    if insts == [] {
      assert MapPaths([], f) + [] == [];
    } else {
      var ps := insts[0].params;
      var own, rest := ParamPaths(ps), InstancePaths(insts[1..]);
      var first, later := MapParams(ps, f, true).0, MapInstances(insts[1..], f, true).0;
      StopsAtFirst(ps, f);
      InstancesStop(insts[1..], f);
      EmptyConcat(own, rest);
      if AllEmpty(own) {
        EmptyReachParams(ps);
        PrefixPast(own, rest, ReachInstances(insts[1..]), f);
        WholeReach(own, f);
        PathsOfInstances(first, later);
      } else {
        PrefixIn(own, rest, Reach(ps), f);
        PathsOfInstances(first, insts[1..]);
      }
    }
  }

  /** Stopping misses no rewriting exactly when the function leaves every later path as it is. */
  lemma StoppingMissesNothingIff(ps: seq<Param>, f: string -> string)
    ensures MapParams(ps, f, true).0 == MapParams(ps, f, false).0 <==> Fixes(f, ParamPaths(ps)[Reach(ps)..])
  {
    var early, full := MapParams(ps, f, true).0, MapParams(ps, f, false).0;
    StopsAtFirst(ps, f);
    ParamsRewritten(ps, f);
    ParamsAlike(ps, f, true);
    ParamsAlike(ps, f, false);
    ParamsDetermined(early, full);
    PrefixIsAllIff(ParamPaths(ps), Reach(ps), f);
  }

  lemma PrefixIsAllIff(paths: seq<Path>, n: nat, f: string -> string)
    requires n <= |paths|
    ensures Prefix(paths, n, f) == MapPaths(paths, f) <==> Fixes(f, paths[n..])
  {
    var rest := paths[n..];
    assert paths == paths[..n] + rest;
    MapPathsConcat(paths[..n], rest, f);
    ConcatSplit(MapPaths(paths[..n], f), rest, MapPaths(paths[..n], f), MapPaths(rest, f));
    FixedIff(f, rest);
  }

  /** With programs to be marked, a program ends up marked exactly when it was or holds a path. */
  lemma MarkedIff(p: Program, f: string -> string)
    ensures MapProgram(p, f, true).pathError <==>
            p.pathError || !AllEmpty(ParamPaths(p.params)) || !AllEmpty(ParamPaths(p.mpiParams))
    ensures MapProgram(p, f, false).pathError == p.pathError
  {
    StopsAtFirst(p.params, f);
    StopsAtFirst(p.mpiParams, f);
    ParamsRewritten(p.params, f);
    ParamsRewritten(p.mpiParams, f);
  }

  /** The one function the program rewrites with when it marks programs. */
  const TO_EMPTY: string -> string := (_) => ""

  /** Emptying with marks, as the program does it, leaves no path in a list exactly when no file
      parameter after the first that holds one holds any. */
  lemma EmptyingIff(ps: seq<Param>)
    ensures AllEmpty(ParamPaths(MapParams(ps, TO_EMPTY, true).0)) <==> AllEmpty(ParamPaths(ps)[Reach(ps)..])
  {
    var paths, n := ParamPaths(ps), Reach(ps);
    StopsAtFirst(ps, TO_EMPTY);
    EmptyConcat(MapPaths(paths[..n], TO_EMPTY), paths[n..]);
    assert AllEmpty(MapPaths(paths[..n], TO_EMPTY)) by {
      forall i | 0 <= i < n ensures MapPaths(paths[..n], TO_EMPTY)[i].text == "" {}
    }
  }

  /** No file parameter of a list holds a path after the first that does. */
  predicate AllReached(ps: seq<Param>) {
    AllEmpty(ParamPaths(ps)[Reach(ps)..])
  }

  predicate ProgramsReached(ps: seq<Program>) {
    ps == [] || (AllReached(ps[0].params) && AllReached(ps[0].mpiParams) && ProgramsReached(ps[1..]))
  }

  predicate FlowReached(w: Flow)
    decreases w
  {
    ProgramsReached(w.programs) && RevisionsReached(w.revisions)
  }

  predicate RevisionsReached(rs: seq<Revision>)
    decreases rs
  {
    rs == [] ||
    ((match rs[0].data case Opaque(_) => true case Nested(w) => FlowReached(w)) && RevisionsReached(rs[1..]))
  }

  lemma {:induction false} ProgramsEmptied(ps: seq<Program>)
    ensures AllEmpty(ProgramPaths(MapPrograms(ps, TO_EMPTY, true))) <==> ProgramsReached(ps)
  {
    if ps != [] {
      var p, rest := MapProgram(ps[0], TO_EMPTY, true), MapPrograms(ps[1..], TO_EMPTY, true);
      EmptyingIff(ps[0].params);
      EmptyingIff(ps[0].mpiParams);
      ProgramsEmptied(ps[1..]);
      assert MapPrograms(ps, TO_EMPTY, true)[1..] == rest;
      EmptyConcat(ParamPaths(p.params), ParamPaths(p.mpiParams));
      EmptyConcat(ParamPaths(p.params) + ParamPaths(p.mpiParams), ProgramPaths(rest));
    }
  }

  /** Setting the paths of a flow to empty, as the program does it, leaves none at any depth exactly
      when in every parameter list of every program no file parameter holds a path after the first
      that does. */
  lemma {:induction false} FlowEmptied(w: Flow)
    ensures AllEmpty(FlowPaths(MapFlow(w, TO_EMPTY, true))) <==> FlowReached(w)
    decreases w
  {
    var x := MapFlow(w, TO_EMPTY, true);
    ProgramsEmptied(w.programs);
    RevisionsEmptied(w.revisions);
    EmptyConcat(StreamsOf(x), ProgramPaths(x.programs));
    EmptyConcat(StreamsOf(x) + ProgramPaths(x.programs), RevisionPaths(x.revisions));
  }

  lemma {:induction false} RevisionsEmptied(rs: seq<Revision>)
    ensures AllEmpty(RevisionPaths(MapRevisions(rs, TO_EMPTY, true))) <==> RevisionsReached(rs)
    decreases rs
  {
    if rs != [] {
      var rest := MapRevisions(rs[1..], TO_EMPTY, true);
      RevisionsEmptied(rs[1..]);
      assert MapRevisions(rs, TO_EMPTY, true)[1..] == rest;
      match rs[0].data
      case Opaque(_) => EmptyConcat([], RevisionPaths(rest));
      case Nested(w) =>
        FlowEmptied(w);
        EmptyConcat(FlowPaths(MapFlow(w, TO_EMPTY, true)), RevisionPaths(rest));
    }
  }

  /** Two file parameters that hold a path each: emptying with marks leaves the second one. */
  lemma EmptyingLeavesOne()
    ensures var ps := [File(["a"]), File(["b"])]; MapParams(ps, TO_EMPTY, true).0 == [File([""]), File(["b"])]
  {
    var ps := [File(["a"]), File(["b"])];
    assert ps[1..] == [File(["b"])] && ["a"][1..] == [];
    assert ["a"][0] != "";
    assert Dirty(["a"]);
    assert MapValues(["a"], TO_EMPTY) == [""] + MapValues([], TO_EMPTY) == [""];
    assert MapParam(ps[0], TO_EMPTY, true) == (File([""]), false);
  }

  // ---------------------------------------------------------------- the walks

  /** The loop over the values of one file parameter. */
  method ModifyValues(vs: seq<string>, f: string -> string) returns (vs': seq<string>, cleaned: bool)
    ensures vs' == MapValues(vs, f) && (cleaned <==> Dirty(vs))
  {
    vs', cleaned := [], false;
    for i := 0 to |vs|
      invariant vs' == MapValues(vs[..i], f)
      invariant cleaned <==> Dirty(vs[..i])
    {
      var v := if vs[i] == "" then "" else f(vs[i]);
      ValuesSnoc(vs[..i], vs[i], f);
      DirtySnoc(vs[..i], vs[i]);
      assert vs[..i] + [vs[i]] == vs[..i + 1];
      if vs[i] != "" {
        cleaned := true;
      }
      vs' := vs' + [v];
    }
    assert vs[..|vs|] == vs;
  }

  lemma {:induction false} ValuesSnoc(vs: seq<string>, v: string, f: string -> string)
    ensures MapValues(vs + [v], f) == MapValues(vs, f) + [if v == "" then "" else f(v)]
  {
    var all := vs + [v];
    if vs == [] {
      assert all[1..] == [];
    } else {
      assert all[1..] == vs[1..] + [v] && all[0] == vs[0];
      ValuesSnoc(vs[1..], v, f);
    }
  }

  lemma DirtySnoc(vs: seq<string>, v: string)
    ensures Dirty(vs + [v]) <==> Dirty(vs) || v != ""
  {
    var all := vs + [v];
    if Dirty(vs) {
      var i :| 0 <= i < |vs| && vs[i] != "";
      assert all[i] != "";
    }
    assert all[|vs|] == v;
  }

  /** One turn of the walk over a list. */
  lemma ParamsTurn(done: seq<Param>, ps: seq<Param>, i: nat, f: string -> string, stop: bool)
    requires i < |ps|
    ensures var (p, go) := MapParam(ps[i], f, stop); var next := done + [p];
      && done + MapParams(ps[i..], f, stop).0 ==
           (if go then next + MapParams(ps[i + 1..], f, stop).0 else next + ps[i + 1..])
      && MapParams(ps[i..], f, stop).1 == (go && MapParams(ps[i + 1..], f, stop).1)
  {
    assert ps[i..][0] == ps[i] && ps[i..][1..] == ps[i + 1..];
  }

  /** The walk over a parameter list, groups instance by instance. */
  method ModifyParams(ps: seq<Param>, f: string -> string, stop: bool) returns (ps': seq<Param>, all: bool)
    ensures ps' == MapParams(ps, f, stop).0 && all == MapParams(ps, f, stop).1
    decreases ps
  {
    hide MapParam;
    ps' := [];
    assert ps[0..] == ps;
    for i := 0 to |ps|
      invariant MapParams(ps, f, stop).0 == ps' + MapParams(ps[i..], f, stop).0
      invariant MapParams(ps, f, stop).1 == MapParams(ps[i..], f, stop).1
    {
      ParamsTurn(ps', ps, i, f, stop);
      var p, go := ModifyParam(ps[i], f, stop);
      ps' := ps' + [p];
      if !go { return ps' + ps[i + 1..], false; }
    }
    assert ps[|ps|..] == [];
    all := true;
  }

  method ModifyParam(p: Param, f: string -> string, stop: bool) returns (p': Param, go: bool)
    ensures p' == MapParam(p, f, stop).0 && go == MapParam(p, f, stop).1
    decreases p
  {
    match p
    case File(vs) =>
      var vs', cleaned := ModifyValues(vs, f);
      return File(vs'), !(stop && cleaned);
    case Group(insts) =>
      var insts', all := ModifyInstances(p.instances, f, stop);
      return Group(insts'), all;
    case Other(_) =>
      return p, true;
  }

  lemma InstancesTurn(done: seq<Instance>, insts: seq<Instance>, i: nat, f: string -> string, stop: bool)
    requires i < |insts|
    ensures var (ps, go) := MapParams(insts[i].params, f, stop); var next := done + [Instance(ps)];
      && done + MapInstances(insts[i..], f, stop).0 ==
           (if go then next + MapInstances(insts[i + 1..], f, stop).0 else next + insts[i + 1..])
      && MapInstances(insts[i..], f, stop).1 == (go && MapInstances(insts[i + 1..], f, stop).1)
  {
    assert insts[i..][0] == insts[i] && insts[i..][1..] == insts[i + 1..];
  }

  method ModifyInstances(insts: seq<Instance>, f: string -> string, stop: bool)
    returns (insts': seq<Instance>, all: bool)
    ensures insts' == MapInstances(insts, f, stop).0 && all == MapInstances(insts, f, stop).1
    decreases insts
  {
    hide MapParams;
    insts' := [];
    assert insts[0..] == insts;
    for i := 0 to |insts|
      invariant MapInstances(insts, f, stop).0 == insts' + MapInstances(insts[i..], f, stop).0
      invariant MapInstances(insts, f, stop).1 == MapInstances(insts[i..], f, stop).1
    {
      InstancesTurn(insts', insts, i, f, stop);
      var first, go := ModifyParams(insts[i].params, f, stop);
      insts' := insts' + [Instance(first)];
      if !go { return insts' + insts[i + 1..], false; }
    }
    assert insts[|insts|..] == [];
    all := true;
  }

  lemma {:induction false} ProgramsSnoc(ps: seq<Program>, p: Program, f: string -> string, stop: bool)
    ensures MapPrograms(ps + [p], f, stop) == MapPrograms(ps, f, stop) + [MapProgram(p, f, stop)]
  {
    var all := ps + [p];
    if ps == [] {
      assert all[1..] == [];
    } else {
      assert all[1..] == ps[1..] + [p] && all[0] == ps[0];
      ProgramsSnoc(ps[1..], p, f, stop);
    }
  }

  /** Every program's two parameter lists; a walk cut short marks the program. */
  method ModifyPrograms(ps: seq<Program>, f: string -> string, stop: bool) returns (ps': seq<Program>)
    ensures ps' == MapPrograms(ps, f, stop)
  {
    ps' := [];
    for i := 0 to |ps|
      invariant ps' == MapPrograms(ps[..i], f, stop)
    {
      var params, a := ModifyParams(ps[i].params, f, stop);
      var mpi, b := ModifyParams(ps[i].mpiParams, f, stop);
      ProgramsSnoc(ps[..i], ps[i], f, stop);
      assert ps[..i] + [ps[i]] == ps[..i + 1];
      ps' := ps' + [Program(params, mpi, ps[i].pathError || !a || !b)];
    }
    assert ps[..|ps|] == ps;
  }

  /** The flow's streams, then its programs, then every revision that loads. */
  method ModifyPaths(w: Flow, f: string -> string, stop: bool) returns (w': Flow)
    ensures w' == MapFlow(w, f, stop)
    decreases w
  {
    var programs := ModifyPrograms(w.programs, f, stop);
    var revisions := ModifyRevisions(w.revisions, f, stop);
    w' := Flow(f(w.input), f(w.output), f(w.error), programs, revisions);
  }

  lemma {:induction false} RevisionsSnoc(rs: seq<Revision>, r: Revision, f: string -> string, stop: bool)
    ensures MapRevisions(rs + [r], f, stop) == MapRevisions(rs, f, stop) + [MapRevision(r, f, stop)]
  {
    var all := rs + [r];
    if rs == [] {
      assert all[1..] == [];
    } else {
      assert all[1..] == rs[1..] + [r] && all[0] == rs[0];
      RevisionsSnoc(rs[1..], r, f, stop);
    }
  }

  method ModifyRevisions(rs: seq<Revision>, f: string -> string, stop: bool) returns (rs': seq<Revision>)
    ensures rs' == MapRevisions(rs, f, stop)
    decreases rs
  {
    rs' := [];
    for i := 0 to |rs|
      invariant rs' == MapRevisions(rs[..i], f, stop)
    {
      var r := ModifyRevision(rs[i], f, stop);
      RevisionsSnoc(rs[..i], rs[i], f, stop);
      assert rs[..i] + [rs[i]] == rs[..i + 1];
      rs' := rs' + [r];
    }
    assert rs[..|rs|] == rs;
  }

  method ModifyRevision(r: Revision, f: string -> string, stop: bool) returns (r': Revision)
    ensures r' == MapRevision(r, f, stop)
    decreases r
  {
    r' := r;
    if r.data.Nested? {
      var inner := ModifyPaths(r.data.flow, f, stop);
      r' := r.(data := Nested(inner));
    }
  }
}
