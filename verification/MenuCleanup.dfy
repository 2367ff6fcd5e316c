/**
 Emptying the values of a menu made from a flow, its values becoming the defaults (debr/debr-menu.c).
 */
module MenuCleanup {
  import opened Strings

  datatype Param = Plain(values: seq<string>, defaults: seq<string>) | Group(instances: seq<Instance>)

  datatype Instance = Instance(params: seq<Param>)

  // ---------------------------------------------------------------- what the cleanup computes

  function Blanks(n: nat): seq<string> { seq(n, i => "") }

  function CleanOne(p: Param, asDefault: bool): Param {
    if p.Plain? then Plain(Blanks(|p.values|), if asDefault then p.values else p.defaults) else p
  }

  /** The walk ends with the first group. */
  function Clean(ps: seq<Param>, asDefault: bool): (r: seq<Param>)
    ensures |r| == |ps|
    decreases ps
  {
    if ps == [] then [] else
      match ps[0]
      case Group(insts) => [Group(CleanInstances(insts, asDefault))] + ps[1..]
      case Plain(_, _) => [CleanOne(ps[0], asDefault)] + Clean(ps[1..], asDefault)
  }

  function CleanInstances(insts: seq<Instance>, asDefault: bool): (r: seq<Instance>)
    ensures |r| == |insts|
    decreases insts
  {
    if insts == [] then [] else [Instance(Clean(insts[0].params, asDefault))] + CleanInstances(insts[1..], asDefault)
  }

  // ---------------------------------------------------------------- the walks

  /** One step along a list of elements; None stands past the last. */
  function NextOf(at: Option<nat>, n: nat): Option<nat> {
    match at case None => None case Some(i) => if i + 1 < n then Some(i + 1) else None
  }

  /** Both lists in lockstep: defaults are overwritten, appended where they run out, and the ones to
      spare are removed. */
  method CopyValues(values: seq<string>, previous: seq<string>) returns (defaults: seq<string>)
    ensures defaults == values
  {
    defaults := previous;
    var at := if |defaults| == 0 then None else Some(0);
    for i := 0 to |values|
      invariant |defaults| >= i && defaults[..i] == values[..i]
      invariant at == if i < |defaults| then Some(i) else None
    {
      if at == None {
        defaults := defaults + [""];
        at := Some(|defaults| - 1);
      }
      defaults := defaults[at.value := values[i]];
      assert defaults[..i + 1] == values[..i] + [values[i]] == values[..i + 1];
      at := NextOf(at, |defaults|);
    }
    while at != None
      invariant |defaults| >= |values| && defaults[..|values|] == values[..|values|]
      invariant at == if |values| < |defaults| then Some(|values|) else None
      decreases |defaults|
    {
      var j := at.value;
      at := if j + 1 < |defaults| then Some(j) else None;
      defaults := defaults[..j] + defaults[j + 1..];
    }
    assert defaults == defaults[..|values|] && values == values[..|values|];
  }

  method EmptyValues(values: seq<string>) returns (r: seq<string>)
    ensures r == Blanks(|values|)
  {
    r := values;
    for i := 0 to |values|
      invariant |r| == |values| && r[..i] == Blanks(i)
    {
      r := r[i := ""];
      assert r[..i + 1] == Blanks(i) + [""] == Blanks(i + 1);
    }
    assert r == r[..|values|];
  }

  method Cleanup(ps: seq<Param>, asDefault: bool) returns (r: seq<Param>)
    ensures r == Clean(ps, asDefault)
    decreases ps
  {
    r := [];
    assert ps[0..] == ps;
    for i := 0 to |ps|
      invariant Clean(ps, asDefault) == r + Clean(ps[i..], asDefault)
    {
      assert ps[i..][0] == ps[i] && ps[i..][1..] == ps[i + 1..];
      if ps[i].Group? {
        var insts := CleanupInstances(ps[i].instances, asDefault);
        return r + [Group(insts)] + ps[i + 1..];
      }
      var defaults := ps[i].defaults;
      if asDefault {
        defaults := CopyValues(ps[i].values, defaults);
      }
      var values := EmptyValues(ps[i].values);
      r := r + [Plain(values, defaults)];
    }
    assert ps[|ps|..] == [];
  }

  method CleanupInstances(insts: seq<Instance>, asDefault: bool) returns (r: seq<Instance>)
    ensures r == CleanInstances(insts, asDefault)
    decreases insts
  {
    r := [];
    assert insts[0..] == insts;
    for i := 0 to |insts|
      invariant CleanInstances(insts, asDefault) == r + CleanInstances(insts[i..], asDefault)
    {
      assert insts[i..][0] == insts[i] && insts[i..][1..] == insts[i + 1..];
      var params := Cleanup(insts[i].params, asDefault);
      r := r + [Instance(params)];
    }
    assert insts[|insts|..] == [];
  }

  // ---------------------------------------------------------------- what is reached and what is not

  /** The parameters the walk reaches, in its order, and the others, from the groups' inside outwards. */
  function Reached(ps: seq<Param>): seq<Param>
    decreases ps
  {
    if ps == [] then [] else
      match ps[0]
      case Group(insts) => ReachedInside(insts)
      case Plain(_, _) => [ps[0]] + Reached(ps[1..])
  }

  function ReachedInside(insts: seq<Instance>): seq<Param>
    decreases insts
  {
    if insts == [] then [] else Reached(insts[0].params) + ReachedInside(insts[1..])
  }

  function Missed(ps: seq<Param>): seq<Param>
    decreases ps
  {
    if ps == [] then [] else
      match ps[0]
      case Group(insts) => MissedInside(insts) + ps[1..]
      case Plain(_, _) => Missed(ps[1..])
  }

  function MissedInside(insts: seq<Instance>): seq<Param>
    decreases insts
  {
    if insts == [] then [] else Missed(insts[0].params) + MissedInside(insts[1..])
  }

  function CleanEach(ps: seq<Param>, asDefault: bool): (r: seq<Param>)
    ensures |r| == |ps| && forall i :: 0 <= i < |r| ==> r[i] == CleanOne(ps[i], asDefault)
  {
    seq(|ps|, i requires 0 <= i < |ps| => CleanOne(ps[i], asDefault))
  }

  lemma CleanEachConcat(a: seq<Param>, b: seq<Param>, asDefault: bool)
    ensures CleanEach(a + b, asDefault) == CleanEach(a, asDefault) + CleanEach(b, asDefault)
  {
  }

  /** The parameters reached are cleaned, each and in place; those missed are as they were. */
  lemma {:induction false} CleansTheReached(ps: seq<Param>, asDefault: bool)
    ensures Reached(Clean(ps, asDefault)) == CleanEach(Reached(ps), asDefault)
    ensures Missed(Clean(ps, asDefault)) == Missed(ps)
    decreases ps
  {
    if ps != [] {
      var r := Clean(ps, asDefault);
      match ps[0]
      case Group(insts) =>
        CleansInside(insts, asDefault);
        assert r[1..] == ps[1..];
      case Plain(_, _) =>
        CleansTheReached(ps[1..], asDefault);
        CleanEachConcat([ps[0]], Reached(ps[1..]), asDefault);
        assert r[1..] == Clean(ps[1..], asDefault) && r[0] == CleanOne(ps[0], asDefault);
        assert CleanEach([ps[0]], asDefault) == [r[0]];
    }
  }

  lemma {:induction false} CleansInside(insts: seq<Instance>, asDefault: bool)
    ensures ReachedInside(CleanInstances(insts, asDefault)) == CleanEach(ReachedInside(insts), asDefault)
    ensures MissedInside(CleanInstances(insts, asDefault)) == MissedInside(insts)
    decreases insts
  {
    if insts != [] {
      var r := CleanInstances(insts, asDefault);
      CleansTheReached(insts[0].params, asDefault);
      CleansInside(insts[1..], asDefault);
      CleanEachConcat(Reached(insts[0].params), ReachedInside(insts[1..]), asDefault);
      assert r[1..] == CleanInstances(insts[1..], asDefault);
    }
  }

  /** What that makes of each: as many empty values as there were, and the old values as defaults when
      asked for; otherwise the defaults stay. */
  lemma CleanedValues(ps: seq<Param>, asDefault: bool, i: nat)
    requires i < |Reached(ps)|
    ensures var r := Reached(Clean(ps, asDefault));
      && |r| == |Reached(ps)|
      && match Reached(ps)[i]
         case Group(_) => false
         case Plain(values, defaults) =>
           && r[i].Plain? && |r[i].values| == |values| && (forall v :: v in r[i].values ==> v == "")
           && r[i].defaults == if asDefault then values else defaults
  {
    CleansTheReached(ps, asDefault);
    ReachedArePlain(ps);
  }

  /** Only plain parameters are reached. */
  lemma {:induction false} ReachedArePlain(ps: seq<Param>)
    ensures forall i :: 0 <= i < |Reached(ps)| ==> Reached(ps)[i].Plain?
    decreases ps
  {
    if ps != [] {
      match ps[0]
      case Group(insts) => ReachedInsideArePlain(insts);
      case Plain(_, _) => ReachedArePlain(ps[1..]);
    }
  }

  lemma {:induction false} ReachedInsideArePlain(insts: seq<Instance>)
    ensures forall i :: 0 <= i < |ReachedInside(insts)| ==> ReachedInside(insts)[i].Plain?
    decreases insts
  {
    if insts != [] {
      ReachedArePlain(insts[0].params);
      ReachedInsideArePlain(insts[1..]);
    }
  }

  // ---------------------------------------------------------------- is everything cleaned?

  /** The cleanup meant for every parameter. */
  function CleanAll(ps: seq<Param>, asDefault: bool): seq<Param>
    decreases ps
  {
    if ps == [] then [] else [CleanDeep(ps[0], asDefault)] + CleanAll(ps[1..], asDefault)
  }

  function CleanDeep(p: Param, asDefault: bool): Param
    decreases p
  {
    match p
    case Plain(_, _) => CleanOne(p, asDefault)
    case Group(insts) => Group(CleanAllInside(insts, asDefault))
  }

  function CleanAllInside(insts: seq<Instance>, asDefault: bool): seq<Instance>
    decreases insts
  {
    if insts == [] then [] else [Instance(CleanAll(insts[0].params, asDefault))] + CleanAllInside(insts[1..], asDefault)
  }

  /** Cleaning would not change the parameter: its values are empty, and the defaults no others. */
  predicate Settled(p: Param, asDefault: bool)
    decreases p
  {
    match p
    case Plain(values, defaults) => values == Blanks(|values|) && (asDefault ==> defaults == values)
    case Group(insts) => SettledInside(insts, asDefault)
  }

  predicate SettledInside(insts: seq<Instance>, asDefault: bool)
    decreases insts
  {
    insts == [] || (SettledEach(insts[0].params, asDefault) && SettledInside(insts[1..], asDefault))
  }

  predicate SettledEach(ps: seq<Param>, asDefault: bool)
    decreases ps
  {
    ps == [] || (Settled(ps[0], asDefault) && SettledEach(ps[1..], asDefault))
  }

  lemma {:induction false} SettledIff(p: Param, asDefault: bool)
    ensures CleanDeep(p, asDefault) == p <==> Settled(p, asDefault)
    decreases p
  {
    if p.Group? { SettledInsideIff(p.instances, asDefault); }
  }

  lemma {:induction false} SettledInsideIff(insts: seq<Instance>, asDefault: bool)
    ensures CleanAllInside(insts, asDefault) == insts <==> SettledInside(insts, asDefault)
    decreases insts
  {
    if insts != [] {
      SettledEachIff(insts[0].params, asDefault);
      SettledInsideIff(insts[1..], asDefault);
      assert insts == [insts[0]] + insts[1..];
    }
  }

  lemma {:induction false} SettledEachIff(ps: seq<Param>, asDefault: bool)
    ensures CleanAll(ps, asDefault) == ps <==> SettledEach(ps, asDefault)
    decreases ps
  {
    if ps != [] {
      SettledIff(ps[0], asDefault);
      SettledEachIff(ps[1..], asDefault);
      assert ps == [ps[0]] + ps[1..];
    }
  }

  lemma {:induction false} SettledConcat(a: seq<Param>, b: seq<Param>, asDefault: bool)
    ensures SettledEach(a + b, asDefault) <==> SettledEach(a, asDefault) && SettledEach(b, asDefault)
  {
    if a == [] {
      assert a + b == b;
    } else {
      assert (a + b)[1..] == a[1..] + b;
      SettledConcat(a[1..], b, asDefault);
    }
  }

  /** The early return does no harm exactly when every parameter it leaves out is settled. */
  lemma {:induction false} CleansAllIff(ps: seq<Param>, asDefault: bool)
    ensures Clean(ps, asDefault) == CleanAll(ps, asDefault) <==> SettledEach(Missed(ps), asDefault)
    decreases ps
  {
    if ps != [] {
      var clean, all := Clean(ps, asDefault), CleanAll(ps, asDefault);
      assert clean == [clean[0]] + clean[1..] && all == [all[0]] + all[1..];
      match ps[0]
      case Group(insts) =>
        CleansAllInsideIff(insts, asDefault);
        SettledEachIff(ps[1..], asDefault);
        SettledConcat(MissedInside(insts), ps[1..], asDefault);
      case Plain(_, _) =>
        CleansAllIff(ps[1..], asDefault);
    }
  }

  lemma {:induction false} CleansAllInsideIff(insts: seq<Instance>, asDefault: bool)
    ensures CleanInstances(insts, asDefault) == CleanAllInside(insts, asDefault) <==>
      SettledEach(MissedInside(insts), asDefault)
    decreases insts
  {
    if insts != [] {
      var clean, all := CleanInstances(insts, asDefault), CleanAllInside(insts, asDefault);
      assert clean == [clean[0]] + clean[1..] && all == [all[0]] + all[1..];
      CleansAllIff(insts[0].params, asDefault);
      CleansAllInsideIff(insts[1..], asDefault);
      SettledConcat(Missed(insts[0].params), MissedInside(insts[1..]), asDefault);
    }
  }

  /** A parameter after a group, as one is first made, keeps its value and gets no default. */
  lemma ValueKept()
    ensures var ps := [Group([Instance([])]), Plain(["v"], [])]; Clean(ps, true) == ps
  {
    var insts := [Instance([])];
    var ps := [Group(insts), Plain(["v"], [])];
    assert insts[1..] == [];
    assert CleanInstances(insts, true) == insts;
    assert Clean(ps, true) == [Group(insts)] + ps[1..];
  }
}
