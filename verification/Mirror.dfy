/**
 Two trees kept alike: the parameters of a program in its document and the rows that show them, as
 debr/debr-parameter.c edits them side by side.

 `Mirrors` says that the rows have the shape and the order of the parameters, `Paired` that a row and
 a parameter are in the same place. Everything done in matching places of both trees keeps them
 alike: placing nodes (`PlaceMirrors`), taking one away (`WithoutMirrors`), moving one (`GoodMove`),
 and making a row anew elsewhere, but only with nothing below it (`GoodRemake`).

 `NoNest` says that no group sits inside a group. It is known exactly when placing keeps it
 (`NoNestPlace`), which decides where groups may be pasted and dropped.

 `Good` is what every event of the editor keeps; module Editor says what the events are.
 */
module Mirror {
  import opened Strings
  import opened Trees

  /** Parameters, true for groups, and the rows that show them, each with the name of its parameter. */
  type Nodes = seq<Tree<bool>>
  type Rows = seq<Tree<nat>>

  predicate IsGroup(ns: Nodes, id: nat) {
    Find(ns, id).Some? && Find(ns, id).value.data
  }

  predicate InGroup(ns: Nodes, id: nat) {
    Parent(ns, id).Some?
  }

  /** Only groups have anything below them. */
  predicate Bare(ns: Nodes)
    decreases ns
  {
    |ns| == 0 || ((!ns[0].data ==> |ns[0].kids| == 0) && Bare(ns[0].kids) && Bare(ns[1..]))
  }

  /** No group sits inside a group; inside says whether the list itself is in one. */
  predicate NoNest(ns: Nodes, inside: bool)
    decreases ns
  {
    |ns| == 0 || ((ns[0].data ==> !inside) && NoNest(ns[0].kids, true) && NoNest(ns[1..], inside))
  }

  // ---------------------------------------------------------------- the same shape, the same order

  /** The rows show the parameters: the same tree, in the same order. */
  predicate Mirrors(rs: Rows, ns: Nodes)
    decreases rs
  {
    if |rs| == 0 || |ns| == 0 then |rs| == |ns| else
      rs[0].data == ns[0].name && Mirrors(rs[0].kids, ns[0].kids) && Mirrors(rs[1..], ns[1..])
  }

  /** Row k and parameter id are in the same place. */
  ghost predicate Paired(rs: Rows, ns: Nodes, k: nat, id: nat)
    decreases rs
  {
    if |rs| == 0 || |ns| == 0 then |rs| == |ns| else
      && (rs[0].name == k <==> ns[0].name == id)
      && Paired(rs[0].kids, ns[0].kids, k, id) && Paired(rs[1..], ns[1..], k, id)
  }

  /** Row k shows parameter id. */
  ghost predicate Points(rs: Rows, k: nat, id: nat)
    decreases rs
  {
    |rs| != 0 && ((rs[0].name == k && rs[0].data == id) || Points(rs[0].kids, k, id) || Points(rs[1..], k, id))
  }

  lemma {:induction false} MirrorsConcat(a: Rows, b: Rows, c: Nodes, d: Nodes)
    requires Mirrors(a, c) && Mirrors(b, d)
    ensures Mirrors(a + b, c + d)
  {
    if |a| == 0 {
      assert a + b == b && c + d == d;
    } else {
      assert (a + b)[1..] == a[1..] + b && (c + d)[1..] == c[1..] + d;
      MirrorsConcat(a[1..], b, c[1..], d);
    }
  }

  lemma MirrorsOne(r: Tree<nat>, n: Tree<bool>)
    ensures Mirrors([r], [n]) <==> r.data == n.name && Mirrors(r.kids, n.kids)
  {
    ConsParts(r, []);
    ConsParts(n, []);
  }

  lemma BesideMirrors(r: Tree<nat>, n: Tree<bool>, k: nat, id: nat, xs: Rows, ys: Nodes, w: Where)
    requires Mirrors([r], [n]) && (r.name == k <==> n.name == id) && Mirrors(xs, ys)
    ensures Mirrors(Beside(r, k, xs, w), Beside(n, id, ys, w))
  {
    if r.name == k {
      MirrorsConcat(xs, [r], ys, [n]);
      MirrorsConcat([r], xs, [n], ys);
      MirrorsOne(r, n);
      MirrorsConcat(r.kids, xs, n.kids, ys);
      MirrorsOne(r.(kids := r.kids + xs), n.(kids := n.kids + ys));
    }
  }

  lemma {:induction false} PlaceMirrors(rs: Rows, ns: Nodes, k: nat, id: nat, xs: Rows, ys: Nodes, w: Where)
    requires Mirrors(rs, ns) && Paired(rs, ns, k, id) && Mirrors(xs, ys)
    ensures Mirrors(Place(rs, k, xs, w), Place(ns, id, ys, w))
    decreases rs
  {
    if |rs| != 0 {
      var r := rs[0].(kids := Place(rs[0].kids, k, xs, w));
      var n := ns[0].(kids := Place(ns[0].kids, id, ys, w));
      PlaceMirrors(rs[0].kids, ns[0].kids, k, id, xs, ys, w);
      PlaceMirrors(rs[1..], ns[1..], k, id, xs, ys, w);
      MirrorsOne(r, n);
      BesideMirrors(r, n, k, id, xs, ys, w);
      MirrorsConcat(Beside(r, k, xs, w), Place(rs[1..], k, xs, w), Beside(n, id, ys, w), Place(ns[1..], id, ys, w));
    }
  }

  lemma {:induction false} WithoutMirrors(rs: Rows, ns: Nodes, k: nat, id: nat)
    requires Mirrors(rs, ns) && Paired(rs, ns, k, id)
    ensures Mirrors(Without(rs, k), Without(ns, id))
    decreases rs
  {
    if |rs| != 0 {
      WithoutMirrors(rs[0].kids, ns[0].kids, k, id);
      WithoutMirrors(rs[1..], ns[1..], k, id);
      ConsParts(rs[0].(kids := Without(rs[0].kids, k)), Without(rs[1..], k));
      ConsParts(ns[0].(kids := Without(ns[0].kids, id)), Without(ns[1..], id));
    }
  }

  lemma {:induction false} WithoutPaired(rs: Rows, ns: Nodes, k: nat, id: nat, p: nat, q: nat)
    requires Paired(rs, ns, k, id) && Paired(rs, ns, p, q)
    ensures Paired(Without(rs, k), Without(ns, id), p, q)
    decreases rs
  {
    if |rs| != 0 {
      WithoutPaired(rs[0].kids, ns[0].kids, k, id, p, q);
      WithoutPaired(rs[1..], ns[1..], k, id, p, q);
      ConsParts(rs[0].(kids := Without(rs[0].kids, k)), Without(rs[1..], k));
      ConsParts(ns[0].(kids := Without(ns[0].kids, id)), Without(ns[1..], id));
    }
  }

  lemma {:induction false} FindMirrors(rs: Rows, ns: Nodes, k: nat, id: nat)
    requires Mirrors(rs, ns) && Paired(rs, ns, k, id)
    ensures Find(rs, k).Some? <==> Find(ns, id).Some?
    ensures Find(rs, k).Some? ==> Mirrors([Find(rs, k).value], [Find(ns, id).value])
    decreases rs
  {
    if |rs| != 0 {
      FindMirrors(rs[0].kids, ns[0].kids, k, id);
      FindMirrors(rs[1..], ns[1..], k, id);
      MirrorsOne(rs[0], ns[0]);
    }
  }

  lemma {:induction false} PointsThere(rs: Rows, ns: Nodes, k: nat, id: nat)
    requires Mirrors(rs, ns) && Points(rs, k, id)
    ensures Has(rs, k) && Has(ns, id)
    decreases rs
  {
    if Points(rs[0].kids, k, id) { PointsThere(rs[0].kids, ns[0].kids, k, id); }
    if Points(rs[1..], k, id) { PointsThere(rs[1..], ns[1..], k, id); }
  }

  lemma {:induction false} AbsentPaired(rs: Rows, ns: Nodes, k: nat, id: nat)
    requires Mirrors(rs, ns) && !Has(rs, k) && !Has(ns, id)
    ensures Paired(rs, ns, k, id)
    decreases rs
  {
    if |rs| != 0 {
      AbsentPaired(rs[0].kids, ns[0].kids, k, id);
      AbsentPaired(rs[1..], ns[1..], k, id);
    }
  }

  lemma {:induction false} PointsPaired(rs: Rows, ns: Nodes, k: nat, id: nat)
    requires Mirrors(rs, ns) && Points(rs, k, id) && Count(rs, k) <= 1 && Count(ns, id) <= 1
    ensures Paired(rs, ns, k, id)
    decreases rs
  {
    var r, n := rs[0], ns[0];
    if Points(r.kids, k, id) {
      PointsThere(r.kids, n.kids, k, id);
      PointsPaired(r.kids, n.kids, k, id);
      AbsentPaired(rs[1..], ns[1..], k, id);
    } else if Points(rs[1..], k, id) {
      PointsThere(rs[1..], ns[1..], k, id);
      PointsPaired(rs[1..], ns[1..], k, id);
      AbsentPaired(r.kids, n.kids, k, id);
    } else {
      AbsentPaired(r.kids, n.kids, k, id);
      AbsentPaired(rs[1..], ns[1..], k, id);
    }
  }

  lemma {:induction false} FindPoints(rs: Rows, k: nat)
    requires Has(rs, k)
    ensures Find(rs, k).Some? && Points(rs, k, Find(rs, k).value.data)
    decreases rs
  {
    FindThere(rs[0].kids, k);
    if rs[0].name != k {
      if Has(rs[0].kids, k) { FindPoints(rs[0].kids, k); } else { FindPoints(rs[1..], k); }
    }
  }

  lemma {:induction false} TopMirrors(rs: Rows, ns: Nodes, k: nat, id: nat)
    requires Paired(rs, ns, k, id)
    ensures IsTop(rs, k) <==> IsTop(ns, id)
  {
    if |rs| != 0 { TopMirrors(rs[1..], ns[1..], k, id); }
  }

  lemma {:induction false} ParentMirrors(rs: Rows, ns: Nodes, k: nat, id: nat)
    requires Mirrors(rs, ns) && Paired(rs, ns, k, id)
    ensures Parent(rs, k).Some? <==> Parent(ns, id).Some?
    ensures Parent(rs, k).Some? ==> Points(rs, Parent(rs, k).value, Parent(ns, id).value)
    decreases rs
  {
    if |rs| != 0 {
      TopMirrors(rs[0].kids, ns[0].kids, k, id);
      ParentMirrors(rs[0].kids, ns[0].kids, k, id);
      ParentMirrors(rs[1..], ns[1..], k, id);
    }
  }

  lemma {:induction false} SiblingsMirror(rs: Rows, ns: Nodes, k: nat, id: nat)
    requires Mirrors(rs, ns) && Paired(rs, ns, k, id)
    ensures Mirrors(Siblings(rs, k), Siblings(ns, id))
    ensures forall e, f :: Points(Siblings(rs, k), e, f) ==> Points(rs, e, f)
    decreases rs, 1
  {
    TopMirrors(rs, ns, k, id);
    if !IsTop(rs, k) { SiblingsBelowMirror(rs, ns, k, id); }
  }

  lemma {:induction false} SiblingsBelowMirror(rs: Rows, ns: Nodes, k: nat, id: nat)
    requires Mirrors(rs, ns) && Paired(rs, ns, k, id)
    ensures Mirrors(SiblingsBelow(rs, k), SiblingsBelow(ns, id))
    ensures forall e, f :: Points(SiblingsBelow(rs, k), e, f) ==> Points(rs, e, f)
    decreases rs, 0
  {
    if |rs| != 0 {
      SiblingsMirror(rs[0].kids, ns[0].kids, k, id);
      SiblingsBelowMirror(rs[1..], ns[1..], k, id);
    }
  }

  lemma {:induction false} MirrorsAt(rs: Rows, ns: Nodes, i: nat)
    requires Mirrors(rs, ns) && i < |rs|
    ensures |rs| == |ns| && Points(rs, rs[i].name, ns[i].name)
  {
    MirrorsLength(rs, ns);
    if i != 0 { MirrorsAt(rs[1..], ns[1..], i - 1); }
  }

  lemma {:induction false} MirrorsLength(rs: Rows, ns: Nodes)
    requires Mirrors(rs, ns)
    ensures |rs| == |ns|
  {
    if |rs| != 0 { MirrorsLength(rs[1..], ns[1..]); }
  }

  lemma EdgeMirrors(rs: Rows, ns: Nodes, k: nat, id: nat, w: Where)
    requires Mirrors(rs, ns) && Paired(rs, ns, k, id) && Has(rs, k)
    ensures Points(rs, Edge(rs, k, w), Edge(ns, id, w))
  {
    var s, t := Siblings(rs, k), Siblings(ns, id);
    SiblingsMirror(rs, ns, k, id);
    SiblingsThere(rs, k);
    MirrorsLength(s, t);
    MirrorsAt(s, t, if w == Before then 0 else |s| - 1);
  }

  // ---------------------------------------------------------------- only groups hold anything

  lemma {:induction false} BareConcat(a: Nodes, b: Nodes)
    ensures Bare(a + b) <==> Bare(a) && Bare(b)
  {
    if |a| == 0 {
      assert a + b == b;
    } else {
      assert (a + b)[1..] == a[1..] + b;
      BareConcat(a[1..], b);
    }
  }

  lemma {:induction false} BarePlace(ns: Nodes, id: nat, ys: Nodes, w: Where)
    requires Bare(ns) && Bare(ys) && Count(ns, id) <= 1 && (w == Inside ==> IsGroup(ns, id) || !Has(ns, id))
    ensures Bare(Place(ns, id, ys, w))
    decreases ns
  {
    if |ns| != 0 {
      var n := ns[0];
      var here := n.(kids := Place(n.kids, id, ys, w));
      FindThere(n.kids, id);
      FindThere(ns[1..], id);
      if !n.data { NotThere(n.kids, id, ys, w); }
      BarePlace(n.kids, id, ys, w);
      BarePlace(ns[1..], id, ys, w);
      ConsParts(here, []);
      BareConcat(ys, [here]);
      BareConcat([here], ys);
      BareConcat(here.kids, ys);
      ConsParts(here.(kids := here.kids + ys), []);
      BareConcat(Beside(here, id, ys, w), Place(ns[1..], id, ys, w));
    }
  }

  lemma {:induction false} BareWithout(ns: Nodes, id: nat)
    requires Bare(ns)
    ensures Bare(Without(ns, id))
    ensures Find(ns, id).Some? ==> Bare([Find(ns, id).value])
    decreases ns
  {
    if |ns| != 0 {
      BareWithout(ns[0].kids, id);
      BareWithout(ns[1..], id);
      ConsParts(ns[0].(kids := Without(ns[0].kids, id)), Without(ns[1..], id));
      ConsParts(ns[0], []);
    }
  }

  // ---------------------------------------------------------------- groups inside groups

  lemma {:induction false} NoNestConcat(a: Nodes, b: Nodes, inside: bool)
    ensures NoNest(a + b, inside) <==> NoNest(a, inside) && NoNest(b, inside)
  {
    if |a| == 0 {
      assert a + b == b;
    } else {
      assert (a + b)[1..] == a[1..] + b;
      NoNestConcat(a[1..], b, inside);
    }
  }

  lemma NoNestBeside(n: Tree<bool>, id: nat, ys: Nodes, w: Where, inside: bool)
    ensures NoNest(Beside(n, id, ys, w), inside) <==>
      NoNest([n], inside) && (n.name == id ==> NoNest(ys, w == Inside || inside))
  {
    ConsParts(n, []);
    NoNestConcat(ys, [n], inside);
    NoNestConcat([n], ys, inside);
    NoNestConcat(n.kids, ys, true);
    ConsParts(n.(kids := n.kids + ys), []);
  }

  /** Placing parameters nests no groups exactly when theirs may be where they are put. */
  lemma {:induction false} NoNestPlace(ns: Nodes, id: nat, ys: Nodes, w: Where, inside: bool)
    requires NoNest(ns, inside) && Count(ns, id) == 1
    ensures NoNest(Place(ns, id, ys, w), inside) <==> NoNest(ys, w == Inside || inside || Deep(ns, id))
    decreases ns
  {
    var n := ns[0];
    var here := n.(kids := Place(n.kids, id, ys, w));
    ConsParts(here, []);
    NoNestBeside(here, id, ys, w, inside);
    NoNestConcat(Beside(here, id, ys, w), Place(ns[1..], id, ys, w), inside);
    if Has(n.kids, id) { NoNestPlace(n.kids, id, ys, w, true); } else { NotThere(n.kids, id, ys, w); }
    if Has(ns[1..], id) { NoNestPlace(ns[1..], id, ys, w, inside); } else { NotThere(ns[1..], id, ys, w); }
  }

  lemma {:induction false} NoNestWithout(ns: Nodes, id: nat, inside: bool)
    requires NoNest(ns, inside)
    ensures NoNest(Without(ns, id), inside)
    ensures Find(ns, id).Some? && Count(ns, id) <= 1 ==> NoNest([Find(ns, id).value], inside || Deep(ns, id))
    decreases ns
  {
    if |ns| != 0 {
      NoNestWithout(ns[0].kids, id, true);
      NoNestWithout(ns[1..], id, inside);
      FindThere(ns[0].kids, id);
      FindThere(ns[1..], id);
      ConsParts(ns[0].(kids := Without(ns[0].kids, id)), Without(ns[1..], id));
      ConsParts(ns[0], []);
      if !Has(ns[1..], id) { NotThere(ns[1..], id, [], After); }
    }
  }

  lemma {:induction false} DeepWithout(ns: Nodes, id: nat, q: nat)
    requires Deep(Without(ns, id), q)
    ensures Deep(ns, q)
  {
    if ns[0].name != id {
      ConsParts(ns[0].(kids := Without(ns[0].kids, id)), Without(ns[1..], id));
      if Has(Without(ns[0].kids, id), q) { StillThere(ns[0].kids, id, q); }
    }
    if Deep(Without(ns[1..], id), q) { DeepWithout(ns[1..], id, q); }
  }

  lemma {:induction false} StillThere<T>(ts: seq<Tree<T>>, k: nat, p: nat)
    ensures Count(Without(ts, k), p) <= Count(ts, p)
    decreases ts
  {
    if |ts| != 0 {
      StillThere(ts[0].kids, k, p);
      StillThere(ts[1..], k, p);
      ConsParts(ts[0].(kids := Without(ts[0].kids, k)), Without(ts[1..], k));
    }
  }

  /** What sits below a parameter is deep. */
  lemma {:induction false} BelowIsDeep(ns: Nodes, id: nat, q: nat)
    requires Find(ns, id).Some? && Has(Find(ns, id).value.kids, q)
    ensures Deep(ns, q)
    decreases ns
  {
    if ns[0].name != id {
      if Find(ns[0].kids, id).Some? {
        BelowIsDeep(ns[0].kids, id, q);
        TopOrDeep(ns[0].kids, q);
      } else {
        BelowIsDeep(ns[1..], id, q);
      }
    }
  }

  lemma {:induction false} ParentDeep<T>(ts: seq<Tree<T>>, k: nat)
    ensures Parent(ts, k).Some? <==> Deep(ts, k)
    decreases ts
  {
    if |ts| != 0 {
      ParentDeep(ts[0].kids, k);
      ParentDeep(ts[1..], k);
      TopOrDeep(ts[0].kids, k);
    }
  }

  /** The parent of a parameter is a group. */
  lemma {:induction false} ParentIsGroup(ns: Nodes, id: nat)
    requires Bare(ns) && Parent(ns, id).Some?
    ensures Has(ns, Parent(ns, id).value)
    ensures Count(ns, Parent(ns, id).value) <= 1 ==> IsGroup(ns, Parent(ns, id).value)
    decreases ns
  {
    var p := Parent(ns, id).value;
    if !IsTop(ns[0].kids, id) {
      FindThere(ns[0].kids, p);
      if Parent(ns[0].kids, id).Some? { ParentIsGroup(ns[0].kids, id); } else { ParentIsGroup(ns[1..], id); }
    }
  }

  // ---------------------------------------------------------------- numbering copies

  function Size<T>(ts: seq<Tree<T>>): nat
    decreases ts
  {
    if |ts| == 0 then 0 else 1 + Size(ts[0].kids) + Size(ts[1..])
  }

  /** A copy of the trees with names from m on. */
  function Number<S, T>(ts: seq<Tree<S>>, m: nat, f: Tree<S> -> T): (r: seq<Tree<T>>)
    ensures |r| == |ts|
    decreases ts
  {
    if |ts| == 0 then [] else
      [Tree(m, f(ts[0]), Number(ts[0].kids, m + 1, f))] + Number(ts[1..], m + 1 + Size(ts[0].kids), f)
  }

  lemma {:induction false} NumberCount<S, T>(ts: seq<Tree<S>>, m: nat, f: Tree<S> -> T, n: nat)
    ensures Count(Number(ts, m, f), n) == if m <= n < m + Size(ts) then 1 else 0
    decreases ts
  {
    if |ts| != 0 {
      NumberCount(ts[0].kids, m + 1, f, n);
      NumberCount(ts[1..], m + 1 + Size(ts[0].kids), f, n);
    }
  }

  const KIND_OF: Tree<bool> -> bool := (t: Tree<bool>) => t.data

  const NAME_OF: Tree<bool> -> nat := (t: Tree<bool>) => t.name

  /** The copies a paste makes, and the rows that show parameters. */
  function Clone(ns: Nodes, m: nat): (r: Nodes)
    ensures |r| == |ns|
  {
    Number(ns, m, KIND_OF)
  }

  function Load(ns: Nodes, m: nat): (r: Rows)
    ensures |r| == |ns|
  {
    Number(ns, m, NAME_OF)
  }

  lemma {:induction false} LoadMirrors(ns: Nodes, m: nat, f: Tree<bool> -> nat)
    requires forall t :: f(t) == t.name
    ensures Mirrors(Number(ns, m, f), ns)
    decreases ns
  {
    if |ns| != 0 {
      LoadMirrors(ns[0].kids, m + 1, f);
      LoadMirrors(ns[1..], m + 1 + Size(ns[0].kids), f);
    }
  }

  lemma {:induction false} CloneAlike(ns: Nodes, m: nat, f: Tree<bool> -> bool, inside: bool)
    requires forall t :: f(t) == t.data
    ensures NoNest(Number(ns, m, f), inside) <==> NoNest(ns, inside)
    ensures Bare(Number(ns, m, f)) <==> Bare(ns)
    ensures forall i :: 0 <= i < |ns| ==> Number(ns, m, f)[i].data == ns[i].data
    decreases ns
  {
    if |ns| != 0 {
      CloneAlike(ns[0].kids, m + 1, f, true);
      CloneAlike(ns[1..], m + 1 + Size(ns[0].kids), f, inside);
      CloneAlike(ns[0].kids, m + 1, f, inside);
    }
  }

  // ---------------------------------------------------------------- what the two trees keep

  ghost predicate Below<T>(ts: seq<Tree<T>>, m: nat) {
    forall i: nat :: Has(ts, i) ==> i < m
  }

  ghost predicate Fresh<T>(ts: seq<Tree<T>>, a: nat, b: nat) {
    a <= b && Distinct(ts) && forall i: nat :: Has(ts, i) ==> a <= i < b
  }

  /** The rows mirror the parameters, names are told apart, and the next ones are unused. */
  ghost predicate Good(rs: Rows, ns: Nodes, m: nat, n: nat) {
    Mirrors(rs, ns) && Distinct(rs) && Distinct(ns) && Below(rs, m) && Below(ns, n) && Bare(ns)
  }

  lemma {:induction false} PairedCount(rs: Rows, ns: Nodes, k: nat, id: nat)
    requires Paired(rs, ns, k, id)
    ensures Count(rs, k) == Count(ns, id)
    decreases rs
  {
    if |rs| != 0 {
      PairedCount(rs[0].kids, ns[0].kids, k, id);
      PairedCount(rs[1..], ns[1..], k, id);
    }
  }

  lemma {:induction false} PairedPoints(rs: Rows, ns: Nodes, k: nat, id: nat, p: nat, q: nat)
    requires Mirrors(rs, ns) && Paired(rs, ns, k, id) && Points(rs, p, q)
    ensures k == p <==> id == q
    decreases rs
  {
    if Points(rs[0].kids, p, q) {
      PairedPoints(rs[0].kids, ns[0].kids, k, id, p, q);
    } else if Points(rs[1..], p, q) {
      PairedPoints(rs[1..], ns[1..], k, id, p, q);
    }
  }

  lemma PairUp(rs: Rows, ns: Nodes, m: nat, n: nat, k: nat, id: nat)
    requires Good(rs, ns, m, n) && Points(rs, k, id)
    ensures Paired(rs, ns, k, id) && Count(rs, k) == 1 && Count(ns, id) == 1 && k < m && id < n
  {
    PointsThere(rs, ns, k, id);
    assert Count(rs, k) <= 1 && Count(ns, id) <= 1;
    PointsPaired(rs, ns, k, id);
  }

  lemma PlaceGood<T>(ts: seq<Tree<T>>, k: nat, xs: seq<Tree<T>>, w: Where, a: nat, b: nat)
    requires Distinct(ts) && Below(ts, a) && Fresh(xs, a, b) && Count(ts, k) == 1
    ensures Distinct(Place(ts, k, xs, w)) && Below(Place(ts, k, xs, w), b)
  {
    forall i: nat ensures Count(Place(ts, k, xs, w), i) <= 1 && (Has(Place(ts, k, xs, w), i) ==> i < b) {
      PlaceCount(ts, k, xs, w, i);
      assert Count(ts, i) <= 1 && Count(xs, i) <= 1 && (Has(ts, i) ==> i < a) && (Has(xs, i) ==> a <= i < b);
    }
  }

  lemma GoodPlace(rs: Rows, ns: Nodes, m: nat, n: nat, k: nat, id: nat, xs: Rows, ys: Nodes, w: Where, m': nat, n': nat)
    requires Good(rs, ns, m, n) && Points(rs, k, id) && (w == Inside ==> IsGroup(ns, id))
    requires Mirrors(xs, ys) && Fresh(xs, m, m') && Fresh(ys, n, n') && Bare(ys)
    ensures Good(Place(rs, k, xs, w), Place(ns, id, ys, w), m', n')
  {
    PairUp(rs, ns, m, n, k, id);
    PlaceMirrors(rs, ns, k, id, xs, ys, w);
    PlaceGood(rs, k, xs, w, m, m');
    PlaceGood(ns, id, ys, w, n, n');
    BarePlace(ns, id, ys, w);
  }

  lemma AppendGood<T>(ts: seq<Tree<T>>, xs: seq<Tree<T>>, a: nat, b: nat)
    requires Distinct(ts) && Below(ts, a) && Fresh(xs, a, b)
    ensures Distinct(ts + xs) && Below(ts + xs, b)
  {
    forall i: nat ensures Count(ts + xs, i) <= 1 && (Has(ts + xs, i) ==> i < b) {
      CountConcat(ts, xs, i);
      assert Count(ts, i) <= 1 && Count(xs, i) <= 1 && (Has(ts, i) ==> i < a) && (Has(xs, i) ==> a <= i < b);
    }
  }

  lemma GoodAppend(rs: Rows, ns: Nodes, m: nat, n: nat, xs: Rows, ys: Nodes, m': nat, n': nat)
    requires Good(rs, ns, m, n)
    requires Mirrors(xs, ys) && Fresh(xs, m, m') && Fresh(ys, n, n') && Bare(ys)
    ensures Good(rs + xs, ns + ys, m', n')
  {
    MirrorsConcat(rs, xs, ns, ys);
    AppendGood(rs, xs, m, m');
    AppendGood(ns, ys, n, n');
    BareConcat(ns, ys);
  }

  lemma WithoutGood<T>(ts: seq<Tree<T>>, k: nat, a: nat)
    requires Distinct(ts) && Below(ts, a)
    ensures Distinct(Without(ts, k)) && Below(Without(ts, k), a)
  {
    forall i: nat ensures Count(Without(ts, k), i) <= 1 && (Has(Without(ts, k), i) ==> i < a) {
      StillThere(ts, k, i);
      assert Count(ts, i) <= 1 && (Has(ts, i) ==> i < a);
    }
  }

  lemma GoodWithout(rs: Rows, ns: Nodes, m: nat, n: nat, k: nat, id: nat)
    requires Good(rs, ns, m, n) && Points(rs, k, id)
    ensures Good(Without(rs, k), Without(ns, id), m, n)
  {
    PairUp(rs, ns, m, n, k, id);
    WithoutMirrors(rs, ns, k, id);
    WithoutGood(rs, k, m);
    WithoutGood(ns, id, n);
    BareWithout(ns, id);
  }

  lemma MoveGood<T>(ts: seq<Tree<T>>, k: nat, p: nat, w: Where, a: nat)
    requires Distinct(ts) && Below(ts, a) && Has(ts, k) && (k == p || Has(Without(ts, k), p))
    ensures Distinct(Move(ts, k, p, w)) && Below(Move(ts, k, p, w), a)
  {
    forall i: nat ensures Count(Move(ts, k, p, w), i) <= 1 && (Has(Move(ts, k, p, w), i) ==> i < a) {
      MoveConserves(ts, k, p, w, i);
      assert Count(ts, i) <= 1 && (Has(ts, i) ==> i < a);
    }
  }

  lemma {:induction false} GroupStays(ns: Nodes, id: nat, q: nat)
    requires IsGroup(ns, q) && Count(ns, q) <= 1
    ensures IsGroup(Without(ns, id), q) || !Has(Without(ns, id), q)
    decreases ns
  {
    var n := ns[0];
    var here, rest := n.(kids := Without(n.kids, id)), Without(ns[1..], id);
    ConsParts(here, rest);
    FindThere(n.kids, q);
    FindThere(ns[1..], q);
    FindThere(here.kids, q);
    FindThere(rest, q);
    StillThere(n.kids, id, q);
    StillThere(ns[1..], id, q);
    if IsGroup(n.kids, q) { GroupStays(n.kids, id, q); } else if n.name != q { GroupStays(ns[1..], id, q); }
  }

  lemma BareMove(ns: Nodes, id: nat, q: nat, w: Where)
    requires Bare(ns) && Count(ns, q) <= 1 && (w == Inside ==> IsGroup(ns, q))
    ensures Bare(Move(ns, id, q, w))
  {
    BareWithout(ns, id);
    StillThere(ns, id, q);
    if id != q && Find(ns, id).Some? {
      if w == Inside { GroupStays(ns, id, q); }
      BarePlace(Without(ns, id), q, [Find(ns, id).value], w);
    }
  }

  /** Moving a row and its parameter to where other ones are keeps the two trees alike. */
  lemma GoodMove(rs: Rows, ns: Nodes, m: nat, n: nat, k: nat, id: nat, p: nat, q: nat, w: Where)
    requires Good(rs, ns, m, n) && Points(rs, k, id) && Points(rs, p, q) && (w == Inside ==> IsGroup(ns, q))
    requires k == p || Has(Without(ns, id), q)
    ensures Good(Move(rs, k, p, w), Move(ns, id, q, w), m, n)
  {
    PairUp(rs, ns, m, n, k, id);
    PairUp(rs, ns, m, n, p, q);
    PairedPoints(rs, ns, k, id, p, q);
    FindMirrors(rs, ns, k, id);
    FindThere(rs, k);
    WithoutMirrors(rs, ns, k, id);
    WithoutPaired(rs, ns, k, id, p, q);
    PairedCount(Without(rs, k), Without(ns, id), p, q);
    if k != p { PlaceMirrors(Without(rs, k), Without(ns, id), p, q, [Find(rs, k).value], [Find(ns, id).value], w); }
    MoveGood(rs, k, p, w, m);
    MoveGood(ns, id, q, w, n);
    BareMove(ns, id, q, w);
  }

  // ---------------------------------------------------------------- a row made anew

  lemma {:induction false} MirrorsSize(rs: Rows, ns: Nodes)
    requires Mirrors(rs, ns)
    ensures Size(rs) == Size(ns)
    decreases rs
  {
    if |rs| != 0 {
      MirrorsSize(rs[0].kids, ns[0].kids);
      MirrorsSize(rs[1..], ns[1..]);
    }
  }

  lemma {:induction false} SizeConcat<T>(a: seq<Tree<T>>, b: seq<Tree<T>>)
    ensures Size(a + b) == Size(a) + Size(b)
  {
    if |a| == 0 {
      assert a + b == b;
    } else {
      assert (a + b)[1..] == a[1..] + b;
      SizeConcat(a[1..], b);
    }
  }

  lemma BesideSize<T>(t: Tree<T>, k: nat, xs: seq<Tree<T>>, w: Where)
    ensures Size(Beside(t, k, xs, w)) == Size([t]) + if t.name == k then Size(xs) else 0
  {
    SizeConcat(xs, [t]);
    SizeConcat([t], xs);
    SizeConcat(t.kids, xs);
    ConsParts(t, []);
    ConsParts(t.(kids := t.kids + xs), []);
  }

  lemma {:induction false} PlaceSize<T>(ts: seq<Tree<T>>, k: nat, xs: seq<Tree<T>>, w: Where)
    requires Count(ts, k) == 1
    ensures Size(Place(ts, k, xs, w)) == Size(ts) + Size(xs)
    decreases ts
  {
    var t := ts[0];
    var here := t.(kids := Place(t.kids, k, xs, w));
    BesideSize(here, k, xs, w);
    SizeConcat(Beside(here, k, xs, w), Place(ts[1..], k, xs, w));
    ConsParts(here, []);
    if Has(t.kids, k) { PlaceSize(t.kids, k, xs, w); } else { NotThere(t.kids, k, xs, w); }
    if Has(ts[1..], k) { PlaceSize(ts[1..], k, xs, w); } else { NotThere(ts[1..], k, xs, w); }
  }

  lemma {:induction false} WithoutSize<T>(ts: seq<Tree<T>>, k: nat)
    requires Count(ts, k) == 1
    ensures Find(ts, k).Some? && Size(Without(ts, k)) + Size([Find(ts, k).value]) == Size(ts)
    decreases ts
  {
    var t := ts[0];
    ConsParts(t, []);
    if Has(t.kids, k) { WithoutSize(t.kids, k); } else { NotThere(t.kids, k, [], After); }
    if Has(ts[1..], k) { WithoutSize(ts[1..], k); } else { NotThere(ts[1..], k, [], After); }
    ConsParts(t.(kids := Without(t.kids, k)), Without(ts[1..], k));
  }

  /** The row is made anew beside its new place, with none below it, and the old one is removed. */
  function Remake(rs: Rows, k: nat, id: nat, p: nat, w: Where, m: nat): Rows {
    Without(Place(rs, p, [Tree(m, id, [])], w), k)
  }

  lemma OneCount<T>(m: nat, data: T, n: nat)
    ensures Count([Tree(m, data, [])], n) == if n == m then 1 else 0
  {
    ConsParts(Tree(m, data, []), []);
  }

  lemma OneFresh<T>(m: nat, data: T)
    ensures Fresh([Tree(m, data, [])], m, m + 1)
  {
    forall n: nat ensures Count([Tree(m, data, [])], n) == if n == m then 1 else 0 { OneCount(m, data, n); }
  }

  lemma RemakeIsMove(rs: Rows, k: nat, id: nat, p: nat, w: Where, m: nat)
    requires k != p && k != m
    ensures Remake(rs, k, id, p, w, m) == Place(Without(rs, k), p, [Tree(m, id, [])], w)
  {
    PlaceWithout(rs, p, [Tree(m, id, [])], w, k);
    OneCount(m, id, k);
    NotThere([Tree(m, id, [])], k, [], w);
  }

  /** Making a row anew elsewhere keeps the trees alike exactly when nothing was below it. */
  lemma GoodRemake(rs: Rows, ns: Nodes, m: nat, n: nat, k: nat, id: nat, p: nat, q: nat, w: Where)
    requires Good(rs, ns, m, n) && Points(rs, k, id) && Points(rs, p, q) && (w == Inside ==> IsGroup(ns, q))
    requires k != p && Has(Without(ns, id), q)
    ensures Find(ns, id).Some?
    ensures Good(Remake(rs, k, id, p, w, m), Move(ns, id, q, w), m + 1, n) <==> |Find(ns, id).value.kids| == 0
  {
    PairUp(rs, ns, m, n, k, id);
    PairUp(rs, ns, m, n, p, q);
    PairedPoints(rs, ns, k, id, p, q);
    FindMirrors(rs, ns, k, id);
    FindThere(rs, k);
    FindThere(ns, id);
    RemakeIsMove(rs, k, id, p, w, m);
    WithoutMirrors(rs, ns, k, id);
    WithoutPaired(rs, ns, k, id, p, q);
    PairedCount(Without(rs, k), Without(ns, id), p, q);
    StillThere(rs, k, p);
    var row, node, base := Tree(m, id, []), Find(ns, id).value, Without(rs, k);
    WithoutGood(rs, k, m);
    OneFresh(m, id);
    PlaceGood(base, p, [row], w, m, m + 1);
    MoveGood(ns, id, q, w, n);
    BareMove(ns, id, q, w);
    MirrorsOne(row, node);
    if |node.kids| == 0 {
      PlaceMirrors(base, Without(ns, id), p, q, [row], [node], w);
    } else {
      RemakeSize(rs, ns, k, id, p, q, w, m);
    }
  }

  lemma RemakeSize(rs: Rows, ns: Nodes, k: nat, id: nat, p: nat, q: nat, w: Where, m: nat)
    requires Mirrors(rs, ns) && Count(rs, k) == 1 && Count(ns, id) == 1 && k != m && k != p && id != q
    requires Count(Without(rs, k), p) == 1 && Count(Without(ns, id), q) == 1
    requires Find(ns, id).Some? && |Find(ns, id).value.kids| != 0
    requires Find(rs, k).Some? && Mirrors([Find(rs, k).value], [Find(ns, id).value])
    ensures !Mirrors(Remake(rs, k, id, p, w, m), Move(ns, id, q, w))
  {
    var row, node := Find(rs, k).value, Find(ns, id).value;
    RemakeIsMove(rs, k, id, p, w, m);
    WithoutSize(rs, k);
    WithoutSize(ns, id);
    PlaceSize(Without(rs, k), p, [Tree(m, id, [])], w);
    PlaceSize(Without(ns, id), q, [node], w);
    MirrorsSize(rs, ns);
    ConsParts(Tree(m, id, []), []);
    ConsParts(node, []);
    assert Size([node]) > 1;
    if Mirrors(Remake(rs, k, id, p, w, m), Move(ns, id, q, w)) {
      MirrorsSize(Remake(rs, k, id, p, w, m), Move(ns, id, q, w));
      MirrorsSize([row], [node]);
    }
  }

  // ---------------------------------------------------------------- moving groups about

  lemma NoNestLeaf(n: Tree<bool>, inside: bool)
    requires !n.data && Bare([n])
    ensures NoNest([n], inside)
  {
    ConsParts(n, []);
    assert |n.kids| == 0;
  }

  /** A parameter may move anywhere; a group, to where there is no group around. */
  lemma NoNestMove(ns: Nodes, id: nat, q: nat, w: Where)
    requires NoNest(ns, false) && Bare(ns) && Distinct(ns) && Has(ns, id) && (id == q || Has(Without(ns, id), q))
    requires IsGroup(ns, id) ==> w != Inside && !Deep(ns, q)
    ensures NoNest(Move(ns, id, q, w), false)
  {
    FindThere(ns, id);
    if id != q {
      var node := Find(ns, id).value;
      assert Count(ns, id) <= 1 && Count(ns, q) <= 1;
      NoNestWithout(ns, id, false);
      BareWithout(ns, id);
      StillThere(ns, id, q);
      NoNestPlace(Without(ns, id), q, [node], w, false);
      if node.data {
        if Deep(Without(ns, id), q) { DeepWithout(ns, id, q); }
        ConsParts(node, []);
      } else {
        NoNestLeaf(node, true);
        NoNestLeaf(node, false);
      }
    }
  }

  /** Going to the start or the end of one's own list nests nothing. */
  lemma NoNestToEdge(ns: Nodes, id: nat, w: Where)
    requires NoNest(ns, false) && Bare(ns) && Distinct(ns) && Has(ns, id) && w != Inside
    ensures NoNest(ToEdge(ns, id, w), false)
  {
    var e := Edge(ns, id, w);
    EdgeThere(ns, id, w);
    FindThere(ns, id);
    if IsGroup(ns, id) {
      assert Count(ns, id) <= 1 && Count(ns, e) <= 1;
      NoNestWithout(ns, id, false);
      ConsParts(Find(ns, id).value, []);
      TopOrDeep(ns, id);
      TopOrDeep(ns, e);
    }
    NoNestMove(ns, id, e, w);
  }

  lemma GroupIsTop(ns: Nodes, p: nat)
    requires NoNest(ns, false) && IsGroup(ns, p) && Count(ns, p) <= 1
    ensures !Deep(ns, p)
  {
    NoNestWithout(ns, p, false);
    ConsParts(Find(ns, p).value, []);
  }

  predicate NoGroups(ns: Nodes) {
    forall i :: 0 <= i < |ns| ==> !ns[i].data
  }

  lemma {:induction false} NoNestInside(ns: Nodes)
    ensures NoNest(ns, true) <==> NoNest(ns, false) && NoGroups(ns)
  {
    if |ns| != 0 {
      NoNestInside(ns[1..]);
      assert forall i :: 0 < i < |ns| ==> ns[i] == ns[1..][i - 1];
      if NoNest(ns, false) && NoGroups(ns) {
        forall i | 0 <= i < |ns[1..]| ensures !ns[1..][i].data { assert ns[1..][i] == ns[i + 1]; }
      }
    }
  }

  lemma {:induction false} PointsFind(rs: Rows, k: nat, id: nat)
    requires Points(rs, k, id) && Count(rs, k) <= 1
    ensures Find(rs, k).Some? && Find(rs, k).value.data == id
    decreases rs
  {
    PointsCount(rs[0].kids, k, id);
    PointsCount(rs[1..], k, id);
    FindThere(rs[0].kids, k);
    if Points(rs[0].kids, k, id) {
      PointsFind(rs[0].kids, k, id);
    } else if Points(rs[1..], k, id) {
      PointsFind(rs[1..], k, id);
    }
  }

  lemma {:induction false} PointsCount(rs: Rows, k: nat, id: nat)
    ensures Points(rs, k, id) ==> Has(rs, k)
    decreases rs
  {
    if |rs| != 0 {
      PointsCount(rs[0].kids, k, id);
      PointsCount(rs[1..], k, id);
    }
  }

  // ---------------------------------------------------------------- a new parameter

  /** A new parameter goes after the selected one, or last in the selected group; a new group stays
      out of groups, after the one around the selection. */
  function NewSpot(ns: Nodes, id: nat, group: bool): (nat, Where) {
    match Parent(ns, id)
    case Some(p) => (if group then p else id, After)
    case None => (id, if IsGroup(ns, id) && !group then Inside else After)
  }

  lemma NewKeeps(rs: Rows, ns: Nodes, m: nat, n: nat, k: nat, id: nat, group: bool)
    requires Good(rs, ns, m, n) && Points(rs, k, id)
    ensures var (q, w) := NewSpot(ns, id, group);
      var p := if group && Parent(rs, k).Some? then Parent(rs, k).value else k;
      && Points(rs, p, q)
      && Good(Place(rs, p, [Tree(m, n, [])], w), Place(ns, q, [Tree(n, group, [])], w), m + 1, n + 1)
      && (NoNest(ns, false) ==> NoNest(Place(ns, q, [Tree(n, group, [])], w), false))
  {
    var (q, w) := NewSpot(ns, id, group);
    var p := if group && Parent(rs, k).Some? then Parent(rs, k).value else k;
    var x, r := Tree(n, group, []), Tree(m, n, []);
    PairUp(rs, ns, m, n, k, id);
    ParentMirrors(rs, ns, k, id);
    ParentDeep(ns, id);
    OneFresh(n, group);
    OneFresh(m, n);
    MirrorsOne(r, x);
    ConsParts(x, []);
    GoodPlace(rs, ns, m, n, p, q, [r], [x], w, m + 1, n + 1);
    PairUp(rs, ns, m, n, p, q);
    if NoNest(ns, false) {
      if group && Parent(ns, id).Some? {
        ParentIsGroup(ns, id);
        GroupIsTop(ns, q);
      }
      NoNestPlace(ns, q, [x], w, false);
    }
  }

  // ---------------------------------------------------------------- pasting

  predicate Enclosing(ns: Nodes, id: nat) {
    IsGroup(ns, id) || InGroup(ns, id)
  }

  /** Only the first of the parameters to paste is looked at. */
  predicate Rejects(ns: Nodes, target: Option<nat>, clip: Nodes) {
    |clip| == 0 || (target.Some? && Enclosing(ns, target.value) && clip[0].data)
  }

  function PasteWhere(ns: Nodes, id: nat): Where {
    if IsGroup(ns, id) && !InGroup(ns, id) then Inside else After
  }

  function Pasted(ns: Nodes, target: Option<nat>, xs: Nodes): Nodes {
    match target
    case None => ns + xs
    case Some(id) => Place(ns, id, xs, PasteWhere(ns, id))
  }

  /** A paste nests groups exactly when it pastes any into a group. */
  lemma PasteNests(ns: Nodes, target: Option<nat>, xs: Nodes)
    requires NoNest(ns, false) && NoNest(xs, false) && (target.Some? ==> Count(ns, target.value) == 1)
    ensures NoNest(Pasted(ns, target, xs), false) <==>
            target.None? || !Enclosing(ns, target.value) || NoGroups(xs)
  {
    if target.None? {
      NoNestConcat(ns, xs, false);
    } else {
      ParentDeep(ns, target.value);
      NoNestInside(xs);
      NoNestPlace(ns, target.value, xs, PasteWhere(ns, target.value), false);
    }
  }

  lemma {:induction false} Elements<T>(ts: seq<Tree<T>>, i: nat)
    requires Distinct(ts) && i < |ts|
    ensures !Has(ts[..i], ts[i].name) && !Has(ts[i + 1..], ts[i].name) && !Has(ts[i].kids, ts[i].name)
    ensures Distinct(ts[..i])
  {
    var t := ts[i];
    assert ts == ts[..i] + ([t] + ts[i + 1..]);
    forall n: nat ensures Count(ts[..i], n) + Count([t] + ts[i + 1..], n) == Count(ts, n) {
      CountConcat(ts[..i], [t] + ts[i + 1..], n);
    }
    assert Count(ts, t.name) <= 1;
    forall n: nat ensures Count(ts[..i], n) <= 1 { assert Count(ts, n) <= 1; }
  }

  /** Where the next one goes: after the one before, or into the group. */
  function Cursor<T>(k: nat, xs: seq<Tree<T>>, w: Where): nat {
    if w == After && |xs| != 0 then xs[|xs| - 1].name else k
  }

  lemma PlaceNext<T>(ts: seq<Tree<T>>, k: nat, xs: seq<Tree<T>>, x: Tree<T>, w: Where)
    requires Distinct(xs) && Has(ts, k) && w != Before && forall n: nat :: Has(xs, n) ==> !Has(ts, n)
    ensures Place(Place(ts, k, xs, w), Cursor(k, xs, w), [x], w) == Place(ts, k, xs + [x], w)
  {
    if w == Inside {
      PlaceNextInside(ts, k, xs, x);
    } else if |xs| == 0 {
      PlaceNothing(ts, k, w);
      assert xs + [x] == [x];
    } else {
      var init, l := xs[..|xs| - 1], xs[|xs| - 1];
      assert xs == init + [l] && xs + [x] == init + [l, x];
      Elements(xs, |xs| - 1);
      CountConcat(init, [l], l.name);
      assert Has(xs, l.name);
      PlaceNextAfter(ts, k, init, l, x);
    }
  }

  /** One turn of the paste loop over the document: the next of the pasted parameters, all put at the
      end, moves to where it belongs. */
  lemma PasteStep(ns: Nodes, n: nat, n': nat, id: nat, xs: Nodes, w: Where, i: nat)
    requires Distinct(ns) && Below(ns, n) && Has(ns, id) && Fresh(xs, n, n') && w != Before && i < |xs|
    ensures Move(Place(ns, id, xs[..i], w) + xs[i..], xs[i].name, Cursor(id, xs[..i], w), w) ==
      Place(ns, id, xs[..i + 1], w) + xs[i + 1..]
  {
    var x, done, rest := xs[i], xs[..i], xs[i + 1..];
    var c := Cursor(id, done, w);
    assert xs[i..] == [x] + rest && xs == done + ([x] + rest) && xs[..i + 1] == done + [x];
    Elements(xs, i);
    forall j: nat ensures Count(xs, j) == Count(done, j) + Count([x], j) + Count(rest, j) {
      CountConcat(done, [x] + rest, j);
      CountConcat([x], rest, j);
    }
    ConsParts(x, []);
    assert Has(xs, x.name) && Count(ns, id) <= 1;
    forall j: nat | Has(done, j) ensures !Has(ns, j) && !Has(rest, j) {
      assert Count(xs, j) == Count(done, j) + Count([x], j) + Count(rest, j) && Count(xs, j) <= 1;
      assert Has(xs, j);
      assert Has(ns, j) ==> j < n;
    }
    if w == After && |done| != 0 {
      CountConcat(done[..|done| - 1], [done[|done| - 1]], c);
      assert done == done[..|done| - 1] + [done[|done| - 1]];
      assert Has(done, c);
    } else {
      assert Has(rest, c) ==> Has(xs, c);
    }
    PlaceCount(ns, id, done, w, x.name);
    assert Has(ns, x.name) ==> x.name < n;
    AppendThenMove(Place(ns, id, done, w), x, rest, c, w);
    PlaceNext(ns, id, done, x, w);
  }

  lemma NumberFresh<S, T>(ts: seq<Tree<S>>, m: nat, f: Tree<S> -> T)
    ensures Fresh(Number(ts, m, f), m, m + Size(ts))
  {
    forall n: nat ensures Count(Number(ts, m, f), n) == if m <= n < m + Size(ts) then 1 else 0 {
      NumberCount(ts, m, f, n);
    }
  }

  lemma LoadKeeps(ns: Nodes, m: nat)
    ensures Mirrors(Load(ns, m), ns) && Fresh(Load(ns, m), m, m + Size(ns))
  {
    LoadMirrors(ns, m, NAME_OF);
    NumberFresh(ns, m, NAME_OF);
  }

  lemma CloneKeeps(ns: Nodes, m: nat)
    ensures Fresh(Clone(ns, m), m, m + Size(ns))
    ensures (Bare(Clone(ns, m)) <==> Bare(ns)) && (NoNest(Clone(ns, m), false) <==> NoNest(ns, false))
    ensures forall i :: 0 <= i < |ns| ==> Clone(ns, m)[i].data == ns[i].data
  {
    CloneAlike(ns, m, KIND_OF, false);
    NumberFresh(ns, m, KIND_OF);
  }

  // ---------------------------------------------------------------- dragging

  datatype Drop = DropBefore | DropAfter | IntoOrBefore | IntoOrAfter

  predicate Into(drop: Drop) { drop.IntoOrBefore? || drop.IntoOrAfter? }

  /** A group may be dropped neither beside what is in a group nor into a group. */
  predicate CanReorder(ns: Nodes, id: nat, q: nat, drop: Drop) {
    !IsGroup(ns, id) || (!InGroup(ns, q) && !(Into(drop) && IsGroup(ns, q)))
  }

  function DropWhere(ns: Nodes, q: nat, drop: Drop): Where {
    if Into(drop) && IsGroup(ns, q) then Inside else if drop.DropAfter? then After else Before
  }

  /** A permitted drop leaves the position it is dropped at in place. */
  lemma PositionStays(ns: Nodes, id: nat, q: nat, drop: Drop)
    requires Bare(ns) && Has(ns, id) && Count(ns, q) == 1 && Count(ns, id) == 1
    requires id != q && CanReorder(ns, id, q, drop)
    ensures Has(Without(ns, id), q)
  {
    FindThere(ns, id);
    WithoutCount(ns, id, q);
    BareWithout(ns, id);
    var t := Find(ns, id).value;
    ConsParts(t, []);
    if Has(t.kids, q) {
      BelowIsDeep(ns, id, q);
      ParentDeep(ns, q);
    }
  }

  lemma DragNestsNothing(ns: Nodes, id: nat, q: nat, drop: Drop)
    requires NoNest(ns, false) && Bare(ns) && Distinct(ns) && Has(ns, id) && Has(ns, q) && CanReorder(ns, id, q, drop)
    ensures NoNest(Move(ns, id, q, DropWhere(ns, q, drop)), false)
  {
    assert Count(ns, id) <= 1 && Count(ns, q) <= 1;
    if id != q { PositionStays(ns, id, q, drop); }
    ParentDeep(ns, q);
    NoNestMove(ns, id, q, DropWhere(ns, q, drop));
  }

  predicate NothingBelow(ns: Nodes, id: nat) {
    Find(ns, id).Some? ==> |Find(ns, id).value.kids| == 0
  }

  lemma LeafBelow(ns: Nodes, id: nat)
    requires Bare(ns)
    ensures !IsGroup(ns, id) ==> NothingBelow(ns, id)
  {
    BareWithout(ns, id);
    if Find(ns, id).Some? { ConsParts(Find(ns, id).value, []); }
  }

  /** Where no groups are nested, only rows with nothing below them change lists. */
  lemma DragIsSafe(rs: Rows, ns: Nodes, k: nat, id: nat, p: nat, q: nat, drop: Drop)
    requires Mirrors(rs, ns) && Paired(rs, ns, k, id) && Paired(rs, ns, p, q) && Count(ns, id) <= 1
    requires NoNest(ns, false) && Bare(ns) && CanReorder(ns, id, q, drop)
    ensures Parent(rs, k) == Parent(rs, p) || NothingBelow(ns, id)
  {
    if IsGroup(ns, id) {
      GroupIsTop(ns, id);
      ParentDeep(ns, id);
      ParentMirrors(rs, ns, k, id);
      ParentMirrors(rs, ns, p, q);
    } else {
      LeafBelow(ns, id);
    }
  }

  lemma NewPlacedAnyway(ns: Nodes, x: Tree<bool>, q: nat)
    requires !Has(ns, x.name) && Has(ns, q)
    ensures Move(ns + [x], x.name, q, After) == Place(ns, q, [x], After)
  {
    assert [x] + [] == [x];
    AppendThenMove(ns, x, [], q, After);
  }

  lemma TakeBackStep(base: Nodes, n: nat, n': nat, clones: Nodes, i: nat)
    requires Below(base, n) && Fresh(clones, n, n') && i < |clones|
    ensures Without(base + clones[i..], clones[i].name) == base + clones[i + 1..]
  {
    var x, rest := clones[i], clones[i + 1..];
    assert clones[i..] == [x] + rest;
    Elements(clones, i);
    assert clones == clones[..i] + ([x] + rest);
    CountConcat(clones[..i], [x] + rest, x.name);
    assert Has(clones, x.name) && (Has(base, x.name) ==> x.name < n);
    WithoutConcat(base, [x] + rest, x.name);
    WithoutConcat([x], rest, x.name);
    AloneGone(x);
    NotThere(base, x.name, [], After);
    NotThere(rest, x.name, [], After);
  }

  lemma RowStep(rs: Rows, m: nat, m': nat, k: nat, made: Rows, r: Tree<nat>, w: Where)
    requires Distinct(rs) && Below(rs, m) && Has(rs, k) && Fresh(made, m, m') && w != Before
    ensures Place(Place(rs, k, made, w), Cursor(k, made, w), [r], w) == Place(rs, k, made + [r], w)
  {
    forall n: nat | Has(made, n) ensures !Has(rs, n) { assert Has(rs, n) ==> n < m; }
    PlaceNext(rs, k, made, r, w);
  }

  lemma {:induction false} NumberConcat<S, T>(a: seq<Tree<S>>, b: seq<Tree<S>>, m: nat, f: Tree<S> -> T)
    ensures Number(a + b, m, f) == Number(a, m, f) + Number(b, m + Size(a), f)
  {
    if |a| == 0 {
      assert a + b == b;
    } else {
      assert (a + b)[1..] == a[1..] + b;
      NumberConcat(a[1..], b, m + 1 + Size(a[0].kids), f);
    }
  }

  lemma LoadMore(clones: Nodes, i: nat, m: nat)
    requires i < |clones|
    ensures Load(clones[..i + 1], m) == Load(clones[..i], m) + Load([clones[i]], m + Size(clones[..i]))
    ensures Size(clones[..i + 1]) == Size(clones[..i]) + Size([clones[i]])
  {
    assert clones[..i + 1] == clones[..i] + [clones[i]];
    NumberConcat(clones[..i], [clones[i]], m, NAME_OF);
    SizeConcat(clones[..i], [clones[i]]);
  }

  /** The paste loop after i turns: so many of the pasted parameters, and the rows made for them, are
      in place; the others still wait at the end of the document. */
  ghost predicate Halfway(rs: Rows, m: nat, ns: Nodes, k: nat, id: nat, clones: Nodes, w: Where, i: nat,
                          rows: Rows, params: Nodes) {
    && i <= |clones|
    && rows == Place(rs, k, Load(clones[..i], m), w)
    && params == Place(ns, id, clones[..i], w) + clones[i..]
  }

  lemma HalfwayStep(rs: Rows, m: nat, ns: Nodes, n: nat, n': nat, k: nat, id: nat, clones: Nodes, w: Where,
                    i: nat, rows: Rows, params: Nodes)
    requires Halfway(rs, m, ns, k, id, clones, w, i, rows, params) && i < |clones| && w != Before
    requires Good(rs, ns, m, n) && Points(rs, k, id) && Fresh(clones, n, n')
    ensures Size(clones[..i + 1]) == Size(clones[..i]) + Size([clones[i]])
    ensures var row, done := Load([clones[i]], m + Size(clones[..i])), Load(clones[..i], m);
      && |row| == 1
      && Cursor(k, Load(clones[..i + 1], m), w) == (if w == After then row[0].name else k)
      && Cursor(id, clones[..i + 1], w) == (if w == After then clones[i].name else id)
      && Halfway(rs, m, ns, k, id, clones, w, i + 1, Place(rows, Cursor(k, done, w), row, w),
                 Move(params, clones[i].name, Cursor(id, clones[..i], w), w))
  {
    var row := Load([clones[i]], m + Size(clones[..i]));
    PairUp(rs, ns, m, n, k, id);
    LoadMore(clones, i, m);
    LoadKeeps(clones[..i], m);
    PasteStep(ns, n, n', id, clones, w, i);
    RowStep(rs, m, m + Size(clones[..i]), k, Load(clones[..i], m), row[0], w);
    assert row == [row[0]];
  }

  lemma HalfwayStart(rs: Rows, m: nat, ns: Nodes, k: nat, id: nat, clones: Nodes, w: Where)
    ensures Halfway(rs, m, ns, k, id, clones, w, 0, rs, ns + clones)
  {
    PlaceNothing(rs, k, w);
    PlaceNothing(ns, id, w);
    assert clones[..0] == [] && clones[0..] == clones;
  }

  lemma HalfwayEnd(rs: Rows, m: nat, ns: Nodes, k: nat, id: nat, clones: Nodes, w: Where, rows: Rows, params: Nodes)
    requires Halfway(rs, m, ns, k, id, clones, w, |clones|, rows, params)
    ensures params == Place(ns, id, clones, w) && rows == Place(rs, k, Load(clones, m), w)
    ensures Size(clones[..|clones|]) == Size(clones)
  {
    assert clones[..|clones|] == clones && clones[|clones|..] == [];
  }

  // ---------------------------------------------------------------- rows and their parameters

  /** The parameter a row shows. */
  function NodeOf(rs: Rows, k: nat): nat {
    if Find(rs, k).Some? then Find(rs, k).value.data else 0
  }

  function Target(rs: Rows, at: Option<nat>): Option<nat> {
    if at.Some? then Some(NodeOf(rs, at.value)) else None
  }

  lemma RowPaired(rs: Rows, ns: Nodes, m: nat, n: nat, k: nat)
    requires Good(rs, ns, m, n) && Has(rs, k)
    ensures Points(rs, k, NodeOf(rs, k)) && Paired(rs, ns, k, NodeOf(rs, k))
    ensures Count(rs, k) == 1 && Count(ns, NodeOf(rs, k)) == 1 && Find(rs, k).Some? && Find(ns, NodeOf(rs, k)).Some?
  {
    FindPoints(rs, k);
    PairUp(rs, ns, m, n, k, NodeOf(rs, k));
    FindThere(ns, NodeOf(rs, k));
  }

  /** Of the selected rows, those whose parent is not selected too give a copy each. */
  function Picked(rs: Rows, ns: Nodes, ks: seq<nat>, selected: seq<nat>): Nodes {
    if |ks| == 0 then [] else
      var k := ks[|ks| - 1];
      var t := Find(ns, NodeOf(rs, k));
      Picked(rs, ns, ks[..|ks| - 1], selected) +
      if t.None? || (Parent(rs, k).Some? && Parent(rs, k).value in selected) then [] else [t.value]
  }

  lemma {:induction false} PickedKeeps(rs: Rows, ns: Nodes, ks: seq<nat>, selected: seq<nat>)
    requires Bare(ns)
    ensures Bare(Picked(rs, ns, ks, selected)) && |Picked(rs, ns, ks, selected)| <= |ks|
    ensures NoNest(ns, false) && Distinct(ns) ==> NoNest(Picked(rs, ns, ks, selected), false)
  {
    if |ks| != 0 {
      var id := NodeOf(rs, ks[|ks| - 1]);
      var before, t := Picked(rs, ns, ks[..|ks| - 1], selected), Find(ns, id);
      PickedKeeps(rs, ns, ks[..|ks| - 1], selected);
      BareWithout(ns, id);
      assert before + [] == before;
      if t.Some? {
        BareConcat(before, [t.value]);
        NoNestConcat(before, [t.value], false);
        if NoNest(ns, false) && Distinct(ns) {
          NoNestWithout(ns, id, false);
          NoNestInside([t.value]);
        }
      }
    }
  }
}
