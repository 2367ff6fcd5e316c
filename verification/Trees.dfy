/**
 Ordered trees of named nodes, and editing them by name: the parameters of a program as elements of
 its document (libgebr/geoxml/sequence.c) and as rows of a tree view.

 A name stands for an address, so an edit names the nodes it is about and finds them wherever they
 are. Placing and taking away are the two edits; moving is taking away and placing.

 What they leave alone is said by undoing them (`PlaceUndone`, `MoveOnlyThat`), what they change by
 where the node is afterwards (`PlacedThere`, `PlacedLast`, `ToEdgeExactly`).
 */
module Trees {
  import opened Strings

  /** A node with the nodes below it. The name stands for the node's address. */
  datatype Tree<T> = Tree(name: nat, data: T, kids: seq<Tree<T>>)

  /** Where to put nodes, relative to another: beside it, or at the end of what is below it. */
  datatype Where = Before | After | Inside

  // ---------------------------------------------------------------- editing

  function Find<T>(ts: seq<Tree<T>>, k: nat): Option<Tree<T>>
    decreases ts
  {
    if |ts| == 0 then None
    else if ts[0].name == k then Some(ts[0])
    else
      var below := Find(ts[0].kids, k);
      if below.Some? then below else Find(ts[1..], k)
  }

  function Without<T>(ts: seq<Tree<T>>, k: nat): seq<Tree<T>>
    decreases ts
  {
    if |ts| == 0 then []
    else if ts[0].name == k then Without(ts[1..], k)
    else [ts[0].(kids := Without(ts[0].kids, k))] + Without(ts[1..], k)
  }

  function Place<T>(ts: seq<Tree<T>>, k: nat, xs: seq<Tree<T>>, w: Where): seq<Tree<T>>
    decreases ts
  {
    if |ts| == 0 then [] else
      var below := Place(ts[0].kids, k, xs, w);
      Beside(ts[0].(kids := below), k, xs, w) + Place(ts[1..], k, xs, w)
  }

  function Beside<T>(t: Tree<T>, k: nat, xs: seq<Tree<T>>, w: Where): seq<Tree<T>> {
    if t.name != k then [t] else
      match w
      case Before => xs + [t]
      case After => [t] + xs
      case Inside => [t.(kids := t.kids + xs)]
  }

  /** Moving a node beside itself does nothing. */
  function Move<T>(ts: seq<Tree<T>>, k: nat, p: nat, w: Where): seq<Tree<T>> {
    var t := Find(ts, k);
    if k == p || t.None? then ts else Place(Without(ts, k), p, [t.value], w)
  }

  predicate IsTop<T>(ts: seq<Tree<T>>, k: nat) {
    |ts| != 0 && (ts[0].name == k || IsTop(ts[1..], k))
  }

  /** The list that holds the node, empty when there is no such node. */
  function Siblings<T>(ts: seq<Tree<T>>, k: nat): seq<Tree<T>>
    decreases ts, 1
  {
    if IsTop(ts, k) then ts else SiblingsBelow(ts, k)
  }

  function SiblingsBelow<T>(ts: seq<Tree<T>>, k: nat): seq<Tree<T>>
    decreases ts, 0
  {
    if |ts| == 0 then [] else
      var s := Siblings(ts[0].kids, k);
      if |s| != 0 then s else SiblingsBelow(ts[1..], k)
  }

  /** The first (Before) or the last node of the list that holds the node. */
  function Edge<T>(ts: seq<Tree<T>>, k: nat, w: Where): nat {
    var s := Siblings(ts, k);
    if |s| == 0 then k else if w == Before then s[0].name else s[|s| - 1].name
  }

  function Parent<T>(ts: seq<Tree<T>>, k: nat): Option<nat>
    decreases ts
  {
    if |ts| == 0 then None
    else if IsTop(ts[0].kids, k) then Some(ts[0].name)
    else
      var below := Parent(ts[0].kids, k);
      if below.Some? then below else Parent(ts[1..], k)
  }

  // ---------------------------------------------------------------- which nodes there are

  /** How many nodes have the name. */
  function Count<T>(ts: seq<Tree<T>>, n: nat): nat
    decreases ts
  {
    if |ts| == 0 then 0 else (if ts[0].name == n then 1 else 0) + Count(ts[0].kids, n) + Count(ts[1..], n)
  }

  predicate Has<T>(ts: seq<Tree<T>>, k: nat) { Count(ts, k) != 0 }

  ghost predicate Distinct<T>(ts: seq<Tree<T>>) {
    forall n :: Count(ts, n) <= 1
  }

  predicate Deep<T>(ts: seq<Tree<T>>, k: nat) {
    |ts| != 0 && (Has(ts[0].kids, k) || Deep(ts[1..], k))
  }

  lemma ConsParts<T>(t: Tree<T>, ts: seq<Tree<T>>)
    ensures ([t] + ts)[0] == t && ([t] + ts)[1..] == ts && [t][1..] == []
  {
  }

  lemma {:induction false} CountConcat<T>(a: seq<Tree<T>>, b: seq<Tree<T>>, n: nat)
    ensures Count(a + b, n) == Count(a, n) + Count(b, n)
  {
    if |a| == 0 {
      assert a + b == b;
    } else {
      assert (a + b)[1..] == a[1..] + b;
      CountConcat(a[1..], b, n);
    }
  }

  lemma {:induction false} NotThere<T>(ts: seq<Tree<T>>, k: nat, xs: seq<Tree<T>>, w: Where)
    requires !Has(ts, k)
    ensures Place(ts, k, xs, w) == ts && Without(ts, k) == ts && Find(ts, k) == None && !IsTop(ts, k) && !Deep(ts, k)
    decreases ts
  {
    if |ts| != 0 {
      NotThere(ts[0].kids, k, xs, w);
      NotThere(ts[1..], k, xs, w);
      assert ts == [ts[0]] + ts[1..];
    }
  }

  lemma {:induction false} FindThere<T>(ts: seq<Tree<T>>, k: nat)
    ensures Find(ts, k).Some? <==> Has(ts, k)
    ensures Find(ts, k).Some? ==> Find(ts, k).value.name == k
    decreases ts
  {
    if |ts| != 0 {
      FindThere(ts[0].kids, k);
      FindThere(ts[1..], k);
    }
  }

  lemma BesideCount<T>(t: Tree<T>, k: nat, xs: seq<Tree<T>>, w: Where, n: nat)
    ensures Count(Beside(t, k, xs, w), n) == Count([t], n) + if t.name == k then Count(xs, n) else 0
  {
    CountConcat(xs, [t], n);
    CountConcat([t], xs, n);
    CountConcat(t.kids, xs, n);
  }

  lemma {:induction false} PlaceCount<T>(ts: seq<Tree<T>>, k: nat, xs: seq<Tree<T>>, w: Where, n: nat)
    requires Count(ts, k) == 1
    ensures Count(Place(ts, k, xs, w), n) == Count(ts, n) + Count(xs, n)
    decreases ts
  {
    var t := ts[0];
    var here := t.(kids := Place(t.kids, k, xs, w));
    BesideCount(here, k, xs, w, n);
    CountConcat(Beside(here, k, xs, w), Place(ts[1..], k, xs, w), n);
    ConsParts(here, []);
    if Has(t.kids, k) { PlaceCount(t.kids, k, xs, w, n); } else { NotThere(t.kids, k, xs, w); }
    if Has(ts[1..], k) { PlaceCount(ts[1..], k, xs, w, n); } else { NotThere(ts[1..], k, xs, w); }
  }

  lemma {:induction false} WithoutCount<T>(ts: seq<Tree<T>>, k: nat, n: nat)
    requires Count(ts, k) == 1
    ensures Find(ts, k).Some? && Count(Without(ts, k), n) + Count([Find(ts, k).value], n) == Count(ts, n)
    decreases ts
  {
    var t := ts[0];
    ConsParts(t, []);
    if Has(t.kids, k) { WithoutCount(t.kids, k, n); } else { NotThere(t.kids, k, [], After); }
    if Has(ts[1..], k) { WithoutCount(ts[1..], k, n); } else { NotThere(ts[1..], k, [], After); }
    ConsParts(t.(kids := Without(t.kids, k)), Without(ts[1..], k));
  }

  /** Moving loses no node and makes none. */
  lemma MoveConserves<T>(ts: seq<Tree<T>>, k: nat, p: nat, w: Where, n: nat)
    requires Distinct(ts) && Has(ts, k) && (k == p || Has(Without(ts, k), p))
    ensures Count(Move(ts, k, p, w), n) == Count(ts, n)
  {
    WithoutCount(ts, k, n);
    if k != p {
      WithoutCount(ts, k, p);
      assert Count(ts, p) <= 1;
      PlaceCount(Without(ts, k), p, [Find(ts, k).value], w, n);
    }
  }

  // ---------------------------------------------------------------- lists side by side

  lemma {:induction false} PlaceConcat<T>(a: seq<Tree<T>>, b: seq<Tree<T>>, k: nat, xs: seq<Tree<T>>, w: Where)
    ensures Place(a + b, k, xs, w) == Place(a, k, xs, w) + Place(b, k, xs, w)
  {
    if |a| == 0 {
      assert a + b == b;
    } else {
      assert (a + b)[1..] == a[1..] + b;
      PlaceConcat(a[1..], b, k, xs, w);
    }
  }

  lemma {:induction false} WithoutConcat<T>(a: seq<Tree<T>>, b: seq<Tree<T>>, k: nat)
    ensures Without(a + b, k) == Without(a, k) + Without(b, k)
  {
    if |a| == 0 {
      assert a + b == b;
    } else {
      assert (a + b)[1..] == a[1..] + b;
      WithoutConcat(a[1..], b, k);
    }
  }

  lemma {:induction false} FindConcat<T>(a: seq<Tree<T>>, b: seq<Tree<T>>, k: nat)
    ensures Find(a + b, k) == if Find(a, k).Some? then Find(a, k) else Find(b, k)
  {
    if |a| == 0 {
      assert a + b == b;
    } else {
      assert (a + b)[1..] == a[1..] + b;
      FindConcat(a[1..], b, k);
    }
  }

  // ---------------------------------------------------------------- placing and taking away

  lemma WithoutBeside<T>(t: Tree<T>, k: nat, xs: seq<Tree<T>>, w: Where, j: nat)
    requires j != k && t.name != j
    ensures Without(Beside(t, k, xs, w), j) == Beside(t.(kids := Without(t.kids, j)), k, Without(xs, j), w)
  {
    ConsParts(t, []);
    WithoutConcat(xs, [t], j);
    WithoutConcat([t], xs, j);
    WithoutConcat(t.kids, xs, j);
  }

  lemma BesideGone<T>(t: Tree<T>, k: nat, xs: seq<Tree<T>>, w: Where, j: nat)
    requires j != k && t.name == j
    ensures Without(Beside(t, k, xs, w), j) == []
  {
  }

  /** Placing nodes and taking another one away commute. */
  lemma {:induction false} PlaceWithout<T>(ts: seq<Tree<T>>, k: nat, xs: seq<Tree<T>>, w: Where, j: nat)
    requires j != k
    ensures Without(Place(ts, k, xs, w), j) == Place(Without(ts, j), k, Without(xs, j), w)
    decreases ts
  {
    if |ts| != 0 {
      var t := ts[0];
      var here := t.(kids := Place(t.kids, k, xs, w));
      var rest := Place(ts[1..], k, xs, w);
      PlaceWithout(t.kids, k, xs, w, j);
      PlaceWithout(ts[1..], k, xs, w, j);
      WithoutConcat(Beside(here, k, xs, w), rest, j);
      if t.name == j {
        BesideGone(here, k, xs, w, j);
      } else {
        WithoutBeside(here, k, xs, w, j);
        ConsParts(t.(kids := Without(t.kids, j)), Without(ts[1..], j));
      }
    }
  }

  lemma {:induction false} PlaceNothing<T>(ts: seq<Tree<T>>, k: nat, w: Where)
    ensures Place(ts, k, [], w) == ts
    decreases ts
  {
    if |ts| != 0 {
      PlaceNothing(ts[0].kids, k, w);
      PlaceNothing(ts[1..], k, w);
      var t := ts[0];
      assert Beside(t, k, [], w) == [t] by { assert t.(kids := t.kids + []) == t; }
      assert t.(kids := Place(t.kids, k, [], w)) == t;
      assert ts == [t] + ts[1..];
    }
  }

  lemma AloneGone<T>(x: Tree<T>)
    ensures Without([x], x.name) == []
  {
    assert [x][1..] == [];
  }

  /** Placing a new node is undone by taking it away: nothing else has moved. */
  lemma PlaceUndone<T>(ts: seq<Tree<T>>, k: nat, x: Tree<T>, w: Where)
    requires !Has(ts, x.name) && x.name != k
    ensures Without(Place(ts, k, [x], w), x.name) == ts
  {
    PlaceWithout(ts, k, [x], w, x.name);
    AloneGone(x);
    NotThere(ts, x.name, [], w);
    PlaceNothing(ts, k, w);
  }

  /** Apart from the node that moves, moving changes nothing. */
  lemma MoveOnlyThat<T>(ts: seq<Tree<T>>, k: nat, p: nat, w: Where)
    requires Distinct(ts) && Has(ts, k)
    ensures Without(Move(ts, k, p, w), k) == Without(ts, k)
  {
    WithoutCount(ts, k, k);
    FindThere(ts, k);
    if k != p {
      var t := Find(ts, k).value;
      ConsParts(t, []);
      assert Count(ts, k) <= 1;
      PlaceUndone(Without(ts, k), p, t, w);
    }
  }

  lemma {:induction false} FindPlaced<T>(ts: seq<Tree<T>>, k: nat, x: Tree<T>, w: Where)
    requires Has(ts, k) && !Has(ts, x.name)
    ensures Find(Place(ts, k, [x], w), x.name) == Some(x)
    decreases ts
  {
    var t := ts[0];
    var here := t.(kids := Place(t.kids, k, [x], w));
    var rest := Place(ts[1..], k, [x], w);
    FindConcat(Beside(here, k, [x], w), rest, x.name);
    FindConcat([here], [x], x.name);
    FindConcat(here.kids, [x], x.name);
    ConsParts(here, []);
    ConsParts(here.(kids := here.kids + [x]), []);
    if Has(t.kids, k) {
      FindPlaced(t.kids, k, x, w);
    } else {
      NotThere(t.kids, k, [x], w);
      NotThere(t.kids, x.name, [x], w);
    }
    if Has(ts[1..], k) { FindPlaced(ts[1..], k, x, w); }
  }

  /** A node placed anew somewhere and then moved is a node placed anew where it was moved to. */
  lemma PlaceThenMove<T>(ts: seq<Tree<T>>, g: nat, x: Tree<T>, w: Where, p: nat, v: Where)
    requires Has(ts, g) && !Has(ts, x.name) && p != x.name
    ensures Move(Place(ts, g, [x], w), x.name, p, v) == Place(ts, p, [x], v)
  {
    FindPlaced(ts, g, x, w);
    PlaceUndone(ts, g, x, w);
  }

  lemma AppendThenMove<T>(ts: seq<Tree<T>>, x: Tree<T>, rest: seq<Tree<T>>, p: nat, v: Where)
    requires !Has(ts, x.name) && !Has(rest, x.name) && p != x.name && !Has(rest, p)
    ensures Move(ts + ([x] + rest), x.name, p, v) == Place(ts, p, [x], v) + rest
  {
    NotThere(ts, x.name, [], v);
    NotThere(rest, x.name, [], v);
    FindConcat(ts, [x] + rest, x.name);
    WithoutConcat(ts, [x] + rest, x.name);
    WithoutConcat([x], rest, x.name);
    AloneGone(x);
    PlaceConcat(ts, rest, p, [x], v);
    NotThere(rest, p, [x], v);
    assert Find([x] + rest, x.name) == Some(x);
    assert Without(ts + ([x] + rest), x.name) == ts + rest;
  }

  // ---------------------------------------------------------------- one after another

  lemma AfterLast<T>(xs: seq<Tree<T>>, l: Tree<T>, x: Tree<T>)
    requires !Has(xs, l.name) && !Has(l.kids, l.name)
    ensures Place(xs + [l], l.name, [x], After) == xs + [l, x]
  {
    PlaceConcat(xs, [l], l.name, [x], After);
    NotThere(xs, l.name, [x], After);
    NotThere(l.kids, l.name, [x], After);
    assert [l][1..] == [];
    assert l.(kids := Place(l.kids, l.name, [x], After)) == l;
    assert Place([l], l.name, [x], After) == [l] + [x] + [];
  }

  /** Putting nodes one after another is putting them all at once. */
  lemma {:induction false} PlaceNextAfter<T>(ts: seq<Tree<T>>, k: nat, xs: seq<Tree<T>>, l: Tree<T>, x: Tree<T>)
    requires !Has(ts, l.name) && !Has(xs, l.name) && !Has(l.kids, l.name)
    ensures Place(Place(ts, k, xs + [l], After), l.name, [x], After) == Place(ts, k, xs + [l, x], After)
    decreases ts
  {
    if |ts| != 0 {
      var t := ts[0];
      var all := xs + [l];
      var here := t.(kids := Place(t.kids, k, all, After));
      PlaceNextAfter(t.kids, k, xs, l, x);
      PlaceNextAfter(ts[1..], k, xs, l, x);
      PlaceConcat(Beside(here, k, all, After), Place(ts[1..], k, all, After), l.name, [x], After);
      PlaceConcat([here], all, l.name, [x], After);
      AfterLast(xs, l, x);
      ConsParts(here, []);
      var here' := t.(kids := Place(t.kids, k, xs + [l, x], After));
      assert Place([here], l.name, [x], After) == [here'] + [];
      assert Place(Beside(here, k, all, After), l.name, [x], After) == Beside(here', k, xs + [l, x], After);
    }
  }

  lemma {:induction false} PlaceNextInside<T>(ts: seq<Tree<T>>, k: nat, xs: seq<Tree<T>>, x: Tree<T>)
    requires !Has(xs, k)
    ensures Place(Place(ts, k, xs, Inside), k, [x], Inside) == Place(ts, k, xs + [x], Inside)
    decreases ts
  {
    if |ts| != 0 {
      var t := ts[0];
      var below := Place(t.kids, k, xs, Inside);
      PlaceNextInside(t.kids, k, xs, x);
      PlaceNextInside(ts[1..], k, xs, x);
      PlaceConcat(below, xs, k, [x], Inside);
      NotThere(xs, k, [x], Inside);
      assert Place(below, k, [x], Inside) + xs + [x] == Place(below, k, [x], Inside) + (xs + [x]);
      var first := Beside(t.(kids := below), k, xs, Inside);
      assert |first| == 1;
      assert Place(ts, k, xs, Inside) == first + Place(ts[1..], k, xs, Inside);
      ConsParts(first[0], Place(ts[1..], k, xs, Inside));
    }
  }

  // ---------------------------------------------------------------- where a placed node is

  lemma {:induction false} SiblingsThere<T>(ts: seq<Tree<T>>, k: nat)
    ensures |Siblings(ts, k)| != 0 ==> IsTop(Siblings(ts, k), k)
    ensures |Siblings(ts, k)| != 0 <==> Has(ts, k)
    decreases ts, 1
  {
    if !IsTop(ts, k) { SiblingsBelowThere(ts, k); } else { TopCounted(ts, k); }
  }

  lemma {:induction false} SiblingsBelowThere<T>(ts: seq<Tree<T>>, k: nat)
    ensures |SiblingsBelow(ts, k)| != 0 ==> IsTop(SiblingsBelow(ts, k), k)
    ensures !IsTop(ts, k) ==> (|SiblingsBelow(ts, k)| != 0 <==> Has(ts, k))
    decreases ts, 0
  {
    if |ts| != 0 {
      SiblingsThere(ts[0].kids, k);
      SiblingsBelowThere(ts[1..], k);
    }
  }

  lemma {:induction false} TopCounted<T>(ts: seq<Tree<T>>, k: nat)
    requires IsTop(ts, k)
    ensures Has(ts, k)
  {
    if ts[0].name != k { TopCounted(ts[1..], k); }
  }

  lemma {:induction false} TopAt<T>(ts: seq<Tree<T>>, k: nat)
    ensures IsTop(ts, k) <==> exists i :: 0 <= i < |ts| && ts[i].name == k
  {
    if |ts| != 0 {
      TopAt(ts[1..], k);
      assert forall i :: 0 < i < |ts| ==> ts[i] == ts[1..][i - 1];
      if IsTop(ts[1..], k) {
        var i :| 0 <= i < |ts[1..]| && ts[1..][i].name == k;
        assert ts[i + 1].name == k;
      }
    }
  }

  /** A node is either on top or below something, not both, when names are distinct. */
  lemma {:induction false} TopOrDeep<T>(ts: seq<Tree<T>>, k: nat)
    ensures Has(ts, k) <==> IsTop(ts, k) || Deep(ts, k)
    ensures Count(ts, k) <= 1 ==> !(IsTop(ts, k) && Deep(ts, k))
  {
    if |ts| != 0 {
      TopOrDeep(ts[1..], k);
    }
  }

  /** Siblings a and b, the one right after the other. */
  ghost predicate NextTo<T>(ts: seq<Tree<T>>, a: nat, b: nat)
    decreases ts
  {
    |ts| != 0 && ((|ts| > 1 && ts[0].name == a && ts[1].name == b) || NextTo(ts[0].kids, a, b) || NextTo(ts[1..], a, b))
  }

  lemma {:induction false} NextToConcat<T>(a: seq<Tree<T>>, b: seq<Tree<T>>, j: nat, k: nat)
    requires NextTo(a, j, k) || NextTo(b, j, k)
    ensures NextTo(a + b, j, k)
  {
    if |a| == 0 {
      assert a + b == b;
    } else {
      assert (a + b)[1..] == a[1..] + b;
      if NextTo(a[1..], j, k) || NextTo(b, j, k) { NextToConcat(a[1..], b, j, k); }
    }
  }

  /** A placed node is right after, or right before, the node it was placed by. */
  lemma {:induction false} PlacedThere<T>(ts: seq<Tree<T>>, k: nat, x: Tree<T>, w: Where)
    requires Has(ts, k) && x.name != k
    ensures w == After ==> NextTo(Place(ts, k, [x], w), k, x.name)
    ensures w == Before ==> NextTo(Place(ts, k, [x], w), x.name, k)
    decreases ts
  {
    if w != Inside {
      var t := ts[0];
      var here := t.(kids := Place(t.kids, k, [x], w));
      var first, rest := Beside(here, k, [x], w), Place(ts[1..], k, [x], w);
      var a, b := if w == After then k else x.name, if w == After then x.name else k;
      if t.name == k {
        assert first[0].name == a && first[1].name == b;
        NextToConcat(first, rest, a, b);
      } else {
        if Has(t.kids, k) { PlacedThere(t.kids, k, x, w); } else { PlacedThere(ts[1..], k, x, w); }
        NextToConcat(first, rest, a, b);
      }
    }
  }

  lemma {:induction false} PlacedLast<T>(ts: seq<Tree<T>>, k: nat, x: Tree<T>)
    requires Count(ts, k) == 1 && x.name != k
    ensures Find(ts, k).Some?
    ensures Find(Place(ts, k, [x], Inside), k) == Some(var t := Find(ts, k).value; t.(kids := t.kids + [x]))
    decreases ts
  {
    var t := ts[0];
    var here := t.(kids := Place(t.kids, k, [x], Inside));
    var rest := Place(ts[1..], k, [x], Inside);
    FindThere(t.kids, k);
    FindConcat(Beside(here, k, [x], Inside), rest, k);
    ConsParts(here, []);
    if t.name == k {
      NotThere(t.kids, k, [x], Inside);
      ConsParts(t.(kids := t.kids + [x]), []);
    } else if Has(t.kids, k) {
      PlacedLast(t.kids, k, x);
    } else {
      NotThere(t.kids, k, [x], Inside);
      PlacedLast(ts[1..], k, x);
    }
  }

  // ---------------------------------------------------------------- the first and the last of a list

  lemma {:induction false} TopStays<T>(ts: seq<Tree<T>>, k: nat, p: nat)
    requires IsTop(ts, p) && p != k
    ensures IsTop(Without(ts, k), p)
  {
    if ts[0].name != k { ConsParts(ts[0].(kids := Without(ts[0].kids, k)), Without(ts[1..], k)); }
    if ts[0].name != p { TopStays(ts[1..], k, p); }
  }

  lemma {:induction false} SiblingsStay<T>(ts: seq<Tree<T>>, k: nat, p: nat)
    requires IsTop(Siblings(ts, k), p) && p != k
    ensures Has(Without(ts, k), p)
    decreases ts, 1
  {
    if IsTop(ts, k) {
      TopStays(ts, k, p);
      TopCounted(Without(ts, k), p);
    } else {
      SiblingsBelowStay(ts, k, p);
    }
  }

  lemma {:induction false} SiblingsBelowStay<T>(ts: seq<Tree<T>>, k: nat, p: nat)
    requires !IsTop(ts, k) && IsTop(SiblingsBelow(ts, k), p) && p != k
    ensures Has(Without(ts, k), p)
    decreases ts, 0
  {
    var t := ts[0];
    ConsParts(t.(kids := Without(t.kids, k)), Without(ts[1..], k));
    if |Siblings(t.kids, k)| != 0 { SiblingsStay(t.kids, k, p); } else { SiblingsBelowStay(ts[1..], k, p); }
  }

  lemma EdgeThere<T>(ts: seq<Tree<T>>, k: nat, w: Where)
    requires Has(ts, k)
    ensures IsTop(Siblings(ts, k), Edge(ts, k, w))
    ensures Edge(ts, k, w) != k ==> Has(Without(ts, k), Edge(ts, k, w))
  {
    SiblingsThere(ts, k);
    TopAt(Siblings(ts, k), Edge(ts, k, w));
    if Edge(ts, k, w) != k { SiblingsStay(ts, k, Edge(ts, k, w)); }
  }

  function ToEdge<T>(ts: seq<Tree<T>>, k: nat, w: Where): seq<Tree<T>> {
    Move(ts, k, Edge(ts, k, w), w)
  }

  lemma {:induction false} TopPlaced<T>(ts: seq<Tree<T>>, p: nat, x: Tree<T>, w: Where, n: nat)
    requires w != Inside
    ensures IsTop(Place(ts, p, [x], w), n) <==> IsTop(ts, n) || (IsTop(ts, p) && x.name == n)
  {
    if |ts| != 0 {
      var t := ts[0];
      var here := t.(kids := Place(t.kids, p, [x], w));
      var rest := Place(ts[1..], p, [x], w);
      TopPlaced(ts[1..], p, x, w, n);
      ConsParts(here, rest);
      if t.name == p {
        var a, b := if w == After then here else x, if w == After then x else here;
        assert Place(ts, p, [x], w) == [a] + ([b] + rest);
        ConsParts(a, [b] + rest);
        ConsParts(b, rest);
      }
    }
  }

  /** A node placed beside another joins its siblings, and no other list. */
  lemma {:induction false} SiblingsPlaced<T>(ts: seq<Tree<T>>, p: nat, x: Tree<T>, w: Where)
    requires Count(ts, p) == 1 && !Has(ts, x.name) && w != Inside
    ensures Siblings(Place(ts, p, [x], w), x.name) == Place(Siblings(ts, p), p, [x], w)
    decreases ts, 1
  {
    TopPlaced(ts, p, x, w, x.name);
    if !IsTop(ts, p) {
      if IsTop(ts, x.name) { TopCounted(ts, x.name); }
      SiblingsBelowPlaced(ts, p, x, w);
    }
  }

  lemma {:induction false} SiblingsBelowPlaced<T>(ts: seq<Tree<T>>, p: nat, x: Tree<T>, w: Where)
    requires Count(ts, p) == 1 && !IsTop(ts, p) && !Has(ts, x.name) && w != Inside
    ensures SiblingsBelow(Place(ts, p, [x], w), x.name) == Place(SiblingsBelow(ts, p), p, [x], w)
    decreases ts, 0
  {
    var t := ts[0];
    var here := t.(kids := Place(t.kids, p, [x], w));
    ConsParts(here, Place(ts[1..], p, [x], w));
    SiblingsThere(t.kids, p);
    SiblingsThere(t.kids, x.name);
    if Has(t.kids, p) {
      SiblingsPlaced(t.kids, p, x, w);
      assert Siblings(t.kids, p) == SiblingsBelow(ts, p);
      PlacedNonEmpty(SiblingsBelow(ts, p), p, x, w);
    } else {
      NotThere(t.kids, p, [x], w);
      SiblingsBelowPlaced(ts[1..], p, x, w);
    }
  }

  lemma PlacedNonEmpty<T>(ts: seq<Tree<T>>, p: nat, x: Tree<T>, w: Where)
    requires |ts| != 0
    ensures |Place(ts, p, [x], w)| != 0
  {
  }

  lemma {:induction false} SiblingsWithout<T>(ts: seq<Tree<T>>, k: nat, p: nat)
    requires IsTop(Siblings(ts, k), p) && p != k && Count(ts, p) <= 1
    ensures Siblings(Without(ts, k), p) == Without(Siblings(ts, k), k)
    decreases ts, 1
  {
    if IsTop(ts, k) { TopStays(ts, k, p); } else { SiblingsBelowWithout(ts, k, p); }
  }

  lemma {:induction false} SiblingsBelowWithout<T>(ts: seq<Tree<T>>, k: nat, p: nat)
    requires !IsTop(ts, k) && IsTop(SiblingsBelow(ts, k), p) && p != k && Count(ts, p) <= 1
    ensures Siblings(Without(ts, k), p) == Without(SiblingsBelow(ts, k), k)
    ensures !IsTop(Without(ts, k), p) && Has(ts, p)
    decreases ts, 0
  {
    var t := ts[0];
    var here := t.(kids := Without(t.kids, k));
    ConsParts(here, Without(ts[1..], k));
    if |Siblings(t.kids, k)| != 0 {
      SiblingsHere(t.kids, k, p);
      SiblingsWithout(t.kids, k, p);
      SiblingsThere(here.kids, p);
      SiblingsStay(t.kids, k, p);
      WithoutTop(ts[1..], k, p);
    } else {
      SiblingsThere(t.kids, k);
      NotThere(t.kids, k, [], After);
      SiblingsBelowWithout(ts[1..], k, p);
      SiblingsThere(t.kids, p);
    }
  }

  lemma {:induction false} SiblingsHere<T>(ts: seq<Tree<T>>, k: nat, p: nat)
    requires IsTop(Siblings(ts, k), p)
    ensures Has(ts, p)
    decreases ts, 1
  {
    if IsTop(ts, k) { TopCounted(ts, p); } else { SiblingsBelowHere(ts, k, p); }
  }

  lemma {:induction false} SiblingsBelowHere<T>(ts: seq<Tree<T>>, k: nat, p: nat)
    requires IsTop(SiblingsBelow(ts, k), p)
    ensures Has(ts, p)
    decreases ts, 0
  {
    if |Siblings(ts[0].kids, k)| != 0 { SiblingsHere(ts[0].kids, k, p); } else { SiblingsBelowHere(ts[1..], k, p); }
  }

  lemma {:induction false} WithoutTop<T>(ts: seq<Tree<T>>, k: nat, p: nat)
    requires !Has(ts, p)
    ensures !IsTop(Without(ts, k), p)
  {
    if |ts| != 0 {
      WithoutTop(ts[1..], k, p);
      ConsParts(ts[0].(kids := Without(ts[0].kids, k)), Without(ts[1..], k));
    }
  }

  lemma PlaceCons<T>(t: Tree<T>, rest: seq<Tree<T>>, k: nat, xs: seq<Tree<T>>, w: Where)
    ensures Place([t] + rest, k, xs, w) == Beside(t.(kids := Place(t.kids, k, xs, w)), k, xs, w) + Place(rest, k, xs, w)
  {
    ConsParts(t, rest);
  }

  lemma FirstPlaced<T>(t: Tree<T>, rest: seq<Tree<T>>, x: Tree<T>)
    requires !Has(t.kids, t.name) && !Has(rest, t.name)
    ensures Place([t] + rest, t.name, [x], Before) == [x] + ([t] + rest)
  {
    hide Place, Has;
    NotThere(t.kids, t.name, [x], Before);
    NotThere(rest, t.name, [x], Before);
    PlaceCons(t, rest, t.name, [x], Before);
    assert t.(kids := t.kids) == t;
    assert ([x] + [t]) + rest == [x] + ([t] + rest);
  }

  lemma LastPlaced<T>(init: seq<Tree<T>>, l: Tree<T>, x: Tree<T>)
    requires !Has(init, l.name) && !Has(l.kids, l.name)
    ensures Place(init + [l], l.name, [x], After) == (init + [l]) + [x]
  {
    AfterLast(init, l, x);
    assert init + [l, x] == (init + [l]) + [x];
  }

  lemma EdgePlaced<T>(s: seq<Tree<T>>, x: Tree<T>, w: Where)
    requires |s| != 0 && w != Inside && Count(s, if w == Before then s[0].name else s[|s| - 1].name) == 1
    ensures w == Before ==> Place(s, s[0].name, [x], w) == [x] + s
    ensures w == After ==> Place(s, s[|s| - 1].name, [x], w) == s + [x]
  {
    if w == Before {
      assert s == [s[0]] + s[1..];
      FirstPlaced(s[0], s[1..], x);
    } else {
      var init, l := s[..|s| - 1], s[|s| - 1];
      assert s == init + [l];
      CountConcat(init, [l], l.name);
      ConsParts(l, []);
      LastPlaced(init, l, x);
    }
  }

  lemma {:induction false} SiblingsCount<T>(ts: seq<Tree<T>>, k: nat, n: nat)
    ensures Count(Siblings(ts, k), n) <= Count(ts, n)
    decreases ts, 1
  {
    if !IsTop(ts, k) { SiblingsBelowCount(ts, k, n); }
  }

  lemma {:induction false} SiblingsBelowCount<T>(ts: seq<Tree<T>>, k: nat, n: nat)
    ensures Count(SiblingsBelow(ts, k), n) <= Count(ts, n)
    decreases ts, 0
  {
    if |ts| != 0 {
      SiblingsCount(ts[0].kids, k, n);
      SiblingsBelowCount(ts[1..], k, n);
    }
  }

  lemma {:induction false} WithoutKeepsEdge<T>(s: seq<Tree<T>>, k: nat, w: Where)
    requires |s| != 0 && (if w == Before then s[0].name else s[|s| - 1].name) != k
    ensures |Without(s, k)| != 0
    ensures w == Before ==> Without(s, k)[0].name == s[0].name
    ensures w != Before ==> Without(s, k)[|Without(s, k)| - 1].name == s[|s| - 1].name
  {
    if w != Before {
      var init, l := s[..|s| - 1], s[|s| - 1];
      assert s == init + [l];
      WithoutConcat(init, [l], k);
      ConsParts(l, []);
      assert Without([l], k) == [l.(kids := Without(l.kids, k))] + [];
    }
  }

  /** Going to the start or the end: the node leads or ends its own list, whose other nodes keep
      their order. */
  lemma ToEdgeExactly<T>(ts: seq<Tree<T>>, k: nat, w: Where)
    requires Distinct(ts) && Has(ts, k) && w != Inside && Edge(ts, k, w) != k
    ensures var t, others := Find(ts, k), Without(Siblings(ts, k), k);
      t.Some? && Siblings(ToEdge(ts, k, w), k) == if w == Before then [t.value] + others else others + [t.value]
  {
    var s, p, base := Siblings(ts, k), Edge(ts, k, w), Without(ts, k);
    SiblingsThere(ts, k);
    EdgeThere(ts, k, w);
    FindThere(ts, k);
    WithoutCount(ts, k, k);
    WithoutCount(ts, k, p);
    var t := Find(ts, k).value;
    ConsParts(t, []);
    assert Count(ts, k) <= 1 && Count(ts, p) <= 1;
    SiblingsPlaced(base, p, t, w);
    SiblingsWithout(ts, k, p);
    WithoutKeepsEdge(s, k, w);
    SiblingsCount(base, p, p);
    SiblingsThere(base, p);
    TopCounted(Siblings(base, p), p);
    EdgePlaced(Without(s, k), t, w);
  }
}
