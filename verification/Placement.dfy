/**
 Where the events of the parameter editor put things (debr/debr-parameter.c), told by the lists of
 the document before and after: which list a parameter is in, what it stands beside, and that
 everything else is where it was. The rows are in the same places, as the two trees stay alike.
 */
module Placement {
  import opened Strings
  import opened Trees
  import opened Mirror
  import opened Editor

  // ---------------------------------------------------------------- lists before and after

  /** The list of `p` has got `xs` right after it, or right before. */
  ghost predicate RightAfter<T>(ts: seq<Tree<T>>, ts': seq<Tree<T>>, p: nat, xs: seq<Tree<T>>) {
    var s := Siblings(ts, p);
    exists i :: 0 <= i < |s| && s[i].name == p && Siblings(ts', p) == s[..i + 1] + xs + s[i + 1..]
  }

  ghost predicate RightBefore<T>(ts: seq<Tree<T>>, ts': seq<Tree<T>>, p: nat, xs: seq<Tree<T>>) {
    var s := Siblings(ts, p);
    exists i :: 0 <= i < |s| && s[i].name == p && Siblings(ts', p) == s[..i] + xs + s[i..]
  }

  /** The group `g` has got `xs` at the end of what is in it. */
  ghost predicate LastIn<T>(ts: seq<Tree<T>>, ts': seq<Tree<T>>, g: nat, xs: seq<Tree<T>>) {
    Find(ts, g).Some? && Find(ts', g) == Some(Find(ts, g).value.(kids := Find(ts, g).value.kids + xs))
  }

  /** The list without all of these. */
  function WithoutAll<T>(ts: seq<Tree<T>>, xs: seq<Tree<T>>): seq<Tree<T>>
    decreases |xs|
  {
    if |xs| == 0 then ts else WithoutAll(Without(ts, xs[0].name), xs[1..])
  }

  lemma PlaceAmong<T>(a: seq<Tree<T>>, t: Tree<T>, b: seq<Tree<T>>, xs: seq<Tree<T>>, w: Where)
    requires Count(a + ([t] + b), t.name) == 1 && w != Inside
    ensures Place(a + ([t] + b), t.name, xs, w) == a + (if w == After then [t] + (xs + b) else xs + ([t] + b))
  {
    CountsAmong(a, t, b);
    hide Place, Count;
    PlaceConcat(a, [t] + b, t.name, xs, w);
    NotThere(a, t.name, xs, w);
    PlaceFirst(t, b, xs, w);
  }

  lemma CountsAmong<T>(a: seq<Tree<T>>, t: Tree<T>, b: seq<Tree<T>>)
    requires Count(a + ([t] + b), t.name) == 1
    ensures !Has(a, t.name) && !Has(b, t.name) && !Has(t.kids, t.name)
  {
    CountConcat(a, [t] + b, t.name);
    ConsParts(t, b);
  }

  lemma PlaceFirst<T>(t: Tree<T>, b: seq<Tree<T>>, xs: seq<Tree<T>>, w: Where)
    requires !Has(b, t.name) && !Has(t.kids, t.name) && w != Inside
    ensures Place([t] + b, t.name, xs, w) == if w == After then [t] + (xs + b) else xs + ([t] + b)
  {
    hide Place, Has;
    NotThere(b, t.name, xs, w);
    NotThere(t.kids, t.name, xs, w);
    PlaceCons(t, b, t.name, xs, w);
    assert t.(kids := t.kids) == t;
    if w == After {
      assert ([t] + xs) + b == [t] + (xs + b);
    } else {
      assert (xs + [t]) + b == xs + ([t] + b);
    }
  }

  lemma {:induction false} TopPlacedBeside<T>(ts: seq<Tree<T>>, p: nat, xs: seq<Tree<T>>, w: Where)
    requires w != Inside && !Has(xs, p)
    ensures IsTop(Place(ts, p, xs, w), p) <==> IsTop(ts, p)
  {
    if |ts| != 0 {
      var here := ts[0].(kids := Place(ts[0].kids, p, xs, w));
      TopPlacedBeside(ts[1..], p, xs, w);
      TopAt(Beside(here, p, xs, w) + Place(ts[1..], p, xs, w), p);
      if here.name == p {
        var first := Beside(here, p, xs, w);
        assert first[if w == After then 0 else |xs|] == here;
        assert (first + Place(ts[1..], p, xs, w))[if w == After then 0 else |xs|] == here;
      } else {
        ConsParts(here, Place(ts[1..], p, xs, w));
      }
    }
  }

  /** The list that holds `p` is the one in which things are placed beside it. */
  lemma {:induction false} ListPlaced<T>(ts: seq<Tree<T>>, p: nat, xs: seq<Tree<T>>, w: Where)
    requires Count(ts, p) == 1 && w != Inside && !Has(xs, p)
    ensures Siblings(Place(ts, p, xs, w), p) == Place(Siblings(ts, p), p, xs, w)
    decreases ts, 1
  {
    TopPlacedBeside(ts, p, xs, w);
    if !IsTop(ts, p) { ListBelowPlaced(ts, p, xs, w); }
  }

  lemma {:induction false} ListBelowPlaced<T>(ts: seq<Tree<T>>, p: nat, xs: seq<Tree<T>>, w: Where)
    requires Count(ts, p) == 1 && w != Inside && !Has(xs, p) && !IsTop(ts, p)
    ensures SiblingsBelow(Place(ts, p, xs, w), p) == Place(SiblingsBelow(ts, p), p, xs, w)
    decreases ts, 0
  {
    var t := ts[0];
    var here := t.(kids := Place(t.kids, p, xs, w));
    ConsParts(here, Place(ts[1..], p, xs, w));
    SiblingsThere(t.kids, p);
    if Has(t.kids, p) {
      ListPlaced(t.kids, p, xs, w);
      assert Siblings(t.kids, p) == SiblingsBelow(ts, p);
      StillListed(Siblings(t.kids, p), p, xs, w);
    } else {
      NotThere(t.kids, p, xs, w);
      ListBelowPlaced(ts[1..], p, xs, w);
    }
  }

  lemma StillListed<T>(ts: seq<Tree<T>>, p: nat, xs: seq<Tree<T>>, w: Where)
    requires |ts| != 0
    ensures |Place(ts, p, xs, w)| != 0
  {
  }

  lemma PlacedBeside<T>(ts: seq<Tree<T>>, p: nat, xs: seq<Tree<T>>, w: Where)
    requires Count(ts, p) == 1 && !Has(xs, p)
    ensures w == After ==> RightAfter(ts, Place(ts, p, xs, w), p, xs)
    ensures w == Before ==> RightBefore(ts, Place(ts, p, xs, w), p, xs)
  {
    hide Place, Siblings;
    if w != Inside {
      var s := Siblings(ts, p);
      SiblingsThere(ts, p);
      TopAt(s, p);
      var i :| 0 <= i < |s| && s[i].name == p;
      var a, t, b := s[..i], s[i], s[i + 1..];
      assert s == a + ([t] + b);
      SiblingsCount(ts, p, p);
      TopCounted(s, p);
      ListPlaced(ts, p, xs, w);
      PlaceAmong(a, t, b, xs, w);
      Rejoin(s, i, xs);
    }
  }

  lemma Rejoin<T>(s: seq<T>, i: nat, xs: seq<T>)
    requires i < |s|
    ensures s[..i] + ([s[i]] + (xs + s[i + 1..])) == s[..i + 1] + xs + s[i + 1..]
    ensures s[..i] + (xs + ([s[i]] + s[i + 1..])) == s[..i] + xs + s[i..]
  {
  }

  lemma {:induction false} PlacedInside<T>(ts: seq<Tree<T>>, g: nat, xs: seq<Tree<T>>)
    requires Count(ts, g) == 1 && !Has(xs, g)
    ensures LastIn(ts, Place(ts, g, xs, Inside), g, xs)
    decreases ts
  {
    var t := ts[0];
    var here := t.(kids := Place(t.kids, g, xs, Inside));
    var rest := Place(ts[1..], g, xs, Inside);
    FindThere(t.kids, g);
    FindConcat(Beside(here, g, xs, Inside), rest, g);
    ConsParts(here, []);
    if t.name == g {
      NotThere(t.kids, g, xs, Inside);
      ConsParts(t.(kids := t.kids + xs), []);
    } else if Has(t.kids, g) {
      PlacedInside(t.kids, g, xs);
    } else {
      NotThere(t.kids, g, xs, Inside);
      PlacedInside(ts[1..], g, xs);
    }
  }

  /** Taking all of what was placed away gives back what was there. */
  lemma {:induction false} PlacedOnly<T>(ts: seq<Tree<T>>, p: nat, xs: seq<Tree<T>>, w: Where)
    requires Distinct(xs) && !Has(xs, p) && forall n :: Has(xs, n) ==> !Has(ts, n)
    ensures WithoutAll(Place(ts, p, xs, w), xs) == ts
  {
    if |xs| == 0 {
      PlaceNothing(ts, p, w);
    } else {
      OneOff(xs, p);
      PlaceWithout(ts, p, xs, w, xs[0].name);
      NotThere(ts, xs[0].name, [], After);
      PlacedOnly(ts, p, xs[1..], w);
    }
  }

  lemma OneOff<T>(xs: seq<Tree<T>>, p: nat)
    requires |xs| != 0 && Distinct(xs) && !Has(xs, p)
    ensures Without(xs, xs[0].name) == xs[1..] && Distinct(xs[1..]) && !Has(xs[1..], p) && xs[0].name != p
    ensures Has(xs, xs[0].name) && forall n :: Has(xs[1..], n) ==> Has(xs, n)
  {
    assert Count(xs, xs[0].name) <= 1;
    NotThere(xs[1..], xs[0].name, [], After);
    forall n ensures Count(xs[1..], n) <= 1 { assert Count(xs, n) <= 1; }
  }

  lemma {:induction false} AppendedOnly<T>(ts: seq<Tree<T>>, xs: seq<Tree<T>>)
    requires Distinct(xs) && forall n :: Has(xs, n) ==> !Has(ts, n)
    ensures WithoutAll(ts + xs, xs) == ts
  {
    if |xs| == 0 {
      assert ts + xs == ts;
    } else {
      var x := xs[0].name;
      WithoutConcat(ts, xs, x);
      assert Count(xs, x) <= 1;
      NotThere(ts, x, [], After);
      NotThere(xs[1..], x, [], After);
      forall n ensures Count(xs[1..], n) <= 1 { assert Count(xs, n) <= 1; }
      AppendedOnly(ts, xs[1..]);
    }
  }

  // ---------------------------------------------------------------- a new parameter

  /** A new parameter comes last in the document when nothing is selected, last in the selected group,
      and otherwise right after the selected one; a new group never goes into a group, but right after
      the one around the selection. Everything else is where it was. */
  lemma NewPlaced(st: State, at: Option<nat>, group: bool)
    requires Consistent(st) && (at.Some? ==> Has(st.rows, at.value))
    ensures var ns, ns' := st.params, Next(st, New(at, group)).params;
      var x := Tree(st.nextNode, group, []);
      && Without(ns', x.name) == ns
      && match at
         case None => ns' == ns + [x]
         case Some(k) =>
           && Find(st.rows, k).Some? && Find(ns, Find(st.rows, k).value.data).Some?
           && var id := Find(st.rows, k).value.data;
              if Parent(ns, id).None? && Find(ns, id).value.data && !group then LastIn(ns, ns', id, [x])
              else RightAfter(ns, ns', if group && Parent(ns, id).Some? then Parent(ns, id).value else id, [x])
  {
    hide RightAfter, LastIn, Place, Parent, Mirrors, Bare;
    var ns, x := st.params, Tree(st.nextNode, group, []);
    OneFresh(st.nextNode, group);
    assert !Has(ns, x.name);
    AloneGone(x);
    NotThere(ns, x.name, [], After);
    if at.None? {
      WithoutConcat(ns, [x], x.name);
    } else {
      var id := NodeOf(st.rows, at.value);
      RowPaired(st.rows, ns, st.nextRow, st.nextNode, at.value);
      var (q, w) := NewSpot(ns, id, group);
      ParentThere(ns, id);
      assert Count(ns, q) <= 1 && q != x.name;
      OneCount(st.nextNode, group, q);
      PlacedBeside(ns, q, [x], w);
      if w == Inside { PlacedInside(ns, q, [x]); }
      PlaceUndone(ns, q, x, w);
    }
  }

  lemma {:induction false} ParentThere<T>(ts: seq<Tree<T>>, k: nat)
    ensures Parent(ts, k).Some? ==> Has(ts, Parent(ts, k).value)
    decreases ts
  {
    if |ts| != 0 {
      ParentThere(ts[0].kids, k);
      ParentThere(ts[1..], k);
    }
  }

  // ---------------------------------------------------------------- pasting

  /** The same groups and parameters in the same shape, under other names. */
  predicate SameShape(a: Nodes, b: Nodes)
    decreases a
  {
    if |a| == 0 || |b| == 0 then |a| == |b| else
      a[0].data == b[0].data && SameShape(a[0].kids, b[0].kids) && SameShape(a[1..], b[1..])
  }

  lemma {:induction false} NumberShape(ns: Nodes, m: nat, f: Tree<bool> -> bool)
    requires forall t :: f(t) == t.data
    ensures SameShape(Number(ns, m, f), ns)
    decreases ns
  {
    if |ns| != 0 {
      NumberShape(ns[0].kids, m + 1, f);
      NumberShape(ns[1..], m + 1 + Size(ns[0].kids), f);
    }
  }

  /** A paste is refused exactly when it would put a group, as the first of the clipboard, into a group;
      then the document stays. Otherwise copies of the whole clipboard, under names not used before,
      come last in the document, last in the selected group, or right after the selected parameter,
      all together in their order. Everything else is where it was. */
  lemma PastePlaced(st: State, at: Option<nat>) returns (xs: Nodes)
    requires Consistent(st) && (at.Some? ==> Has(st.rows, at.value))
    ensures var ns, ns', clip := st.params, Next(st, Paste(at)).params, st.clipboard;
      var id := if at.Some? then NodeOf(st.rows, at.value) else 0;
      var inGroup := at.Some? && (Parent(ns, id).Some? || IsGroup(ns, id));
      if |clip| == 0 || (inGroup && clip[0].data) then ns' == ns else
        && SameShape(xs, clip) && Fresh(xs, st.nextNode, Next(st, Paste(at)).nextNode) && WithoutAll(ns', xs) == ns
        && if at.None? then ns' == ns + xs
           else if Parent(ns, id).None? && IsGroup(ns, id) then LastIn(ns, ns', id, xs)
           else RightAfter(ns, ns', id, xs)
  {
    hide RightAfter, LastIn, Place, Parent, Mirrors, Bare, SameShape, WithoutAll;
    var ns := st.params;
    xs := Clone(st.clipboard, st.nextNode);
    NumberShape(st.clipboard, st.nextNode, KIND_OF);
    CloneKeeps(st.clipboard, st.nextNode);
    if at.None? {
      AppendedOnly(ns, xs);
    } else {
      var id := NodeOf(st.rows, at.value);
      RowPaired(st.rows, ns, st.nextRow, st.nextNode, at.value);
      var w := PasteWhere(ns, id);
      assert Has(ns, id) && id < st.nextNode && !Has(xs, id);
      PlacedBeside(ns, id, xs, w);
      if w == Inside { PlacedInside(ns, id, xs); }
      PlacedOnly(ns, id, xs, w);
    }
  }

  // ---------------------------------------------------------------- to the start and to the end

  /** The parameter leads, or ends, its own list, whose others keep their order; everything else is
      where it was. */
  lemma EdgePlacing(st: State, k: nat, top: bool)
    requires Consistent(st) && Has(st.rows, k)
    ensures var id, ns := NodeOf(st.rows, k), st.params;
      var ns', others := Next(st, if top then Top(k) else Bottom(k)).params, Without(Siblings(ns, id), id);
      && Find(ns, id).Some? && Without(ns', id) == Without(ns, id)
      && Siblings(ns', id) == if top then [Find(ns, id).value] + others else others + [Find(ns, id).value]
  {
    hide Siblings, Mirrors, Bare;
    var id, ns, w := NodeOf(st.rows, k), st.params, if top then Before else After;
    RowPaired(st.rows, ns, st.nextRow, st.nextNode, k);
    MoveOnlyThat(ns, id, Edge(ns, id, w), w);
    if Edge(ns, id, w) != id { ToEdgeExactly(ns, id, w); } else { AlreadyThere(ns, id, w); }
  }

  lemma AlreadyThere<T>(ts: seq<Tree<T>>, k: nat, w: Where)
    requires Distinct(ts) && Has(ts, k) && w != Inside && Edge(ts, k, w) == k && Find(ts, k).Some?
    ensures var t, others := Find(ts, k).value, Without(Siblings(ts, k), k);
      Siblings(ts, k) == if w == Before then [t] + others else others + [t]
  {
    hide Siblings, Without, Find;
    var s := Siblings(ts, k);
    SiblingsThere(ts, k);
    SiblingsCount(ts, k, k);
    TopCounted(s, k);
    assert Count(ts, k) <= 1 && Count(s, k) == 1;
    var i := if w == Before then 0 else |s| - 1;
    var a, t, b := s[..i], s[i], s[i + 1..];
    assert s == a + ([t] + b);
    CountsAmong(a, t, b);
    FoundInList(ts, k, i);
    NotThere(a, k, [], After);
    NotThere(b, k, [], After);
    WithoutConcat(a, [t] + b, k);
    WithoutConcat([t], b, k);
    AloneGone(t);
    assert Without(s, k) == a + b;
  }

  /** What is found under a name is what its list holds. */
  lemma {:induction false} FoundInList<T>(ts: seq<Tree<T>>, k: nat, i: nat)
    requires Count(ts, k) == 1 && i < |Siblings(ts, k)| && Siblings(ts, k)[i].name == k
    ensures Find(ts, k) == Some(Siblings(ts, k)[i])
    decreases ts, 1
  {
    if IsTop(ts, k) { FoundOnTop(ts, k, i); } else { FoundBelow(ts, k, i); }
  }

  lemma {:induction false} FoundOnTop<T>(ts: seq<Tree<T>>, k: nat, i: nat)
    requires Count(ts, k) == 1 && i < |ts| && ts[i].name == k
    ensures Find(ts, k) == Some(ts[i])
  {
    if i > 0 {
      TopAt(ts[1..], k);
      assert ts[1..][i - 1].name == k;
      TopCounted(ts[1..], k);
      FindThere(ts[0].kids, k);
      FoundOnTop(ts[1..], k, i - 1);
    }
  }

  lemma {:induction false} FoundBelow<T>(ts: seq<Tree<T>>, k: nat, i: nat)
    requires Count(ts, k) == 1 && !IsTop(ts, k) && i < |SiblingsBelow(ts, k)| && SiblingsBelow(ts, k)[i].name == k
    ensures Find(ts, k) == Some(SiblingsBelow(ts, k)[i])
    decreases ts, 0
  {
    var t := ts[0];
    SiblingsThere(t.kids, k);
    FindThere(t.kids, k);
    if Has(t.kids, k) { FoundInList(t.kids, k, i); } else { FoundBelow(ts[1..], k, i); }
  }

  // ---------------------------------------------------------------- dragging

  /** A drop is refused exactly when a group would come into a group. Otherwise, unless a parameter is
      dropped on itself, it leaves its place and comes last in the target when dropped into a group,
      right after it when dropped after it, and right before it else; what is below it goes with it and
      everything else is where it was. */
  lemma DragPlaced(st: State, k: nat, p: nat, drop: Drop)
    requires Consistent(st) && Has(st.rows, k) && Has(st.rows, p)
    ensures var id, q, ns := NodeOf(st.rows, k), NodeOf(st.rows, p), st.params;
      var ns', into := Next(st, Drag(k, p, drop)).params, (drop.IntoOrBefore? || drop.IntoOrAfter?) && IsGroup(ns, q);
      && Find(ns, id).Some?
      && if id == q || (IsGroup(ns, id) && (Parent(ns, q).Some? || into)) then ns' == ns else
         var t, rest := Find(ns, id).value, Without(ns, id);
         && Without(ns', id) == rest
         && if into then LastIn(rest, ns', q, [t])
            else if drop.DropAfter? then RightAfter(rest, ns', q, [t]) else RightBefore(rest, ns', q, [t])
  {
    hide RightAfter, RightBefore, LastIn, Place, Parent, Mirrors, Find, Without, Count, Remake;
    var id, q, ns := NodeOf(st.rows, k), NodeOf(st.rows, p), st.params;
    RowPaired(st.rows, ns, st.nextRow, st.nextNode, k);
    RowPaired(st.rows, ns, st.nextRow, st.nextNode, p);
    if id != q && CanReorder(ns, id, q, drop) {
      var w, t, rest := DropWhere(ns, q, drop), Find(ns, id).value, Without(ns, id);
      PositionStays(ns, id, q, drop);
      WithoutCount(ns, id, q);
      MoveOnlyThat(ns, id, q, w);
      PlacedBeside(rest, q, [t], w);
      if w == Inside { PlacedInside(rest, q, [t]); }
    }
  }

  // ---------------------------------------------------------------- removing and copying

  /** `n` is the node `k` or one below it. */
  predicate Under<T>(ts: seq<Tree<T>>, k: nat, n: nat) {
    Find(ts, k).Some? && Has([Find(ts, k).value], n)
  }

  lemma WithoutUnder<T>(ts: seq<Tree<T>>, k: nat, n: nat)
    requires Distinct(ts) && Has(ts, k)
    ensures Has(Without(ts, k), n) <==> Has(ts, n) && !Under(ts, k, n)
    ensures Under(ts, k, n) ==> Has(ts, n)
  {
    assert Count(ts, k) <= 1 && Count(ts, n) <= 1;
    WithoutCount(ts, k, n);
  }

  /** Among the nodes that are left, what is under what stays. */
  lemma {:induction false} UnderLeft<T>(ts: seq<Tree<T>>, j: nat, k: nat, n: nat)
    requires Count(ts, k) <= 1 && Count(ts, n) <= 1 && Has(Without(ts, j), k) && Has(Without(ts, j), n)
    ensures Under(Without(ts, j), k, n) <==> Under(ts, k, n)
    decreases ts
  {
    var t := ts[0];
    var rest, below := Without(ts[1..], j), Without(t.kids, j);
    WithoutFewer(t.kids, j, k);
    WithoutFewer(t.kids, j, n);
    WithoutFewer(ts[1..], j, k);
    WithoutFewer(ts[1..], j, n);
    FindThere(t.kids, k);
    FindThere(ts[1..], k);
    FindThere(below, k);
    FindThere(rest, k);
    ConsParts(t, []);
    ConsParts(t.(kids := below), rest);
    ConsParts(t.(kids := below), []);
    if t.name == j {
      JustRest(ts, j, k);
      UnderLeft(ts[1..], j, k, n);
    } else if t.name != k {
      if Has(below, k) {
        UnderBelow(t.kids, j, k, n);
        if Has(below, n) { UnderLeft(t.kids, j, k, n); }
      } else {
        UnderBelow(ts[1..], j, k, n);
        if Has(rest, n) { UnderLeft(ts[1..], j, k, n); }
      }
    }
  }

  lemma JustRest<T>(ts: seq<Tree<T>>, j: nat, k: nat)
    requires |ts| != 0 && ts[0].name == j && Has(Without(ts, j), k) && Count(ts, k) <= 1
    ensures Find(ts, k) == Find(ts[1..], k)
  {
    WithoutFewer(ts[1..], j, k);
    FindThere(ts[0].kids, k);
  }

  /** A node that is not in a list is under nothing in it. */
  lemma UnderBelow<T>(ts: seq<Tree<T>>, j: nat, k: nat, n: nat)
    ensures Under(ts, k, n) ==> Has(ts, n)
    ensures Under(Without(ts, j), k, n) ==> Has(Without(ts, j), n)
  {
    if Under(ts, k, n) { UnderThere(ts, k, n); }
    if Under(Without(ts, j), k, n) { UnderThere(Without(ts, j), k, n); }
  }

  lemma {:induction false} WithoutFewer<T>(ts: seq<Tree<T>>, j: nat, n: nat)
    ensures Count(Without(ts, j), n) <= Count(ts, n)
    decreases ts
  {
    if |ts| != 0 {
      WithoutFewer(ts[0].kids, j, n);
      WithoutFewer(ts[1..], j, n);
      ConsParts(ts[0].(kids := Without(ts[0].kids, j)), Without(ts[1..], j));
    }
  }

  lemma {:induction false} SubtreeInside<T>(ts: seq<Tree<T>>, k: nat, n: nat, m: nat)
    requires Count(ts, n) <= 1 && Under(ts, k, n) && Under(ts, n, m)
    ensures Under(ts, k, m)
    decreases ts
  {
    var t := ts[0];
    ConsParts(t, []);
    FindThere(t.kids, k);
    FindThere(t.kids, n);
    FindThere(ts[1..], k);
    FindThere(ts[1..], n);
    if t.name == k {
      if t.name != n {
        assert Count([t], n) == Count(t.kids, n);
        FindCounts(t.kids, n, m);
        assert Count([t], m) >= Count(t.kids, m);
      }
    } else if Find(t.kids, k).Some? {
      UnderThere(t.kids, k, n);
      SubtreeInside(t.kids, k, n, m);
    } else {
      UnderThere(ts[1..], k, n);
      SubtreeInside(ts[1..], k, n, m);
    }
  }

  lemma {:induction false} FindCounts<T>(ts: seq<Tree<T>>, k: nat, n: nat)
    requires Find(ts, k).Some?
    ensures Count([Find(ts, k).value], n) <= Count(ts, n)
    decreases ts
  {
    ConsParts(ts[0], []);
    if ts[0].name != k {
      if Find(ts[0].kids, k).Some? { FindCounts(ts[0].kids, k, n); } else { FindCounts(ts[1..], k, n); }
    }
  }

  lemma UnderThere<T>(ts: seq<Tree<T>>, k: nat, n: nat)
    requires Under(ts, k, n)
    ensures Has(ts, n)
  {
    FindCounts(ts, k, n);
  }

  lemma {:induction false} UnderKept(st: State, ks: seq<nat>, n: nat, m: nat)
    requires Consistent(st) && Has(RemovedAll(st, ks).rows, n) && Has(RemovedAll(st, ks).rows, m)
    ensures Has(st.rows, n) && Has(st.rows, m)
    ensures Under(RemovedAll(st, ks).rows, n, m) <==> Under(st.rows, n, m)
  {
    if |ks| != 0 {
      var s, k := RemovedAll(st, ks[..|ks| - 1]), ks[|ks| - 1];
      RemovedAllKeeps(st, ks[..|ks| - 1]);
      hide Under, RemovedAll;
      if Has(s.rows, k) {
        WithoutFewer(s.rows, k, n);
        WithoutFewer(s.rows, k, m);
        assert Count(s.rows, n) <= 1 && Count(s.rows, m) <= 1;
        UnderLeft(s.rows, k, n, m);
      }
      UnderKept(st, ks[..|ks| - 1], n, m);
    }
  }

  /** Removing a list of rows leaves exactly what is under none of them. */
  lemma {:induction false} RemovedExactly(st: State, ks: seq<nat>, n: nat)
    requires Consistent(st)
    ensures Has(RemovedAll(st, ks).rows, n) <==>
      Has(st.rows, n) && forall i :: 0 <= i < |ks| ==> !Under(st.rows, ks[i], n)
  {
    if |ks| != 0 {
      var init, k := ks[..|ks| - 1], ks[|ks| - 1];
      var s := RemovedAll(st, init);
      RemovedExactly(st, init, n);
      RemovedExactly(st, init, k);
      RemovedAllKeeps(st, init);
      assert forall i :: 0 <= i < |init| ==> ks[i] == init[i];
      OneRemoved(st, s, init, k, n);
    }
  }

  lemma OneRemoved(st: State, s: State, init: seq<nat>, k: nat, n: nat)
    requires Consistent(st) && Consistent(s) && s == RemovedAll(st, init)
    requires forall x :: x == n || x == k ==>
      (Has(s.rows, x) <==> Has(st.rows, x) && forall i :: 0 <= i < |init| ==> !Under(st.rows, init[i], x))
    ensures Has(Removed(s, k).rows, n) <==> Has(s.rows, n) && !Under(st.rows, k, n)
  {
    hide RemovedAll;
    if Has(s.rows, k) {
      WithoutUnder(s.rows, k, n);
      if Has(s.rows, n) { UnderKept(st, init, k, n); }
    } else if Has(s.rows, n) && Under(st.rows, k, n) {
      FindThere(st.rows, k);
      var i :| 0 <= i < |init| && Under(st.rows, init[i], k);
      assert Count(st.rows, k) <= 1;
      SubtreeInside(st.rows, init[i], k, n);
    }
  }

  /** Which selected rows are removed: those whose parent is not selected, in the order of the selection. */
  lemma {:induction false} ChosenExactly(rs: Rows, a: seq<nat>, k: nat, b: seq<nat>, selected: seq<nat>)
    ensures Chosen(rs, a + ([k] + b), selected) == Chosen(rs, a, selected) +
      (if Parent(rs, k).Some? && Parent(rs, k).value in selected then [] else [k]) + Chosen(rs, b, selected)
    decreases |b|
  {
    if |b| == 0 {
      assert a + ([k] + b) == a + [k] && (a + [k])[..|a|] == a;
    } else {
      var all, init, l := a + ([k] + b), b[..|b| - 1], b[|b| - 1];
      ChosenExactly(rs, a, k, init, selected);
      assert all[..|all| - 1] == a + ([k] + init) && all[|all| - 1] == l;
    }
  }

  lemma {:induction false} ChosenSelected(rs: Rows, ks: seq<nat>, selected: seq<nat>, k: nat)
    ensures k in Chosen(rs, ks, selected) <==>
      k in ks && !(Parent(rs, k).Some? && Parent(rs, k).value in selected)
  {
    if |ks| != 0 {
      ChosenSelected(rs, ks[..|ks| - 1], selected, k);
      assert ks == ks[..|ks| - 1] + [ks[|ks| - 1]];
    }
  }

  /** The parent's list holds the node. */
  lemma {:induction false} ParentHolds<T>(ts: seq<Tree<T>>, k: nat)
    requires Distinct(ts) && Parent(ts, k).Some?
    ensures var p := Parent(ts, k).value;
      && Find(ts, p).Some? && Find(ts, k).Some? && Find(ts, k) == Find(Find(ts, p).value.kids, k)
    decreases ts
  {
    var t, rest := ts[0], ts[1..];
    var p := Parent(ts, k).value;
    assert Count(ts, k) <= 1 && Count(ts, p) <= 1;
    DistinctParts(ts);
    FindThere(t.kids, k);
    FindThere(t.kids, p);
    FindThere(rest, k);
    FindThere(rest, p);
    if IsTop(t.kids, k) {
      TopCounted(t.kids, k);
    } else if Parent(t.kids, k).Some? {
      ParentHolds(t.kids, k);
    } else {
      ParentHolds(rest, k);
    }
  }

  lemma DistinctParts<T>(ts: seq<Tree<T>>)
    requires Distinct(ts) && |ts| != 0
    ensures Distinct(ts[0].kids) && Distinct(ts[1..])
  {
    forall n ensures Count(ts[0].kids, n) <= 1 && Count(ts[1..], n) <= 1 { assert Count(ts, n) <= 1; }
  }

  lemma {:induction false} FindSize<T>(ts: seq<Tree<T>>, k: nat)
    requires Find(ts, k).Some?
    ensures Size([Find(ts, k).value]) <= Size(ts)
    decreases ts
  {
    ConsParts(ts[0], []);
    if ts[0].name != k {
      if Find(ts[0].kids, k).Some? { FindSize(ts[0].kids, k); } else { FindSize(ts[1..], k); }
    }
  }

  lemma ParentAbove<T>(ts: seq<Tree<T>>, k: nat)
    requires Distinct(ts) && Parent(ts, k).Some?
    ensures var p := Parent(ts, k).value;
      && Find(ts, p).Some? && Find(ts, k).Some? && Under(ts, p, k)
      && Size([Find(ts, k).value]) < Size([Find(ts, p).value]) <= Size(ts)
  {
    var p := Parent(ts, k).value;
    ParentHolds(ts, k);
    var t := Find(ts, p).value;
    ConsParts(t, []);
    FindSize(t.kids, k);
    FindSize(ts, p);
    FindThere(t.kids, k);
  }

  /** Above whatever is under a selected row there is a selected row that is removed. */
  lemma {:induction false} TopmostSelected(rs: Rows, ks: seq<nat>, k: nat, n: nat) returns (top: nat)
    requires Distinct(rs) && k in ks && Under(rs, k, n)
    ensures top in Chosen(rs, ks, ks) && Under(rs, top, n)
    decreases Size(rs) - Size([Find(rs, k).value])
  {
    ChosenSelected(rs, ks, ks, k);
    FindSize(rs, k);
    top := k;
    if k !in Chosen(rs, ks, ks) {
      var p := Parent(rs, k).value;
      ParentAbove(rs, k);
      assert Count(rs, k) <= 1;
      SubtreeInside(rs, p, k, n);
      top := TopmostSelected(rs, ks, p, n);
    }
  }

  /** Removing a selection leaves exactly the rows that are neither selected nor below a selected one.
      Cutting does the same. */
  lemma SelectionRemoved(st: State, ks: seq<nat>, cut: bool, n: nat)
    requires Consistent(st) && Possible(st.rows, Remove(ks))
    ensures Has(Next(st, if cut then Cut(ks) else Remove(ks)).rows, n) <==>
      Has(st.rows, n) && forall k :: k in ks ==> !Under(st.rows, k, n)
  {
    hide Under, RemovedAll, Find, Parent;
    var chosen, start := Chosen(st.rows, ks, ks), if cut then Copied(st, ks) else st;
    CopiedKeeps(st, ks);
    RemovedExactly(start, chosen, n);
    if k :| k in ks && Under(st.rows, k, n) {
      var top := TopmostSelected(st.rows, ks, k, n);
      var i :| 0 <= i < |chosen| && chosen[i] == top;
    }
    forall k | k in chosen ensures k in ks { ChosenSelected(st.rows, ks, ks, k); }
  }

  lemma {:induction false} PickedExactly(st: State, ks: seq<nat>, selected: seq<nat>)
    requires Consistent(st) && forall i :: 0 <= i < |ks| ==> Has(st.rows, ks[i])
    ensures var clip, chosen := Picked(st.rows, st.params, ks, selected), Chosen(st.rows, ks, selected);
      |clip| == |chosen| && forall i :: 0 <= i < |clip| ==>
        Some(clip[i]) == Find(st.params, NodeOf(st.rows, chosen[i]))
  {
    if |ks| != 0 {
      PickedExactly(st, ks[..|ks| - 1], selected);
      RowPaired(st.rows, st.params, st.nextRow, st.nextNode, ks[|ks| - 1]);
    }
  }

  /** What is copied, and cut: the parameters of the rows that would be removed, each with what is below
      it, in the order of the selection. Copying leaves the document as it is. */
  lemma CopiedExactly(st: State, ks: seq<nat>, cut: bool)
    requires Consistent(st) && Possible(st.rows, Copy(ks))
    ensures var st', chosen := Next(st, if cut then Cut(ks) else Copy(ks)), Chosen(st.rows, ks, ks);
      && |st'.clipboard| == |chosen|
      && (forall i :: 0 <= i < |chosen| ==> Some(st'.clipboard[i]) == Find(st.params, NodeOf(st.rows, chosen[i])))
      && (!cut ==> st'.params == st.params && st'.rows == st.rows)
  {
    hide Chosen, Picked, RemovedAll;
    PickedExactly(st, ks, ks);
    CopiedKeeps(st, ks);
    RemovedAllKeeps(Copied(st, ks), Chosen(st.rows, ks, ks));
  }
}
