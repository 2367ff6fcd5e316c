/**
 The parameter editor (debr/debr-parameter.c): what its events do to the document, the rows and the
 clipboard, what whole runs keep, and the editor that does it in place.
 */
module Editor {
  import opened Strings
  import opened Trees
  import opened Mirror

  // ---------------------------------------------------------------- what each event does

  datatype Event =
    | New(at: Option<nat>, group: bool)
    | Remove(selected: seq<nat>)
    | Top(row: nat)
    | Bottom(row: nat)
    | Copy(selected: seq<nat>)
    | Cut(selected: seq<nat>)
    | Paste(at: Option<nat>)
    | Drag(row: nat, position: nat, drop: Drop)

  /** The document, the rows, the clipboard, and the names not used yet. */
  datatype State = State(params: Nodes, rows: Rows, clipboard: Nodes, nextNode: nat, nextRow: nat)

  /** The rows an event names are there. */
  predicate Possible(rs: Rows, e: Event) {
    match e
    case New(at, _) => at.Some? ==> Has(rs, at.value)
    case Paste(at) => at.Some? ==> Has(rs, at.value)
    case Drag(k, p, _) => Has(rs, k) && Has(rs, p)
    case Remove(ks) => forall i :: 0 <= i < |ks| ==> Has(rs, ks[i])
    case Copy(ks) => forall i :: 0 <= i < |ks| ==> Has(rs, ks[i])
    case Cut(ks) => forall i :: 0 <= i < |ks| ==> Has(rs, ks[i])
    case _ => Has(rs, e.row)
  }

  function Created(st: State, at: Option<nat>, group: bool): State {
    var x, r := Tree(st.nextNode, group, []), Tree(st.nextRow, st.nextNode, []);
    var next := st.(nextNode := st.nextNode + 1, nextRow := st.nextRow + 1);
    match at
    case None => next.(params := st.params + [x], rows := st.rows + [r])
    case Some(k) =>
      var (q, w) := NewSpot(st.params, NodeOf(st.rows, k), group);
      var up := Parent(st.rows, k);
      next.(params := Place(st.params, q, [x], w),
            rows := Place(st.rows, if group && up.Some? then up.value else k, [r], w))
  }

  /** A row and its parameter, with what is below them. */
  function Removed(st: State, k: nat): State {
    if Has(st.rows, k) then
      st.(params := Without(st.params, NodeOf(st.rows, k)), rows := Without(st.rows, k))
    else st
  }

  /** The selected rows whose parent is not selected too. */
  function Chosen(rs: Rows, ks: seq<nat>, selected: seq<nat>): seq<nat> {
    if |ks| == 0 then [] else
      var k, up := ks[|ks| - 1], Parent(rs, ks[|ks| - 1]);
      Chosen(rs, ks[..|ks| - 1], selected) + if up.Some? && up.value in selected then [] else [k]
  }

  function RemovedAll(st: State, ks: seq<nat>): State {
    if |ks| == 0 then st else Removed(RemovedAll(st, ks[..|ks| - 1]), ks[|ks| - 1])
  }

  function Copied(st: State, ks: seq<nat>): State {
    st.(clipboard := Picked(st.rows, st.params, ks, ks))
  }

  function Edged(st: State, k: nat, w: Where): State {
    st.(params := ToEdge(st.params, NodeOf(st.rows, k), w), rows := ToEdge(st.rows, k, w))
  }

  function Pasting(st: State, at: Option<nat>): State {
    var clones := Clone(st.clipboard, st.nextNode);
    var target, loaded := Target(st.rows, at), Load(clones, st.nextRow);
    if |st.clipboard| == 0 then st
    else if Rejects(st.params, target, st.clipboard) then st.(nextNode := st.nextNode + Size(st.clipboard))
    else
      st.(params := Pasted(st.params, target, clones),
          rows := if at.None? then st.rows + loaded
                  else Place(st.rows, at.value, loaded, PasteWhere(st.params, target.value)),
          nextNode := st.nextNode + Size(st.clipboard), nextRow := st.nextRow + Size(clones))
  }

  function Dragged(st: State, k: nat, p: nat, drop: Drop): State {
    var id, q := NodeOf(st.rows, k), NodeOf(st.rows, p);
    var w := DropWhere(st.params, q, drop);
    if !CanReorder(st.params, id, q, drop) then st
    else if w != Inside && Parent(st.rows, k) == Parent(st.rows, p) then
      st.(params := Move(st.params, id, q, w), rows := Move(st.rows, k, p, w))
    else
      st.(params := Move(st.params, id, q, w),
          rows := Remake(st.rows, k, id, p, w, st.nextRow), nextRow := st.nextRow + 1)
  }

  /** What an event does to all of it; an event that names no row of the view cannot happen. */
  function Next(st: State, e: Event): State {
    if !Possible(st.rows, e) then st else
      match e
      case New(at, group) => Created(st, at, group)
      case Remove(ks) => RemovedAll(st, Chosen(st.rows, ks, ks))
      case Top(k) => Edged(st, k, Before)
      case Bottom(k) => Edged(st, k, After)
      case Copy(ks) => Copied(st, ks)
      case Cut(ks) => RemovedAll(Copied(st, ks), Chosen(st.rows, ks, ks))
      case Paste(at) => Pasting(st, at)
      case Drag(k, p, drop) => Dragged(st, k, p, drop)
  }

  function NextAll(st: State, es: seq<Event>): State {
    if |es| == 0 then st else Next(NextAll(st, es[..|es| - 1]), es[|es| - 1])
  }

  // ---------------------------------------------------------------- what each event keeps

  /** What every event keeps: the rows show the parameters, all of them, in order. */
  ghost predicate Consistent(st: State) {
    Good(st.rows, st.params, st.nextRow, st.nextNode) && Bare(st.clipboard)
  }

  /** No group sits inside a group. */
  predicate Flat(st: State) {
    NoNest(st.params, false) && NoNest(st.clipboard, false)
  }

  lemma CreatedKeeps(st: State, at: Option<nat>, group: bool)
    requires Consistent(st) && (at.Some? ==> Has(st.rows, at.value))
    ensures Consistent(Created(st, at, group)) && (Flat(st) ==> Flat(Created(st, at, group)))
  {
    var x, r := Tree(st.nextNode, group, []), Tree(st.nextRow, st.nextNode, []);
    OneFresh(st.nextNode, group);
    OneFresh(st.nextRow, st.nextNode);
    MirrorsOne(r, x);
    ConsParts(x, []);
    if at.None? {
      GoodAppend(st.rows, st.params, st.nextRow, st.nextNode, [r], [x], st.nextRow + 1, st.nextNode + 1);
      NoNestConcat(st.params, [x], false);
    } else {
      RowPaired(st.rows, st.params, st.nextRow, st.nextNode, at.value);
      NewKeeps(st.rows, st.params, st.nextRow, st.nextNode, at.value, NodeOf(st.rows, at.value), group);
    }
  }

  lemma RemovedKeeps(st: State, k: nat)
    requires Consistent(st)
    ensures Consistent(Removed(st, k)) && (Flat(st) ==> Flat(Removed(st, k)))
  {
    if Has(st.rows, k) {
      RowPaired(st.rows, st.params, st.nextRow, st.nextNode, k);
      GoodWithout(st.rows, st.params, st.nextRow, st.nextNode, k, NodeOf(st.rows, k));
      if Flat(st) { NoNestWithout(st.params, NodeOf(st.rows, k), false); }
    }
  }

  lemma {:induction false} RemovedAllKeeps(st: State, ks: seq<nat>)
    requires Consistent(st)
    ensures Consistent(RemovedAll(st, ks)) && (Flat(st) ==> Flat(RemovedAll(st, ks)))
    ensures RemovedAll(st, ks).clipboard == st.clipboard
  {
    if |ks| != 0 {
      RemovedAllKeeps(st, ks[..|ks| - 1]);
      RemovedKeeps(RemovedAll(st, ks[..|ks| - 1]), ks[|ks| - 1]);
    }
  }

  lemma CopiedKeeps(st: State, ks: seq<nat>)
    requires Consistent(st)
    ensures Consistent(Copied(st, ks)) && (Flat(st) ==> Flat(Copied(st, ks))) && |Copied(st, ks).clipboard| <= |ks|
  {
    PickedKeeps(st.rows, st.params, ks, ks);
  }

  lemma EdgedKeeps(st: State, k: nat, w: Where)
    requires Consistent(st) && Has(st.rows, k) && w != Inside
    ensures Consistent(Edged(st, k, w)) && (Flat(st) ==> Flat(Edged(st, k, w)))
  {
    var id, e, f := NodeOf(st.rows, k), Edge(st.rows, k, w), Edge(st.params, NodeOf(st.rows, k), w);
    RowPaired(st.rows, st.params, st.nextRow, st.nextNode, k);
    EdgeMirrors(st.rows, st.params, k, id, w);
    EdgeThere(st.params, id, w);
    PairedPoints(st.rows, st.params, k, id, e, f);
    GoodMove(st.rows, st.params, st.nextRow, st.nextNode, k, id, e, f, w);
    if Flat(st) { NoNestToEdge(st.params, id, w); }
  }

  /** Pasting keeps the trees alike, leaves both alone when it is rejected, and nests groups exactly
      when it puts any into a group. */
  lemma PastingKeeps(st: State, at: Option<nat>)
    requires Consistent(st) && (at.Some? ==> Has(st.rows, at.value))
    ensures Consistent(Pasting(st, at))
    ensures Flat(st) ==> (Flat(Pasting(st, at)) <==> !Nesting(st.params, Target(st.rows, at), st.clipboard))
  {
    var clones, target := Clone(st.clipboard, st.nextNode), Target(st.rows, at);
    CloneKeeps(st.clipboard, st.nextNode);
    CloneSize(st.clipboard, st.nextNode, KIND_OF);
    LoadKeeps(clones, st.nextRow);
    if at.Some? { RowPaired(st.rows, st.params, st.nextRow, st.nextNode, at.value); }
    if |st.clipboard| != 0 && !Rejects(st.params, target, st.clipboard) {
      var m, n := st.nextRow + Size(clones), st.nextNode + Size(st.clipboard);
      var loaded := Load(clones, st.nextRow);
      if at.None? {
        GoodAppend(st.rows, st.params, st.nextRow, st.nextNode, loaded, clones, m, n);
      } else {
        GoodPlace(st.rows, st.params, st.nextRow, st.nextNode, at.value, target.value, loaded, clones,
          PasteWhere(st.params, target.value), m, n);
      }
      if Flat(st) {
        PasteNests(st.params, target, clones);
        SameKinds(clones, st.clipboard);
      }
    }
  }

  lemma SameKinds(a: Nodes, b: Nodes)
    requires |a| == |b| && forall i :: 0 <= i < |a| ==> a[i].data == b[i].data
    ensures NoGroups(a) <==> NoGroups(b)
  {
  }

  lemma {:induction false} CloneSize<T>(ns: Nodes, m: nat, f: Tree<bool> -> T)
    ensures Size(Number(ns, m, f)) == Size(ns)
    decreases ns
  {
    if |ns| != 0 {
      CloneSize(ns[0].kids, m + 1, f);
      CloneSize(ns[1..], m + 1 + Size(ns[0].kids), f);
    }
  }

  /** Dragging keeps the trees alike exactly when the row keeps its list or has nothing below it, or
      may not be dropped there; so always where no groups are nested. */
  lemma DraggedKeeps(st: State, k: nat, p: nat, drop: Drop)
    requires Consistent(st) && Has(st.rows, k) && Has(st.rows, p)
    ensures var id, q := NodeOf(st.rows, k), NodeOf(st.rows, p);
      Consistent(Dragged(st, k, p, drop)) <==>
      !CanReorder(st.params, id, q, drop) || Parent(st.rows, k) == Parent(st.rows, p) || NothingBelow(st.params, id)
    ensures Flat(st) ==> Consistent(Dragged(st, k, p, drop)) && Flat(Dragged(st, k, p, drop))
  {
    var id, q := NodeOf(st.rows, k), NodeOf(st.rows, p);
    var w := DropWhere(st.params, q, drop);
    RowPaired(st.rows, st.params, st.nextRow, st.nextNode, k);
    RowPaired(st.rows, st.params, st.nextRow, st.nextNode, p);
    if CanReorder(st.params, id, q, drop) {
      PairedPoints(st.rows, st.params, k, id, p, q);
      if id != q { PositionStays(st.params, id, q, drop); }
      LeafBelow(st.params, id);
      if w != Inside && Parent(st.rows, k) == Parent(st.rows, p) {
        GoodMove(st.rows, st.params, st.nextRow, st.nextNode, k, id, p, q, w);
      } else {
        GoodRemake(st.rows, st.params, st.nextRow, st.nextNode, k, id, p, q, w);
      }
      if Flat(st) {
        DragNestsNothing(st.params, id, q, drop);
        DragIsSafe(st.rows, st.params, k, id, p, q, drop);
      }
    }
  }

  /** A paste goes into a group, its first parameter is no group, and a later one is. */
  predicate Nesting(ns: Nodes, target: Option<nat>, clip: Nodes) {
    target.Some? && Enclosing(ns, target.value) && |clip| != 0 && !clip[0].data && !NoGroups(clip)
  }

  predicate NestsGroups(st: State, e: Event) {
    e.Paste? && Possible(st.rows, e) && Nesting(st.params, Target(st.rows, e.at), st.clipboard)
  }

  /** Where no groups are nested, every event keeps the trees alike, and only a paste can nest groups,
      which it does exactly when it is such a one. */
  lemma NextKeeps(st: State, e: Event)
    requires Consistent(st) && Flat(st)
    ensures Consistent(Next(st, e)) && (Flat(Next(st, e)) <==> !NestsGroups(st, e))
  {
    hide Consistent, Flat;
    if Possible(st.rows, e) {
      match e
      case New(at, group) => CreatedKeeps(st, at, group);
      case Remove(ks) => RemovedAllKeeps(st, Chosen(st.rows, ks, ks));
      case Top(k) => EdgedKeeps(st, k, Before);
      case Bottom(k) => EdgedKeeps(st, k, After);
      case Copy(ks) => CopiedKeeps(st, ks);
      case Cut(ks) =>
        CopiedKeeps(st, ks);
        RemovedAllKeeps(Copied(st, ks), Chosen(st.rows, ks, ks));
      case Paste(at) => PastingKeeps(st, at);
      case Drag(k, p, drop) => DraggedKeeps(st, k, p, drop);
    }
  }

  /** None of the events nests groups when its turn comes. */
  predicate Harmless(st: State, es: seq<Event>) {
    |es| == 0 || (Harmless(st, es[..|es| - 1]) && !NestsGroups(NextAll(st, es[..|es| - 1]), es[|es| - 1]))
  }

  /** In every run up to its first nesting paste the rows stay identical in shape and order to the
      document, and no group sits inside a group. */
  lemma {:induction false} RunKeeps(st: State, es: seq<Event>)
    requires Consistent(st) && Flat(st) && Harmless(st, es)
    ensures Consistent(NextAll(st, es)) && Flat(NextAll(st, es))
  {
    if |es| != 0 {
      RunKeeps(st, es[..|es| - 1]);
      NextKeeps(NextAll(st, es[..|es| - 1]), es[|es| - 1]);
    }
  }

  /** At most one row is selected. */
  predicate Single(e: Event) {
    match e case Copy(ks) => |ks| <= 1 case Cut(ks) => |ks| <= 1 case _ => true
  }

  /** With one row selected at a time no run ever nests groups. */
  lemma {:induction false} SingleIsHarmless(st: State, es: seq<Event>)
    requires Consistent(st) && Flat(st) && |st.clipboard| <= 1 && forall i :: 0 <= i < |es| ==> Single(es[i])
    ensures Harmless(st, es) && |NextAll(st, es).clipboard| <= 1
  {
    if |es| != 0 {
      var before, e := NextAll(st, es[..|es| - 1]), es[|es| - 1];
      SingleIsHarmless(st, es[..|es| - 1]);
      RunKeeps(st, es[..|es| - 1]);
      assert Single(e);
      if e.Copy? || e.Cut? {
        CopiedKeeps(before, e.selected);
        RemovedAllKeeps(Copied(before, e.selected), Chosen(before.rows, e.selected, e.selected));
      }
      if e.Remove? { RemovedAllKeeps(before, Chosen(before.rows, e.selected, e.selected)); }
    }
  }

  // ---------------------------------------------------------------- the editor

  class ParameterEditor {
    var params: Nodes
    var rows: Rows
    var clipboard: Nodes
    var nextNode: nat
    var nextRow: nat

    function View(): State
      reads this
    {
      State(params, rows, clipboard, nextNode, nextRow)
    }

    ghost predicate Valid()
      reads this
    {
      Consistent(View()) && Flat(View())
    }

    /** Loading a program. */
    constructor (ns: Nodes, clip: Nodes, next: nat)
      requires Distinct(ns) && Below(ns, next) && Bare(ns) && Bare(clip)
      ensures Consistent(View()) && View() == State(ns, Load(ns, 0), clip, next, Size(ns))
    {
      LoadKeeps(ns, 0);
      params, rows, clipboard := ns, Load(ns, 0), clip;
      nextNode, nextRow := next, Size(ns);
    }

    method New(at: Option<nat>, group: bool)
      requires Consistent(View()) && (at.Some? ==> Has(rows, at.value))
      modifies this
      ensures View() == Created(old(View()), at, group)
    {
      hide Place, Move, Parent, Find, Mirrors, Paired, Points, Bare;
      var x, r := Tree(nextNode, group, []), Tree(nextRow, nextNode, []);
      ghost var rs, ns := rows, params;
      if at.None? {
        params, rows := params + [x], rows + [r];
      } else {
        var k := at.value;
        var id := NodeOf(rows, k);
        RowPaired(rs, ns, nextRow, nextNode, k);
        ParentMirrors(rs, ns, k, id);
        assert !Has(ns, x.name);
        NewPlacedAnyway(ns, x, id);
        if IsGroup(params, id) || InGroup(params, id) {
          var up := Parent(rows, k);
          var parent := if up.Some? then up.value else k;
          var pid := NodeOf(rows, parent);
          if up.Some? {
            PointsCount(rs, parent, Parent(ns, id).value);
            PointsFind(rs, parent, Parent(ns, id).value);
            ParentIsGroup(ns, id);
            NewPlacedAnyway(ns, x, pid);
          }
          if group {
            params, rows := Move(params + [x], x.name, pid, After), Place(rows, parent, [r], After);
          } else if InGroup(params, id) {
            PlaceThenMove(ns, pid, x, Inside, id, After);
            params, rows := Move(Place(params, pid, [x], Inside), x.name, id, After), Place(rows, k, [r], After);
          } else {
            params, rows := Place(params, pid, [x], Inside), Place(rows, parent, [r], Inside);
          }
        } else {
          params, rows := Move(params + [x], x.name, id, After), Place(rows, k, [r], After);
        }
      }
      nextNode, nextRow := nextNode + 1, nextRow + 1;
    }

    /** Selected rows below selected ones are dropped from the selection, the others removed. */
    method Remove(selected: seq<nat>)
      modifies this
      ensures View() == RemovedAll(old(View()), Chosen(old(rows), selected, selected))
    {
      var chosen := Choose(selected);
      ghost var start := View();
      for i := 0 to |chosen|
        invariant View() == RemovedAll(start, chosen[..i])
      {
        assert chosen[..i + 1][..i] == chosen[..i] && chosen[..i + 1][i] == chosen[i];
        var k := chosen[i];
        if Has(rows, k) {
          params := Without(params, NodeOf(rows, k));
          rows := Without(rows, k);
        }
      }
      assert chosen[..|chosen|] == chosen;
    }

    method Choose(selected: seq<nat>) returns (chosen: seq<nat>)
      ensures chosen == Chosen(rows, selected, selected)
    {
      chosen := [];
      for i := 0 to |selected|
        invariant chosen == Chosen(rows, selected[..i], selected)
      {
        assert selected[..i + 1][..i] == selected[..i] && selected[..i + 1][i] == selected[i];
        var up := Parent(rows, selected[i]);
        if !(up.Some? && up.value in selected) { chosen := chosen + [selected[i]]; }
      }
      assert selected[..|selected|] == selected;
    }

    /** To the start (Before) or the end (After) of its own list. */
    method ToTheEdge(k: nat, w: Where)
      modifies this
      ensures View() == Edged(old(View()), k, w)
    {
      var id := NodeOf(rows, k);
      params := Move(params, id, Edge(params, id, w), w);
      rows := Move(rows, k, Edge(rows, k, w), w);
    }

    method Copy(selected: seq<nat>)
      modifies this`clipboard
      ensures View() == Copied(old(View()), selected)
    {
      clipboard := [];
      for i := 0 to |selected|
        invariant clipboard == Picked(rows, params, selected[..i], selected)
      {
        var k := selected[i];
        assert selected[..i + 1][..i] == selected[..i] && selected[..i + 1][i] == k;
        var up := Parent(rows, k);
        if !(up.Some? && up.value in selected) {
          var t := Find(params, NodeOf(rows, k));
          if t.Some? { clipboard := clipboard + [t.value]; }
        }
      }
      assert selected[..|selected|] == selected;
    }

    method Cut(selected: seq<nat>)
      modifies this
      ensures View() == RemovedAll(Copied(old(View()), selected), Chosen(old(rows), selected, selected))
    {
      Copy(selected);
      Remove(selected);
    }

    /** Pastes copies of the clipboard, or leaves both trees as they were. */
    method Paste(at: Option<nat>) returns (pasted: bool)
      requires Consistent(View()) && (at.Some? ==> Has(rows, at.value))
      modifies this
      ensures View() == Pasting(old(View()), at)
      ensures pasted <==> !Rejects(old(params), Target(old(rows), at), clipboard)
      ensures !pasted ==> params == old(params) && rows == old(rows)
    {
      if |clipboard| == 0 { return false; }
      var clones := Clone(clipboard, nextNode);
      var target := Target(rows, at);
      var base := params;
      ghost var n := nextNode;
      CloneKeeps(clipboard, nextNode);
      if at.Some? { RowPaired(rows, params, nextRow, nextNode, at.value); }
      var enclosing := at.Some? && Enclosing(params, target.value);
      params, nextNode := params + clones, nextNode + Size(clipboard);
      if enclosing && clones[0].data {
        TakeBack(base, n, clones);
        return false;
      }
      if at.None? {
        ShowLast(clones);
      } else {
        Distribute(at.value, target.value, PasteWhere(base, target.value), base, n, clones);
      }
      return true;
    }

    /** The pasted parameters go again, one by one. */
    method TakeBack(ghost base: Nodes, ghost n: nat, clones: Nodes)
      requires params == base + clones && Below(base, n) && Fresh(clones, n, nextNode)
      modifies this`params
      ensures params == base
    {
      for i := 0 to |clones|
        invariant params == base + clones[i..]
      {
        TakeBackStep(base, n, nextNode, clones, i);
        params := Without(params, clones[i].name);
      }
      assert base + clones[|clones|..] == base;
    }

    /** Nothing is selected: the pasted parameters stay at the end, and get their rows. */
    method ShowLast(clones: Nodes)
      modifies this`rows, this`nextRow
      ensures rows == old(rows) + Load(clones, old(nextRow)) && nextRow == old(nextRow) + Size(clones)
    {
      ghost var rs, m := rows, nextRow;
      for i := 0 to |clones|
        invariant rows == rs + Load(clones[..i], m) && nextRow == m + Size(clones[..i])
      {
        LoadMore(clones, i, m);
        var row := Load([clones[i]], nextRow);
        assert rows + row == rs + (Load(clones[..i], m) + row);
        rows, nextRow := rows + row, nextRow + Size([clones[i]]);
      }
      assert clones[..|clones|] == clones;
    }

    /** Each in turn goes after the one before, from the selected one on, or into the selected group. */
    method Distribute(k: nat, id: nat, w: Where, ghost base: Nodes, ghost n: nat, clones: Nodes)
      requires params == base + clones && Good(rows, base, nextRow, n) && Fresh(clones, n, nextNode)
      requires Points(rows, k, id) && w != Before
      modifies this`params, this`rows, this`nextRow
      ensures params == Place(base, id, clones, w)
      ensures rows == Place(old(rows), k, Load(clones, old(nextRow)), w) && nextRow == old(nextRow) + Size(clones)
    {
      hide Halfway, Good, Fresh, Points, Place, Move;
      var cursorRow, cursorNode := k, id;
      ghost var rs, m := rows, nextRow;
      HalfwayStart(rs, m, base, k, id, clones, w);
      for i := 0 to |clones|
        invariant Halfway(rs, m, base, k, id, clones, w, i, rows, params) && nextRow == m + Size(clones[..i])
        invariant cursorNode == Cursor(id, clones[..i], w) && cursorRow == Cursor(k, Load(clones[..i], m), w)
      {
        HalfwayStep(rs, m, base, n, nextNode, k, id, clones, w, i, rows, params);
        var row := Load([clones[i]], nextRow);
        params := Move(params, clones[i].name, cursorNode, w);
        rows := Place(rows, cursorRow, row, w);
        nextRow := nextRow + Size([clones[i]]);
        if w == After { cursorRow, cursorNode := row[0].name, clones[i].name; }
      }
      HalfwayEnd(rs, m, base, k, id, clones, w, rows, params);
    }

    /** Dropping a row on or beside another. In another list the row is made anew and the old one is
        removed. */
    method Drag(k: nat, p: nat, drop: Drop) returns (moved: bool)
      modifies this
      ensures View() == Dragged(old(View()), k, p, drop)
      ensures moved == CanReorder(old(params), NodeOf(old(rows), k), NodeOf(old(rows), p), drop)
    {
      var id, q := NodeOf(rows, k), NodeOf(rows, p);
      if !CanReorder(params, id, q, drop) { return false; }
      var w := DropWhere(params, q, drop);
      if w != Inside && Parent(rows, k) == Parent(rows, p) {
        params, rows := Move(params, id, q, w), Move(rows, k, p, w);
      } else {
        params, rows := Move(params, id, q, w), Remake(rows, k, id, p, w, nextRow);
        nextRow := nextRow + 1;
      }
      return true;
    }

    method Step(e: Event)
      requires Consistent(View())
      modifies this
      ensures View() == Next(old(View()), e)
    {
      if !Possible(rows, e) { return; }
      match e
      case New(at, group) => New(at, group);
      case Remove(ks) => Remove(ks);
      case Top(k) => ToTheEdge(k, Before);
      case Bottom(k) => ToTheEdge(k, After);
      case Copy(ks) => Copy(ks);
      case Cut(ks) => Cut(ks);
      case Paste(at) => var _ := Paste(at);
      case Drag(k, p, drop) => var _ := Drag(k, p, drop);
    }

    /** A whole run of events, up to the first paste that nests groups, if any; it is the last one
        handled then. With one row selected at a time there is none. */
    method Run(es: seq<Event>) returns (n: nat)
      requires Valid()
      modifies this
      ensures n <= |es| && View() == NextAll(old(View()), es[..n]) && Consistent(View())
      ensures Valid() <==> Harmless(old(View()), es[..n])
      ensures n < |es| ==> !Valid()
      ensures |old(clipboard)| <= 1 && (forall i :: 0 <= i < |es| ==> Single(es[i])) ==> n == |es| && Valid()
    {
      n := 0;
      ghost var start := View();
      while n < |es| && NoNest(params, false)
        invariant n <= |es| && View() == NextAll(start, es[..n]) && Consistent(View()) && NoNest(clipboard, false)
        invariant Flat(View()) <==> Harmless(start, es[..n])
        decreases |es| - n
      {
        RunTurn(start, es, n);
        Step(es[n]);
        n := n + 1;
      }
      if |start.clipboard| <= 1 && (forall i :: 0 <= i < |es| ==> Single(es[i])) { SingleIsHarmless(start, es[..n]); }
    }
  }

  lemma RunTurn(st: State, es: seq<Event>, n: nat)
    requires n < |es| && Consistent(NextAll(st, es[..n])) && Flat(NextAll(st, es[..n])) && Harmless(st, es[..n])
    ensures NextAll(st, es[..n + 1]) == Next(NextAll(st, es[..n]), es[n]) && Consistent(NextAll(st, es[..n + 1]))
    ensures Flat(NextAll(st, es[..n + 1])) <==> Harmless(st, es[..n + 1])
    ensures NoNest(NextAll(st, es[..n + 1]).clipboard, false)
  {
    var before := NextAll(st, es[..n]);
    assert es[..n + 1][..n] == es[..n] && es[..n + 1][n] == es[n];
    NextKeeps(before, es[n]);
    if es[n].Paste? { assert Next(before, es[n]).clipboard == before.clipboard; }
  }

  // ---------------------------------------------------------------- a run that goes wrong

  function Leaf<T>(name: nat, data: T): Tree<T> { Tree(name, data, []) }

  /** A parameter, and a group with a parameter of its own. */
  function Pair<T>(a: nat, x: T, b: nat, y: T, c: nat, z: T): seq<Tree<T>> {
    [Leaf(a, x)] + [Tree(b, y, [Leaf(c, z)])]
  }

  const PAIR: Nodes := Pair(1, false, 2, true, 3, false)

  /** An empty group, and the pair in the clipboard. */
  const PASTE_START := State([Leaf(0, true)], [Leaf(0, 0)], PAIR, 4, 1)

  /** The pair has been pasted into the group. */
  const PASTE_END :=
    State([Tree(0, true, Pair(4, false, 5, true, 6, false))], [Tree(0, 0, Pair(1, 4, 2, 5, 3, 6))], PAIR, 7, 4)

  lemma Alone<T>(t: Tree<T>, n: nat)
    ensures IsTop([t], n) <==> t.name == n
    ensures Find([t], n) == if t.name == n then Some(t) else Find(t.kids, n)
    ensures Parent([t], n) == if IsTop(t.kids, n) then Some(t.name) else Parent(t.kids, n)
  {
    ConsParts(t, []);
    assert !IsTop([t][1..], n);
    assert Find([t][1..], n) == None && Parent([t][1..], n) == None;
  }

  lemma LeafAlone<T>(name: nat, data: T, n: nat)
    ensures IsTop([Leaf(name, data)], n) <==> name == n
    ensures Find([Leaf(name, data)], n) == (if name == n then Some(Leaf(name, data)) else None)
    ensures Parent([Leaf(name, data)], n) == None
  {
    Alone(Leaf(name, data), n);
  }

  lemma PairFound<T>(a: nat, x: T, b: nat, y: T, c: nat, z: T, n: nat)
    ensures var ts := Pair(a, x, b, y, c, z);
      && (IsTop(ts, n) <==> n == a || n == b)
      && Parent(ts, n) == (if n == c then Some(b) else None)
      && Find(ts, n) == (if n == a then Some(Leaf(a, x)) else if n == b then Some(Tree(b, y, [Leaf(c, z)]))
                         else if n == c then Some(Leaf(c, z)) else None)
  {
    var u, v := Leaf(a, x), Tree(b, y, [Leaf(c, z)]);
    LeafAlone(c, z, n);
    Alone(v, n);
    ConsParts(u, [v]);
    assert !IsTop(u.kids, n) && Find(u.kids, n) == None && Parent(u.kids, n) == None;
  }

  lemma GroupFound<T>(name: nat, data: T, a: nat, x: T, b: nat, y: T, c: nat, z: T, n: nat)
    ensures var t := Tree(name, data, Pair(a, x, b, y, c, z));
      && Find([t], n) == (if n == name then Some(t) else Find(t.kids, n))
      && Parent([t], n) == (if n == a || n == b then Some(name) else if n == c then Some(b) else None)
  {
    hide Find, Parent, IsTop;
    PairFound(a, x, b, y, c, z, n);
    Alone(Tree(name, data, Pair(a, x, b, y, c, z)), n);
  }

  lemma PairNumbered<S, T>(a: nat, x: S, b: nat, y: S, c: nat, z: S, m: nat, f: Tree<S> -> T)
    ensures var ts := Pair(a, x, b, y, c, z);
      Number(ts, m, f) == Pair(m, f(ts[0]), m + 1, f(ts[1]), m + 2, f(Leaf(c, z))) && Size(ts) == 3
  {
    var u, v, w := Leaf(a, x), Tree(b, y, [Leaf(c, z)]), Leaf(c, z);
    ConsParts(u, [v]);
    ConsParts(v, []);
    ConsParts(w, []);
    assert Number([w], m + 2, f) == [Leaf(m + 2, f(w))] && Size([w]) == 1;
    assert Number([v], m + 1, f) == [Tree(m + 1, f(v), [Leaf(m + 2, f(w))])] && Size([v]) == 2;
  }

  lemma PlaceInEmpty<T>(name: nat, data: T, xs: seq<Tree<T>>)
    ensures Place([Leaf(name, data)], name, xs, Inside) == [Tree(name, data, xs)]
  {
    ConsParts(Leaf(name, data), []);
    assert [] + xs == xs;
  }

  lemma KindsAlone(n: Tree<bool>, inside: bool)
    ensures Bare([n]) <==> (!n.data ==> |n.kids| == 0) && Bare(n.kids)
    ensures NoNest([n], inside) <==> (n.data ==> !inside) && NoNest(n.kids, true)
  {
    ConsParts(n, []);
    assert Bare([n][1..]) && NoNest([n][1..], inside);
  }

  lemma PairKinds(a: nat, b: nat, c: nat)
    ensures Bare(Pair(a, false, b, true, c, false)) && NoNest(Pair(a, false, b, true, c, false), false)
  {
    KindsAlone(Leaf(c, false), true);
    KindsAlone(Tree(b, true, [Leaf(c, false)]), false);
    ConsParts(Leaf(a, false), [Tree(b, true, [Leaf(c, false)])]);
  }

  lemma PasteStart()
    ensures Consistent(PASTE_START) && Flat(PASTE_START) && Possible(PASTE_START.rows, Paste(Some(0)))
  {
    OneFresh(0, true);
    OneFresh<nat>(0, 0);
    MirrorsOne(Leaf(0, 0), Leaf(0, true));
    ConsParts(Leaf(0, true), []);
    PairKinds(1, 2, 3);
    FindThere(PASTE_START.rows, 0);
  }

  lemma PasteEnd()
    ensures Next(PASTE_START, Paste(Some(0))) == PASTE_END
  {
    hide Consistent, Flat, Place, Number, Size, Find, Parent, IsTop;
    var st := PASTE_START;
    PasteStart();
    LeafAlone(0, true, 0);
    LeafAlone<nat>(0, 0, 0);
    PairNumbered<bool, bool>(1, false, 2, true, 3, false, 4, KIND_OF);
    PairNumbered<bool, nat>(4, false, 5, true, 6, false, 1, NAME_OF);
    PlaceInEmpty(0, true, Pair(4, false, 5, true, 6, false));
    PlaceInEmpty<nat>(0, 0, Pair(1, 4, 2, 5, 3, 6));
  }

  /** Pasting the pair puts its group into the group. */
  lemma NestedPaste()
    ensures Consistent(PASTE_START) && Flat(PASTE_START) && Consistent(PASTE_END) && !Flat(PASTE_END)
    ensures Next(PASTE_START, Paste(Some(0))) == PASTE_END
  {
    hide Consistent, Flat, Pasting, Find, Parent, IsTop;
    PasteStart();
    PasteEnd();
    LeafAlone(0, true, 0);
    LeafAlone<nat>(0, 0, 0);
    assert PAIR[1].data;
    NextKeeps(PASTE_START, Paste(Some(0)));
  }

  /** Dragging that group out afterwards leaves its row without the one below it. */
  lemma RowsLost()
    ensures Consistent(PASTE_START) && Flat(PASTE_START)
    ensures !Consistent(NextAll(PASTE_START, [Paste(Some(0)), Drag(2, 0, DropAfter)]))
  {
    hide Consistent, Flat, Pasting, Dragged, Find, Parent, IsTop, Count;
    var es, drag := [Paste(Some(0)), Drag(2, 0, DropAfter)], Drag(2, 0, DropAfter);
    assert es[..1] == [Paste(Some(0))] && es[..1][..0] == [];
    NestedPaste();
    assert NextAll(PASTE_START, es[..1]) == PASTE_END;
    PastedFound();
    FindThere(PASTE_END.rows, 0);
    FindThere(PASTE_END.rows, 2);
    DraggedKeeps(PASTE_END, 2, 0, DropAfter);
  }

  lemma PastedFound()
    ensures Find(PASTE_END.rows, 0) == Some(PASTE_END.rows[0]) && Parent(PASTE_END.rows, 0) == None
    ensures Find(PASTE_END.rows, 2) == Some(Tree(2, 5, [Leaf(3, 6)])) && Parent(PASTE_END.rows, 2) == Some(0)
    ensures Find(PASTE_END.params, 5) == Some(Tree(5, true, [Leaf(6, false)])) && Parent(PASTE_END.params, 0) == None
  {
    hide Find, Parent, IsTop;
    PairFound<nat>(1, 4, 2, 5, 3, 6, 2);
    PairFound(4, false, 5, true, 6, false, 5);
    GroupFound<nat>(0, 0, 1, 4, 2, 5, 3, 6, 2);
    GroupFound<nat>(0, 0, 1, 4, 2, 5, 3, 6, 0);
    GroupFound(0, true, 4, false, 5, true, 6, false, 5);
    GroupFound(0, true, 4, false, 5, true, 6, false, 0);
  }
}
