/**
 Snapshots (revisions) of a flow: each revision document names its parent, a children table is
 derived from the documents, and removing a revision hands its children to its own parent.
 Follows gebr/flow.c and the deletion loop of gebr/ui_flow_browse.c.
 */
module Snapshots {
  import opened Strings

  /** The XML text of a revision: it either loads as a document or it does not. */
  datatype Document = Broken(xml: string) | Loaded(parent: string, body: string)

  datatype Revision = Revision(id: string, doc: Document)

  /** A C string: the lists of the children table compare entries by address. */
  datatype CString = CString(addr: nat, text: string)

  type Table = map<string, seq<CString>>

  // ---------------------------------------------------------------- documents

  ghost predicate UniqueIds(revs: seq<Revision>) {
    forall i, j :: 0 <= i < j < |revs| ==> revs[i].id != revs[j].id
  }

  predicate AllLoad(revs: seq<Revision>) {
    forall i :: 0 <= i < |revs| ==> revs[i].doc.Loaded?
  }

  ghost predicate Known(revs: seq<Revision>, id: string) {
    exists i :: 0 <= i < |revs| && revs[i].id == id
  }

  /** The position of the first revision called `id`, or -1. */
  method FindRevision(revs: seq<Revision>, id: string) returns (k: int)
    ensures -1 <= k < |revs|
    ensures k == -1 <==> !Known(revs, id)
    ensures k >= 0 ==> revs[k].id == id && forall i :: 0 <= i < k ==> revs[i].id != id
  {
    k := 0;
    while k < |revs|
      invariant 0 <= k <= |revs|
      invariant forall i :: 0 <= i < k ==> revs[i].id != id
    {
      if revs[k].id == id { return; }
      k := k + 1;
    }
    k := -1;
  }

  function OwnParent(r: Revision): string {
    if r.doc.Loaded? then r.doc.parent else ""
  }

  /** The parent named by revision `id`; "" for a root, an unknown id or a broken document. */
  function ParentOf(revs: seq<Revision>, id: string): string {
    if revs == [] then "" else if revs[0].id == id then OwnParent(revs[0]) else ParentOf(revs[1..], id)
  }

  lemma {:induction false} ParentAt(revs: seq<Revision>, i: nat)
    requires UniqueIds(revs) && i < |revs|
    ensures ParentOf(revs, revs[i].id) == OwnParent(revs[i])
  {
    if i > 0 { ParentAt(revs[1..], i - 1); }
  }

  lemma {:induction false} ParentOfUnknown(revs: seq<Revision>, id: string)
    requires !Known(revs, id)
    ensures ParentOf(revs, id) == ""
  {
    if revs != [] {
      assert revs[0].id != id;
      assert !Known(revs[1..], id) by {
        forall i | 0 <= i < |revs[1..]| ensures revs[1..][i].id != id { assert revs[1..][i] == revs[i + 1]; }
      }
      ParentOfUnknown(revs[1..], id);
    }
  }

  // ---------------------------------------------------------------- ancestry

  /** `a` is reached from `d` by following exactly `n` parent links. */
  ghost predicate Reach(revs: seq<Revision>, n: nat, d: string, a: string) {
    if n == 0 then d == a else ParentOf(revs, d) != "" && Reach(revs, n - 1, ParentOf(revs, d), a)
  }

  ghost predicate Ancestor(revs: seq<Revision>, a: string, d: string) {
    exists n: nat :: n > 0 && Reach(revs, n, d, a)
  }

  ghost predicate Acyclic(revs: seq<Revision>) {
    forall d :: Known(revs, d) ==> !Ancestor(revs, d, d)
  }

  /** No revision names an id that the flow does not hold. */
  ghost predicate Closed(revs: seq<Revision>) {
    forall i :: 0 <= i < |revs| ==> OwnParent(revs[i]) == "" || Known(revs, OwnParent(revs[i]))
  }

  // ---------------------------------------------------------------- removal on documents

  function Without(revs: seq<Revision>, k: nat): seq<Revision>
    requires k < |revs|
  {
    revs[..k] + revs[k + 1..]
  }

  function Adopt(r: Revision, p: string): Revision
    requires r.doc.Loaded?
  {
    r.(doc := r.doc.(parent := p))
  }

  /** Every revision whose id is in `who` gets parent `p`; broken ones keep their text. */
  function AdoptAll(revs: seq<Revision>, who: set<string>, p: string): (r: seq<Revision>)
    ensures |r| == |revs|
    ensures forall i :: 0 <= i < |r| ==>
      r[i] == if revs[i].id in who && revs[i].doc.Loaded? then Adopt(revs[i], p) else revs[i]
  {
    seq(|revs|, i requires 0 <= i < |revs| =>
      if revs[i].id in who && revs[i].doc.Loaded? then Adopt(revs[i], p) else revs[i])
  }

  function ChildSet(revs: seq<Revision>, p: string): set<string> {
    set i | 0 <= i < |revs| && OwnParent(revs[i]) == p :: revs[i].id
  }

  /** The flow after the revision at `k` is gone and its children belong to its parent. */
  function Splice(revs: seq<Revision>, k: nat): seq<Revision>
    requires k < |revs|
  {
    AdoptAll(Without(revs, k), ChildSet(revs, revs[k].id), OwnParent(revs[k]))
  }

  lemma SpliceAt(revs: seq<Revision>, k: nat, i: nat)
    requires k < |revs| && i < |revs| - 1
    ensures |Splice(revs, k)| == |revs| - 1
    ensures var r := revs[if i < k then i else i + 1];
      Splice(revs, k)[i] ==
      if r.id in ChildSet(revs, revs[k].id) && r.doc.Loaded? then Adopt(r, OwnParent(revs[k])) else r
  {
  }

  /** `after` is `before` under another parent: the same id and the same content; a document that does
      not load has the text it had. */
  ghost predicate Rehung(before: Revision, parent: string, after: Revision) {
    && after.id == before.id
    && match before.doc
       case Broken(xml) => after.doc == Broken(xml)
       case Loaded(_, body) => after.doc == Loaded(parent, body)
  }

  /** The flow without the revision at `k`: all others in their order, those in `heirs` below the
      parent of the one taken out and the others where they were, each with the content it had. */
  ghost predicate TakenOut(before: seq<Revision>, k: nat, heirs: set<string>, after: seq<Revision>)
    requires k < |before|
  {
    && |after| == |before| - 1
    && forall i :: 0 <= i < |after| ==>
         var r := before[if i < k then i else i + 1];
         Rehung(r, if r.id in heirs then OwnParent(before[k]) else OwnParent(r), after[i])
  }

  lemma AdoptionTakesOut(revs: seq<Revision>, k: nat, heirs: set<string>)
    requires k < |revs|
    ensures TakenOut(revs, k, heirs, AdoptAll(Without(revs, k), heirs, OwnParent(revs[k])))
    ensures TakenOut(revs, k, {}, Without(revs, k))
  {
  }

  lemma SpliceTakesOut(revs: seq<Revision>, k: nat)
    requires k < |revs|
    ensures TakenOut(revs, k, ChildSet(revs, revs[k].id), Splice(revs, k))
  {
    AdoptionTakesOut(revs, k, ChildSet(revs, revs[k].id));
  }

  lemma SpliceShape(revs: seq<Revision>, k: nat)
    requires k < |revs| && UniqueIds(revs)
    ensures UniqueIds(Splice(revs, k))
    ensures forall d :: Known(Splice(revs, k), d) <==> Known(revs, d) && d != revs[k].id
    ensures AllLoad(revs) ==> AllLoad(Splice(revs, k))
  {
    var s := Splice(revs, k);
    forall i | 0 <= i < |s| ensures s[i].id == revs[if i < k then i else i + 1].id
      ensures s[i].doc.Loaded? == revs[if i < k then i else i + 1].doc.Loaded?
    {
      SpliceAt(revs, k, i);
    }
    SpliceKnown(revs, s, k);
  }

  lemma SpliceKnown(revs: seq<Revision>, s: seq<Revision>, k: nat)
    requires k < |revs| && UniqueIds(revs) && |s| == |revs| - 1
    requires forall i :: 0 <= i < |s| ==> s[i].id == revs[if i < k then i else i + 1].id
    ensures forall d :: Known(s, d) <==> Known(revs, d) && d != revs[k].id
  {
    forall d ensures Known(s, d) <==> Known(revs, d) && d != revs[k].id {
      if Known(s, d) {
        var i :| 0 <= i < |s| && s[i].id == d;
        assert revs[if i < k then i else i + 1].id == d;
      }
      if Known(revs, d) && d != revs[k].id {
        var i :| 0 <= i < |revs| && revs[i].id == d;
        assert s[if i < k then i else i - 1].id == d;
      }
    }
  }

  /** What one splice does to the parent function. */
  lemma SpliceParent(revs: seq<Revision>, k: nat, d: string)
    requires k < |revs| && UniqueIds(revs) && AllLoad(revs)
    requires revs[k].id != ""
    ensures ParentOf(Splice(revs, k), d) ==
            if d == revs[k].id then "" else
            if ParentOf(revs, d) == revs[k].id then ParentOf(revs, revs[k].id) else ParentOf(revs, d)
  {
    var s, x := Splice(revs, k), revs[k].id;
    SpliceShape(revs, k);
    ParentAt(revs, k);
    if Known(s, d) {
      var i :| 0 <= i < |s| && s[i].id == d;
      var o := if i < k then i else i + 1;
      SpliceAt(revs, k, i);
      ParentAt(s, i);
      ParentAt(revs, o);
      InChildSet(revs, x, d);
    } else {
      ParentOfUnknown(s, d);
      if d != x { ParentOfUnknown(revs, d); }
    }
  }

  /** A path after the splice is a path before it, with the removed revision put back. */
  lemma {:induction false} UnsplicedPath(revs: seq<Revision>, k: nat, n: nat, d: string, a: string) returns (m: nat)
    requires k < |revs| && UniqueIds(revs) && AllLoad(revs) && revs[k].id != "" && d != revs[k].id
    requires Acyclic(revs) && Reach(Splice(revs, k), n, d, a)
    ensures n <= m && Reach(revs, m, d, a)
    decreases n
  {
    m := 0;
    if n > 0 {
      var x, p := revs[k].id, ParentOf(revs, revs[k].id);
      SpliceParent(revs, k, d);
      NotOwnParent(revs, k);
      m := UnsplicedPath(revs, k, n - 1, ParentOf(Splice(revs, k), d), a);
      if ParentOf(revs, d) == x {
        assert Reach(revs, m + 1, x, a);
        m := m + 2;
      } else {
        m := m + 1;
      }
    }
  }

  /** A path between survivors stays a path once the removed revision is skipped. */
  lemma {:induction false} SplicedPath(revs: seq<Revision>, k: nat, n: nat, d: string, a: string) returns (m: nat)
    requires k < |revs| && UniqueIds(revs) && AllLoad(revs) && revs[k].id != ""
    requires d != revs[k].id && a != revs[k].id
    requires Acyclic(revs) && Reach(revs, n, d, a)
    ensures m <= n && (n > 0 ==> m > 0) && Reach(Splice(revs, k), m, d, a)
    decreases n
  {
    m := 0;
    if n > 0 {
      var x, q := revs[k].id, ParentOf(revs, d);
      SpliceParent(revs, k, d);
      NotOwnParent(revs, k);
      if q == x {
        assert Reach(revs, n - 1, x, a);
        m := SplicedPath(revs, k, n - 2, ParentOf(revs, x), a);
      } else {
        m := SplicedPath(revs, k, n - 1, q, a);
      }
      m := m + 1;
    }
  }

  lemma NotOwnParent(revs: seq<Revision>, k: nat)
    requires k < |revs| && revs[k].id != "" && Acyclic(revs)
    ensures ParentOf(revs, revs[k].id) != revs[k].id
  {
    var x := revs[k].id;
    assert Known(revs, x);
    if ParentOf(revs, x) == x {
      assert Reach(revs, 0, x, x);
      assert Reach(revs, 1, x, x);
      assert false;
    }
  }

  /** Removing one revision keeps the forest acyclic, leaves nobody pointing at it and keeps the
      ancestor relation between every two survivors exactly as it was. */
  lemma SplicePreservesForest(revs: seq<Revision>, k: nat)
    requires k < |revs| && UniqueIds(revs) && AllLoad(revs) && revs[k].id != ""
    requires Acyclic(revs)
    ensures Acyclic(Splice(revs, k))
    ensures ChildSet(Splice(revs, k), revs[k].id) == {}
    ensures forall a, d :: a != revs[k].id && d != revs[k].id ==>
      (Ancestor(Splice(revs, k), a, d) <==> Ancestor(revs, a, d))
    ensures Closed(revs) ==> Closed(Splice(revs, k))
  {
    var s, x := Splice(revs, k), revs[k].id;
    SpliceShape(revs, k);
    forall a, d | a != x && d != x
      ensures Ancestor(s, a, d) <==> Ancestor(revs, a, d)
    {
      if Ancestor(s, a, d) {
        var n: nat :| n > 0 && Reach(s, n, d, a);
        var m := UnsplicedPath(revs, k, n, d, a);
      }
      if Ancestor(revs, a, d) {
        var n: nat :| n > 0 && Reach(revs, n, d, a);
        var m := SplicedPath(revs, k, n, d, a);
      }
    }
    NotOwnParent(revs, k);
    forall i | 0 <= i < |s|
      ensures OwnParent(s[i]) != x
      ensures Closed(revs) ==> OwnParent(s[i]) == "" || Known(s, OwnParent(s[i]))
    {
      ParentAt(s, i);
      SpliceParent(revs, k, s[i].id);
      ParentAt(revs, k);
      var o := if i < k then i else i + 1;
      ParentAt(revs, o);
    }
  }

  // ---------------------------------------------------------------- the children table

  function Lookup(t: Table, key: string): seq<CString> {
    if key in t then t[key] else []
  }

  function Texts(l: seq<CString>): (r: seq<string>)
    ensures |r| == |l| && forall i :: 0 <= i < |r| ==> r[i] == l[i].text
  {
    seq(|l|, i requires 0 <= i < |l| => l[i].text)
  }

  /** The children of `p`, last document first. */
  function ChildrenOf(revs: seq<Revision>, p: string): seq<string> {
    if revs == [] then [] else
      var last := revs[|revs| - 1];
      (if OwnParent(last) == p then [last.id] else []) + ChildrenOf(revs[..|revs| - 1], p)
  }

  lemma ChildSetSnoc(revs: seq<Revision>, r: Revision, p: string)
    ensures ChildSet(revs + [r], p) == ChildSet(revs, p) + (if OwnParent(r) == p then {r.id} else {})
  {
    var more := revs + [r];
    assert more[|revs|] == r;
    forall c | c in ChildSet(revs, p) ensures c in ChildSet(more, p) {
      var i :| 0 <= i < |revs| && OwnParent(revs[i]) == p && revs[i].id == c;
      assert OwnParent(more[i]) == p && more[i].id == c;
    }
  }

  /** `ChildrenOf` lists exactly the children of `p`, each of them once. */
  lemma {:induction false} ChildrenOfExact(revs: seq<Revision>, p: string)
    requires UniqueIds(revs)
    ensures forall c :: c in ChildrenOf(revs, p) <==> c in ChildSet(revs, p)
    ensures forall c :: multiset(ChildrenOf(revs, p))[c] <= 1
  {
    if revs != [] {
      var init, last := revs[..|revs| - 1], revs[|revs| - 1];
      ChildrenOfExact(init, p);
      assert revs == init + [last];
      ChildSetSnoc(init, last, p);
      assert last.id !in ChildSet(init, p);
      assert last.id !in ChildrenOf(init, p);
    }
  }

  /** Child `c` is listed at place `a`. */
  ghost predicate ListedAt(revs: seq<Revision>, p: string, a: nat, c: string) {
    a < |ChildrenOf(revs, p)| && ChildrenOf(revs, p)[a] == c
  }

  lemma ListedLater(revs: seq<Revision>, p: string, a: nat, c: string)
    requires revs != [] && ListedAt(revs[..|revs| - 1], p, a, c)
    ensures ListedAt(revs, p, a + if OwnParent(revs[|revs| - 1]) == p then 1 else 0, c)
  {
  }

  /** Children come out in reverse document order. */
  lemma {:induction false} ChildrenOfReversed(revs: seq<Revision>, p: string, i: nat, j: nat) returns (a: nat, b: nat)
    requires UniqueIds(revs) && i < j < |revs| && OwnParent(revs[i]) == p && OwnParent(revs[j]) == p
    ensures a < b && ListedAt(revs, p, a, revs[j].id) && ListedAt(revs, p, b, revs[i].id)
  {
    hide ListedAt;
    var init := revs[..|revs| - 1];
    if j < |init| {
      a, b := ChildrenOfReversed(init, p, i, j);
      assert init[i] == revs[i] && init[j] == revs[j];
      ListedLater(revs, p, a, revs[j].id);
      ListedLater(revs, p, b, revs[i].id);
      if OwnParent(revs[|revs| - 1]) == p { a, b := a + 1, b + 1; }
    } else {
      b := ListedSomewhere(init, p, i);
      ListedLater(revs, p, b, revs[i].id);
      LastIsFirst(revs, p);
      a, b := 0, b + 1;
    }
  }

  lemma ListedSomewhere(revs: seq<Revision>, p: string, i: nat) returns (a: nat)
    requires UniqueIds(revs) && i < |revs| && OwnParent(revs[i]) == p
    ensures ListedAt(revs, p, a, revs[i].id)
  {
    ChildrenOfExact(revs, p);
    assert revs[i].id in ChildSet(revs, p);
    a :| 0 <= a < |ChildrenOf(revs, p)| && ChildrenOf(revs, p)[a] == revs[i].id;
  }

  lemma LastIsFirst(revs: seq<Revision>, p: string)
    requires revs != [] && OwnParent(revs[|revs| - 1]) == p
    ensures ListedAt(revs, p, 0, revs[|revs| - 1].id)
  {
  }

  /** The keys a freshly built table has: every id and every parent that is named. */
  ghost predicate IsKey(revs: seq<Revision>, key: string) {
    Known(revs, key) || (key != "" && ChildrenOf(revs, key) != [])
  }

  /** What a table built from `revs`, out of strings allocated in [lo, hi), holds under `key`. */
  ghost predicate RowBuilt(t: Table, revs: seq<Revision>, lo: nat, hi: nat, key: string) {
    && (key in t <==> IsKey(revs, key))
    && Texts(Lookup(t, key)) == (if key == "" then [] else ChildrenOf(revs, key))
    && forall i :: 0 <= i < |Lookup(t, key)| ==> lo <= Lookup(t, key)[i].addr < hi
  }

  ghost predicate BuiltFrom(t: Table, revs: seq<Revision>, lo: nat, hi: nat) {
    forall key :: RowBuilt(t, revs, lo, hi, key)
  }

  /** Builds the table in document order; one broken document and there is no table at all. */
  method CreateTable(revs: seq<Revision>, lo: nat) returns (t: Option<Table>, hi: nat)
    ensures lo <= hi
    ensures t.Some? <==> AllLoad(revs)
    ensures t.Some? ==> BuiltFrom(t.value, revs, lo, hi)
  {
    var rows: Table := map[];
    var i := 0;
    hi := lo;
    while i < |revs|
      invariant 0 <= i <= |revs| && lo <= hi
      invariant AllLoad(revs[..i])
      invariant BuiltFrom(rows, revs[..i], lo, hi)
    {
      var r := revs[i];
      ghost var before := rows;
      if Lookup(rows, r.id) == [] {
        rows := rows[r.id := []];
      }
      if r.doc.Broken? {
        return None, hi;
      }
      if r.doc.parent == "" {
        rows := rows[r.id := Lookup(rows, r.id)];
      } else {
        rows := rows[r.doc.parent := [CString(hi, r.id)] + Lookup(rows, r.doc.parent)];
        hi := hi + 1;
      }
      BuildStep(revs, i, before, rows, lo, hi);
      i := i + 1;
    }
    assert revs[..|revs|] == revs;
    t := Some(rows);
  }

  lemma BuildStep(revs: seq<Revision>, i: nat, t: Table, t': Table, lo: nat, hi': nat)
    requires i < |revs| && revs[i].doc.Loaded? && lo <= hi'
    requires var r := revs[i]; var p := r.doc.parent; var u := t[r.id := Lookup(t, r.id)];
      if p == "" then BuiltFrom(t, revs[..i], lo, hi') && t' == u
      else lo < hi' && BuiltFrom(t, revs[..i], lo, hi' - 1) && t' == u[p := [CString(hi' - 1, r.id)] + Lookup(u, p)]
    ensures BuiltFrom(t', revs[..i + 1], lo, hi')
  {
    var after := revs[..i + 1];
    forall key: string
      ensures RowBuilt(t', after, lo, hi', key)
    {
      BuildRow(revs, i, t, t', lo, hi', key);
    }
  }

  lemma BuildRow(revs: seq<Revision>, i: nat, t: Table, t': Table, lo: nat, hi': nat, key: string)
    requires i < |revs| && revs[i].doc.Loaded?
    requires var p := revs[i].doc.parent; var hi := if p == "" then hi' else hi' - 1;
      && lo <= hi <= hi' && RowBuilt(t, revs[..i], lo, hi, key)
      && t'.Keys == t.Keys + {revs[i].id} + (if p == "" then {} else {p})
      && Lookup(t', key) == if p == "" || p != key then Lookup(t, key) else [CString(hi, revs[i].id)] + Lookup(t, key)
    ensures RowBuilt(t', revs[..i + 1], lo, hi', key)
  {
    hide Known, ChildrenOf, Texts;
    var before, r := revs[..i], revs[i];
    assert revs[..i + 1] == before + [r];
    KnownSnoc(before, r, key);
    ChildrenSnoc(before, r, key);
    if r.doc.parent == key && key != "" {
      GrownRow(CString(hi' - 1, r.id), Lookup(t, key), lo, hi');
    } else {
      assert [] + ChildrenOf(before, key) == ChildrenOf(before, key);
    }
  }

  lemma GrownRow(c: CString, l: seq<CString>, lo: nat, hi: nat)
    requires lo <= c.addr < hi && forall i :: 0 <= i < |l| ==> lo <= l[i].addr < hi
    ensures Texts([c] + l) == [c.text] + Texts(l)
    ensures forall i :: 0 <= i < |[c] + l| ==> lo <= ([c] + l)[i].addr < hi
  {
    TextsCons(c, l);
  }

  lemma TextsCons(c: CString, l: seq<CString>)
    ensures Texts([c] + l) == [c.text] + Texts(l)
  {
  }

  lemma ChildrenSnoc(revs: seq<Revision>, r: Revision, p: string)
    ensures ChildrenOf(revs + [r], p) == (if OwnParent(r) == p then [r.id] else []) + ChildrenOf(revs, p)
  {
    assert (revs + [r])[..|revs|] == revs;
  }

  lemma KnownSnoc(revs: seq<Revision>, r: Revision, key: string)
    ensures Known(revs + [r], key) <==> Known(revs, key) || key == r.id
  {
    var more := revs + [r];
    if Known(revs, key) {
      var j :| 0 <= j < |revs| && revs[j].id == key;
      assert more[j].id == key;
    }
    assert more[|revs|].id == r.id;
    if Known(more, key) && key != r.id {
      var j :| 0 <= j < |more| && more[j].id == key;
      assert revs[j].id == key;
    }
  }

  // ---------------------------------------------------------------- patching the table

  /** g_list_remove: drops the first entry that is the very string `x`. */
  function RemovePointer(l: seq<CString>, x: CString): seq<CString> {
    if l == [] then [] else if l[0].addr == x.addr then l[1..] else [l[0]] + RemovePointer(l[1..], x)
  }

  /** The table after an interior removal of `x`, whose parent is `p`. */
  function Patch(t: Table, x: CString, p: string): Table {
    t[p := RemovePointer(Lookup(t, p), x) + Lookup(t, x.text)] - {x.text}
  }

  ghost predicate Holds(l: seq<CString>, x: CString) {
    l != [] && (l[0].addr == x.addr || Holds(l[1..], x))
  }

  /** Lookups in `t` give, for every non-empty key, the children a rebuilt table would list. */
  ghost predicate AgreesWith(t: Table, revs: seq<Revision>) {
    forall key :: key != "" ==> multiset(Texts(Lookup(t, key))) == multiset(ChildrenOf(revs, key))
  }

  lemma TextsConcat(l: seq<CString>, m: seq<CString>)
    ensures multiset(Texts(l + m)) == multiset(Texts(l)) + multiset(Texts(m))
  {
    assert Texts(l + m) == Texts(l) + Texts(m);
  }

  lemma {:induction false} RemovePointerTexts(l: seq<CString>, x: CString)
    requires forall i :: 0 <= i < |l| && l[i].addr == x.addr ==> l[i].text == x.text
    ensures !Holds(l, x) ==> RemovePointer(l, x) == l
    ensures Holds(l, x) ==> multiset(Texts(l)) == multiset(Texts(RemovePointer(l, x))) + multiset{x.text}
  {
    if l != [] {
      var e, rest := l[0], l[1..];
      assert l == [e] + rest;
      assert Texts([e]) == [e.text];
      TextsConcat([e], rest);
      if e.addr != x.addr {
        RemovePointerTexts(rest, x);
        TextsConcat([e], RemovePointer(rest, x));
      }
    }
  }

  /** `l` names every member of `s`, each once, and nothing else. */
  ghost predicate Lists(l: seq<string>, s: set<string>) {
    forall c :: multiset(l)[c] == if c in s then 1 else 0
  }

  lemma ChildrenListed(revs: seq<Revision>, p: string)
    requires UniqueIds(revs)
    ensures Lists(ChildrenOf(revs, p), ChildSet(revs, p))
  {
    ChildrenOfExact(revs, p);
  }

  lemma InChildSet(revs: seq<Revision>, p: string, c: string)
    requires UniqueIds(revs) && p != ""
    ensures c in ChildSet(revs, p) <==> ParentOf(revs, c) == p
  {
    if c in ChildSet(revs, p) {
      var i :| 0 <= i < |revs| && OwnParent(revs[i]) == p && revs[i].id == c;
      ParentAt(revs, i);
    } else if Known(revs, c) {
      var i :| 0 <= i < |revs| && revs[i].id == c;
      ParentAt(revs, i);
    } else {
      ParentOfUnknown(revs, c);
    }
  }

  lemma SpliceChildSet(revs: seq<Revision>, k: nat, key: string)
    requires k < |revs| && UniqueIds(revs) && AllLoad(revs) && revs[k].id != "" && key != ""
    requires Acyclic(revs)
    ensures var x, p := revs[k].id, ParentOf(revs, revs[k].id);
      ChildSet(Splice(revs, k), key) ==
      if key == x then {} else if key == p then ChildSet(revs, p) - {x} + ChildSet(revs, x) else ChildSet(revs, key)
  {
    var x, p := revs[k].id, ParentOf(revs, revs[k].id);
    SpliceShape(revs, k);
    NotOwnParent(revs, k);
    forall c
      ensures c in ChildSet(Splice(revs, k), key) <==>
        c in (if key == x then {}
              else if key == p then ChildSet(revs, p) - {x} + ChildSet(revs, x) else ChildSet(revs, key))
    {
      SpliceParent(revs, k, c);
      InChildSet(Splice(revs, k), key, c);
      InChildSet(revs, key, c);
      InChildSet(revs, x, c);
    }
  }

  /** The children set of `key` once the revision at `k` has been spliced out. */
  function SplicedChildren(revs: seq<Revision>, k: nat, key: string): set<string>
    requires k < |revs|
  {
    var x, p := revs[k].id, OwnParent(revs[k]);
    if key == x then {} else if key == p then ChildSet(revs, p) - {x} + ChildSet(revs, x) else ChildSet(revs, key)
  }

  lemma SpliceRow(revs: seq<Revision>, k: nat, key: string)
    requires k < |revs| && UniqueIds(revs) && AllLoad(revs) && revs[k].id != "" && key != ""
    requires Acyclic(revs)
    ensures Lists(ChildrenOf(Splice(revs, k), key), SplicedChildren(revs, k, key))
  {
    SpliceShape(revs, k);
    ChildrenListed(Splice(revs, k), key);
    ParentAt(revs, k);
    SpliceChildSet(revs, k, key);
  }

  /** Two strings at one address have one text. */
  ghost predicate Consistent(l: seq<CString>, x: CString) {
    forall i :: 0 <= i < |l| && l[i].addr == x.addr ==> l[i].text == x.text
  }

  /** After an interior removal the patched table lists what a rebuilt one would exactly when the
      removed revision was a root or `x` is the string stored in its parent's list. */
  lemma PatchMatchesRebuild(t: Table, revs: seq<Revision>, k: nat, x: CString, lo: nat, hi: nat)
    requires k < |revs| && UniqueIds(revs) && AllLoad(revs) && Acyclic(revs)
    requires revs[k].id != "" && x.text == revs[k].id
    requires BuiltFrom(t, revs, lo, hi) && Lookup(t, x.text) != []
    requires Consistent(Lookup(t, OwnParent(revs[k])), x)
    ensures var p := OwnParent(revs[k]);
      AgreesWith(Patch(t, x, p), Splice(revs, k)) <==> p == "" || Holds(Lookup(t, p), x)
  {
    var p, s := OwnParent(revs[k]), Splice(revs, k);
    var t' := Patch(t, x, p);
    forall key | key != "" && (key != p || Holds(Lookup(t, p), x))
      ensures multiset(Texts(Lookup(t', key))) == multiset(ChildrenOf(s, key))
    {
      PatchedRow(t, revs, k, x, lo, hi, key);
      SpliceRow(revs, k, key);
    }
    if p != "" && !Holds(Lookup(t, p), x) {
      PatchedRow(t, revs, k, x, lo, hi, p);
      SpliceRow(revs, k, p);
      ParentAt(revs, k);
      NotOwnParent(revs, k);
      assert multiset(ChildrenOf(s, p))[x.text] == 0;
    }
  }

  lemma PatchedRow(t: Table, revs: seq<Revision>, k: nat, x: CString, lo: nat, hi: nat, key: string)
    requires k < |revs| && UniqueIds(revs) && Acyclic(revs) && key != ""
    requires revs[k].id != "" && x.text == revs[k].id
    requires BuiltFrom(t, revs, lo, hi) && Consistent(Lookup(t, OwnParent(revs[k])), x)
    ensures var p := OwnParent(revs[k]);
      var row := Texts(Lookup(Patch(t, x, p), key));
      if key != p || Holds(Lookup(t, p), x) then Lists(row, SplicedChildren(revs, k, key))
      else multiset(row)[x.text] == 1 && x.text !in SplicedChildren(revs, k, key)
  {
    var p := OwnParent(revs[k]);
    ParentAt(revs, k);
    NotOwnParent(revs, k);
    if key == p {
      ParentRow(t, revs, k, x, lo, hi);
      assert Lookup(Patch(t, x, p), key) == RemovePointer(Lookup(t, p), x) + Lookup(t, x.text);
    } else if key != x.text {
      RowLists(t, revs, lo, hi, key);
      assert Lookup(Patch(t, x, p), key) == Lookup(t, key);
    }
  }

  lemma ParentRow(t: Table, revs: seq<Revision>, k: nat, x: CString, lo: nat, hi: nat)
    requires k < |revs| && UniqueIds(revs) && Acyclic(revs) && OwnParent(revs[k]) != ""
    requires revs[k].id != "" && x.text == revs[k].id
    requires BuiltFrom(t, revs, lo, hi) && Consistent(Lookup(t, OwnParent(revs[k])), x)
    ensures var p := OwnParent(revs[k]);
      var row := Texts(RemovePointer(Lookup(t, p), x) + Lookup(t, x.text));
      if Holds(Lookup(t, p), x) then Lists(row, ChildSet(revs, p) - {x.text} + ChildSet(revs, x.text))
      else multiset(row)[x.text] == 1
    ensures x.text !in ChildSet(revs, x.text)
  {
    var p := OwnParent(revs[k]);
    ParentAt(revs, k);
    NotOwnParent(revs, k);
    RowLists(t, revs, lo, hi, p);
    RowLists(t, revs, lo, hi, x.text);
    RemovePointerTexts(Lookup(t, p), x);
    InChildSet(revs, p, x.text);
    InChildSet(revs, x.text, x.text);
    forall c | c in ChildSet(revs, p) ensures c !in ChildSet(revs, x.text) {
      InChildSet(revs, p, c);
      InChildSet(revs, x.text, c);
    }
    MergedRow(Lookup(t, p), Lookup(t, x.text), x, ChildSet(revs, p), ChildSet(revs, x.text));
  }

  lemma RowLists(t: Table, revs: seq<Revision>, lo: nat, hi: nat, key: string)
    requires UniqueIds(revs) && BuiltFrom(t, revs, lo, hi) && key != ""
    ensures Lists(Texts(Lookup(t, key)), ChildSet(revs, key))
  {
    assert RowBuilt(t, revs, lo, hi, key);
    ChildrenListed(revs, key);
  }

  lemma MergedRow(l: seq<CString>, kids: seq<CString>, x: CString, mine: set<string>, theirs: set<string>)
    requires Lists(Texts(l), mine) && Lists(Texts(kids), theirs)
    requires x.text in mine && mine !! theirs
    requires !Holds(l, x) ==> RemovePointer(l, x) == l
    requires Holds(l, x) ==> multiset(Texts(l)) == multiset(Texts(RemovePointer(l, x))) + multiset{x.text}
    ensures Holds(l, x) ==> Lists(Texts(RemovePointer(l, x) + kids), mine - {x.text} + theirs)
    ensures !Holds(l, x) ==> multiset(Texts(RemovePointer(l, x) + kids))[x.text] == 1
  {
    TextsConcat(RemovePointer(l, x), kids);
  }

  /** A leaf removal leaves the table as it was: still right only when the leaf was a root. */
  lemma LeafTableMatchesRebuild(t: Table, revs: seq<Revision>, k: nat, lo: nat, hi: nat)
    requires k < |revs| && UniqueIds(revs) && AllLoad(revs) && Acyclic(revs) && revs[k].id != ""
    requires BuiltFrom(t, revs, lo, hi) && Lookup(t, revs[k].id) == []
    ensures AgreesWith(t, Splice(revs, k)) <==> OwnParent(revs[k]) == ""
  {
    var x, p, s := revs[k].id, OwnParent(revs[k]), Splice(revs, k);
    ParentAt(revs, k);
    NotOwnParent(revs, k);
    RowLists(t, revs, lo, hi, x);
    assert ChildSet(revs, x) == {} by {
      forall c ensures c !in ChildSet(revs, x) { assert multiset(Texts(Lookup(t, x)))[c] == 0; }
    }
    forall key | key != ""
      ensures Lists(Texts(Lookup(t, key)), ChildSet(revs, key))
      ensures Lists(ChildrenOf(s, key), SplicedChildren(revs, k, key))
    {
      RowLists(t, revs, lo, hi, key);
      SpliceRow(revs, k, key);
    }
    if p != "" {
      InChildSet(revs, p, x);
      assert multiset(Texts(Lookup(t, p)))[x] == 1 && multiset(ChildrenOf(s, p))[x] == 0;
    }
  }

  /** A root and its one child. */
  const PAIR := [Revision("a", Loaded("", "")), Revision("b", Loaded("a", ""))]

  /** The table built for the pair still lists the child once that has been removed. */
  lemma StaleLeaf(t: Table, lo: nat, hi: nat)
    requires BuiltFrom(t, PAIR, lo, hi)
    ensures !AgreesWith(t, Splice(PAIR, 1))
  {
    var a, b := PAIR[0], PAIR[1];
    var s := Splice(PAIR, 1);
    assert RowBuilt(t, PAIR, lo, hi, "a");
    assert PAIR[..1] == [a] && [a][..0] == [];
    assert ChildrenOf([a], "a") == [] + ChildrenOf([], "a");
    assert Texts(Lookup(t, "a")) == ["b"] + [];
    SpliceAt(PAIR, 1, 0);
    assert |s| == 1 && OwnParent(s[0]) == "" && s[..0] == [];
    assert ChildrenOf(s, "a") == [] + ChildrenOf([], "a");
    assert multiset(Texts(Lookup(t, "a")))["b"] == 1;
  }

  lemma {:induction false} NewerNotHeld(l: seq<CString>, x: CString)
    requires forall i :: 0 <= i < |l| ==> x.addr < l[i].addr
    ensures !Holds(l, x)
  {
    if l != [] { NewerNotHeld(l[1..], x); }
  }

  /** The interface passes a string of its own, older than the table it builds: the table is stale
      after every removal of an interior revision that is no root. */
  lemma InterfaceTableStale(t: Table, revs: seq<Revision>, k: nat, x: CString, lo: nat, hi: nat)
    requires k < |revs| && UniqueIds(revs) && AllLoad(revs) && Acyclic(revs)
    requires revs[k].id != "" && x.text == revs[k].id && x.addr < lo
    requires BuiltFrom(t, revs, lo, hi) && Lookup(t, x.text) != []
    ensures AgreesWith(Patch(t, x, OwnParent(revs[k])), Splice(revs, k)) <==> OwnParent(revs[k]) == ""
  {
    var p := OwnParent(revs[k]);
    assert RowBuilt(t, revs, lo, hi, p);
    NewerNotHeld(Lookup(t, p), x);
    PatchMatchesRebuild(t, revs, k, x, lo, hi);
  }

  // ---------------------------------------------------------------- deleting through the interface

  ghost predicate WellFormed(revs: seq<Revision>) {
    UniqueIds(revs) && forall i :: 0 <= i < |revs| ==> revs[i].id != ""
  }

  /** Deleting the loaded revision at `k`: with one broken document in the flow there is no
      children table, so every revision is taken for a leaf. */
  function DeleteOne(revs: seq<Revision>, k: nat): seq<Revision>
    requires k < |revs|
  {
    if AllLoad(revs) then Splice(revs, k) else Without(revs, k)
  }

  function IndexOf(revs: seq<Revision>, id: string): (k: int)
    ensures -1 <= k < |revs|
    ensures k >= 0 ==> revs[k].id == id
    ensures k == -1 <==> !Known(revs, id)
  {
    if revs == [] then -1 else if revs[0].id == id then 0 else
      var k := IndexOf(revs[1..], id);
      assert Known(revs, id) <==> Known(revs[1..], id) by {
        if Known(revs[1..], id) { var i :| 0 <= i < |revs[1..]| && revs[1..][i].id == id; assert revs[i + 1].id == id; }
        if Known(revs, id) { var i :| 0 <= i < |revs| && revs[i].id == id; assert revs[1..][i - 1].id == id; }
      }
      if k == -1 then -1 else k + 1
  }

  /** Deleting several snapshots in turn: unknown ids are skipped, a broken one ends the run. */
  function DeleteRun(revs: seq<Revision>, ids: seq<string>): seq<Revision>
    decreases |ids|
  {
    if ids == [] then revs else
      var k := IndexOf(revs, ids[0]);
      if k == -1 then DeleteRun(revs, ids[1..])
      else if revs[k].doc.Broken? then revs
      else DeleteRun(DeleteOne(revs, k), ids[1..])
  }

  /** Over a whole run of deletions in a loadable acyclic forest: exactly the named snapshots go,
      the forest stays acyclic and closed, and ancestry between survivors is untouched. */
  lemma {:induction false} RunPreservesForest(revs: seq<Revision>, ids: seq<string>)
    requires WellFormed(revs) && AllLoad(revs) && Acyclic(revs)
    ensures var s := DeleteRun(revs, ids);
      && WellFormed(s) && AllLoad(s) && Acyclic(s)
      && (Closed(revs) ==> Closed(s))
      && (forall d :: Known(s, d) <==> Known(revs, d) && d !in ids)
      && (forall a, d :: Known(s, a) && Known(s, d) ==> (Ancestor(s, a, d) <==> Ancestor(revs, a, d)))
    decreases |ids|
  {
    if ids != [] {
      var k := IndexOf(revs, ids[0]);
      if k == -1 {
        RunPreservesForest(revs, ids[1..]);
      } else {
        var one := Splice(revs, k);
        SpliceShape(revs, k);
        SplicePreservesForest(revs, k);
        assert WellFormed(one) by { forall i | 0 <= i < |one| ensures one[i].id != "" { SpliceAt(revs, k, i); } }
        RunPreservesForest(one, ids[1..]);
      }
    }
  }

  function IdsOf(revs: seq<Revision>): (r: seq<string>)
    ensures |r| == |revs| && forall i :: 0 <= i < |r| ==> r[i] == revs[i].id
  {
    seq(|revs|, i requires 0 <= i < |revs| => revs[i].id)
  }

  /** What is left of a list, in its order. */
  function Left(l: seq<string>, gone: seq<string>): seq<string> {
    if l == [] then [] else (if l[0] in gone then [] else [l[0]]) + Left(l[1..], gone)
  }

  lemma {:induction false} LeftMembers(l: seq<string>, gone: seq<string>)
    ensures forall x :: x in Left(l, gone) <==> x in l && x !in gone
  {
    if l != [] {
      LeftMembers(l[1..], gone);
      assert l == [l[0]] + l[1..];
    }
  }

  lemma {:induction false} LeftMore(l: seq<string>, gone: seq<string>, x: string)
    ensures Left(l, gone + [x]) == Left(Left(l, gone), [x])
  {
    if l != [] {
      var rest := Left(l[1..], gone);
      LeftMore(l[1..], gone, x);
      assert ([l[0]] + rest)[1..] == rest;
      assert [] + rest == rest;
    }
  }

  lemma {:induction false} LeftSame(l: seq<string>, gone: seq<string>)
    requires forall i :: 0 <= i < |l| ==> l[i] !in gone
    ensures Left(l, gone) == l
  {
    if l != [] { LeftSame(l[1..], gone); }
  }

  lemma {:induction false} LeftWithout(l: seq<string>, k: nat)
    requires k < |l| && forall i :: 0 <= i < |l| && i != k ==> l[i] != l[k]
    ensures Left(l, [l[k]]) == l[..k] + l[k + 1..]
  {
    var rest := l[1..];
    if k == 0 {
      LeftSame(rest, [l[0]]);
      assert [] + rest == rest;
    } else {
      forall i | 0 <= i < |rest| && i != k - 1 ensures rest[i] != rest[k - 1] { assert rest[i] == l[i + 1]; }
      LeftWithout(rest, k - 1);
      assert l[0] != l[k] && rest[k - 1] == l[k];
      assert l[..k] == [l[0]] + rest[..k - 1] && rest[k..] == l[k + 1..];
      assert [l[0]] + (rest[..k - 1] + rest[k..]) == ([l[0]] + rest[..k - 1]) + rest[k..];
    }
  }

  ghost predicate Gone(revs: seq<Revision>, gone: seq<string>, id: string) {
    id in gone && Known(revs, id)
  }

  /** From the name `q` on, `n` parent links through revisions that are gone lead to `p`, which is not. */
  ghost predicate Skips(revs: seq<Revision>, gone: seq<string>, n: nat, q: string, p: string) {
    if n == 0 then q == p && !Gone(revs, gone, p)
    else Gone(revs, gone, q) && Skips(revs, gone, n - 1, ParentOf(revs, q), p)
  }

  /** `p` is the first name from `q` upwards that is not gone. */
  ghost predicate Nearest(revs: seq<Revision>, gone: seq<string>, q: string, p: string) {
    exists n: nat :: Skips(revs, gone, n, q, p)
  }

  /** `s` is what is left of `revs` without `gone`: the others in their order with the content they
      had, each below its nearest ancestor that is left. Where some document does not load nobody
      adopts anything, so they are as they were. */
  ghost predicate Survived(revs: seq<Revision>, gone: seq<string>, s: seq<Revision>) {
    && IdsOf(s) == Left(IdsOf(revs), gone)
    && forall i, j :: 0 <= i < |revs| && 0 <= j < |s| && revs[i].id == s[j].id ==>
         && Rehung(revs[i], OwnParent(s[j]), s[j])
         && if AllLoad(revs) then Nearest(revs, gone, OwnParent(revs[i]), OwnParent(s[j])) else s[j] == revs[i]
  }

  lemma {:induction false} SkipsMore(revs: seq<Revision>, gone: seq<string>, x: string, n: nat, q: string, p: string)
    requires Skips(revs, gone, n, q, p) && (p != x || !Known(revs, x) || x in gone)
    ensures Skips(revs, gone + [x], n, q, p)
    decreases n
  {
    if n > 0 { SkipsMore(revs, gone, x, n - 1, ParentOf(revs, q), p); }
  }

  lemma {:induction false} SkipsOn(revs: seq<Revision>, gone: seq<string>, x: string, n: nat, q: string, m: nat,
                                    p: string)
    requires Skips(revs, gone, n, q, x) && Known(revs, x) && Skips(revs, gone, m, ParentOf(revs, x), p) && p != x
    ensures Skips(revs, gone + [x], n + 1 + m, q, p)
    decreases n
  {
    if n == 0 {
      SkipsMore(revs, gone, x, m, ParentOf(revs, x), p);
    } else {
      SkipsOn(revs, gone, x, n - 1, ParentOf(revs, q), m, p);
    }
  }

  lemma SurvivedKnown(revs: seq<Revision>, gone: seq<string>, s: seq<Revision>, d: string)
    requires Survived(revs, gone, s)
    ensures Known(s, d) <==> Known(revs, d) && d !in gone
  {
    LeftMembers(IdsOf(revs), gone);
    KnownIsListed(revs, d);
    KnownIsListed(s, d);
  }

  lemma KnownIsListed(revs: seq<Revision>, d: string)
    ensures Known(revs, d) <==> d in IdsOf(revs)
  {
    if Known(revs, d) { var i :| 0 <= i < |revs| && revs[i].id == d; assert IdsOf(revs)[i] == d; }
    if d in IdsOf(revs) { var i :| 0 <= i < |revs| && IdsOf(revs)[i] == d; assert revs[i].id == d; }
  }

  lemma {:induction false} NothingGone(revs: seq<Revision>)
    requires UniqueIds(revs)
    ensures Survived(revs, [], revs)
  {
    LeftSame(IdsOf(revs), []);
    forall i | 0 <= i < |revs| ensures Nearest(revs, [], OwnParent(revs[i]), OwnParent(revs[i])) {
      assert Skips(revs, [], 0, OwnParent(revs[i]), OwnParent(revs[i]));
    }
  }

  /** An id that is not there may be named without effect. */
  lemma UnknownGone(revs: seq<Revision>, gone: seq<string>, s: seq<Revision>, x: string)
    requires Survived(revs, gone, s) && !Known(s, x)
    ensures Survived(revs, gone + [x], s)
  {
    SurvivedKnown(revs, gone, s, x);
    LeftMore(IdsOf(revs), gone, x);
    KnownIsListed(s, x);
    LeftSame(IdsOf(s), [x]);
    forall i, j | 0 <= i < |revs| && 0 <= j < |s| && revs[i].id == s[j].id && AllLoad(revs)
      ensures Nearest(revs, gone + [x], OwnParent(revs[i]), OwnParent(s[j]))
    {
      var n: nat :| Skips(revs, gone, n, OwnParent(revs[i]), OwnParent(s[j]));
      SkipsMore(revs, gone, x, n, OwnParent(revs[i]), OwnParent(s[j]));
    }
  }

  /** The parent of a revision that is there now, seen from the revisions that were there first. */
  lemma ParentSince(revs: seq<Revision>, gone: seq<string>, s: seq<Revision>, k: nat)
    requires UniqueIds(revs) && AllLoad(revs) && Survived(revs, gone, s) && k < |s|
    ensures Known(revs, s[k].id) && !Gone(revs, gone, s[k].id)
    ensures Nearest(revs, gone, ParentOf(revs, s[k].id), OwnParent(s[k]))
  {
    assert Known(s, s[k].id);
    SurvivedKnown(revs, gone, s, s[k].id);
    var i :| 0 <= i < |revs| && revs[i].id == s[k].id;
    ParentAt(revs, i);
  }

  /** Deleting one more. */
  lemma OneMoreGone(revs: seq<Revision>, gone: seq<string>, s: seq<Revision>, k: nat)
    requires UniqueIds(revs) && Survived(revs, gone, s) && (AllLoad(s) <==> AllLoad(revs))
    requires k < |s| && WellFormed(s) && (AllLoad(s) ==> Acyclic(s))
    ensures Survived(revs, gone + [s[k].id], DeleteOne(s, k))
  {
    hide AllLoad, Acyclic, Nearest, DeleteOne, Left, Rehung;
    var x, s' := s[k].id, DeleteOne(s, k);
    IdsAfter(revs, gone, s, k);
    forall i, j | 0 <= i < |revs| && 0 <= j < |s'| && revs[i].id == s'[j].id
      ensures Rehung(revs[i], OwnParent(s'[j]), s'[j])
      ensures if AllLoad(revs) then Nearest(revs, gone + [x], OwnParent(revs[i]), OwnParent(s'[j]))
              else s'[j] == revs[i]
    {
      OneLeft(revs, gone, s, k, i, j);
    }
  }

  lemma IdsAfter(revs: seq<Revision>, gone: seq<string>, s: seq<Revision>, k: nat)
    requires Survived(revs, gone, s) && k < |s| && UniqueIds(s)
    ensures IdsOf(DeleteOne(s, k)) == Left(IdsOf(revs), gone + [s[k].id])
  {
    hide Left, AllLoad, Nearest;
    LeftMore(IdsOf(revs), gone, s[k].id);
    LeftWithout(IdsOf(s), k);
    SpliceTakesOut(s, k);
    AdoptionTakesOut(s, k, {});
    assert IdsOf(DeleteOne(s, k)) == IdsOf(s)[..k] + IdsOf(s)[k + 1..];
  }

  lemma OneLeft(revs: seq<Revision>, gone: seq<string>, s: seq<Revision>, k: nat, i: nat, j: nat)
    requires UniqueIds(revs) && Survived(revs, gone, s) && (AllLoad(s) <==> AllLoad(revs))
    requires k < |s| && WellFormed(s) && (AllLoad(s) ==> Acyclic(s))
    requires i < |revs| && j < |DeleteOne(s, k)| && revs[i].id == DeleteOne(s, k)[j].id
    ensures var r := DeleteOne(s, k)[j];
      && Rehung(revs[i], OwnParent(r), r)
      && if AllLoad(revs) then Nearest(revs, gone + [s[k].id], OwnParent(revs[i]), OwnParent(r)) else r == revs[i]
  {
    hide Nearest, Acyclic, AllLoad, Splice, Without, IdsOf, Left;
    var o, s' := if j < k then j else j + 1, DeleteOne(s, k);
    if AllLoad(revs) {
      SpliceTakesOut(s, k);
      assert Rehung(revs[i], OwnParent(s[o]), s[o]);
      InChildSet(s, s[k].id, s[o].id);
      ParentAt(s, o);
      LoadedHere(s, o);
      ParentAfter(revs, gone, s, k, o, OwnParent(revs[i]));
    } else {
      AdoptionTakesOut(s, k, {});
      assert s[o] == revs[i];
    }
  }

  lemma LoadedHere(revs: seq<Revision>, i: nat)
    requires AllLoad(revs) && i < |revs|
    ensures revs[i].doc.Loaded?
  {
  }

  lemma ParentAfter(revs: seq<Revision>, gone: seq<string>, s: seq<Revision>, k: nat, o: nat, q: string)
    requires UniqueIds(revs) && AllLoad(revs) && Survived(revs, gone, s) && AllLoad(s)
    requires k < |s| && o < |s| && WellFormed(s) && Acyclic(s) && Nearest(revs, gone, q, OwnParent(s[o]))
    ensures Nearest(revs, gone + [s[k].id], q, if OwnParent(s[o]) == s[k].id then OwnParent(s[k]) else OwnParent(s[o]))
  {
    var x, p := s[k].id, OwnParent(s[o]);
    var n: nat :| Skips(revs, gone, n, q, p);
    if p == x {
      ParentAt(s, k);
      NotOwnParent(s, k);
      ParentSince(revs, gone, s, k);
      var m: nat :| Skips(revs, gone, m, ParentOf(revs, x), OwnParent(s[k]));
      SkipsOn(revs, gone, x, n, q, m, OwnParent(s[k]));
    } else {
      SkipsMore(revs, gone, x, n, q, p);
    }
  }

  ghost predicate IsBroken(revs: seq<Revision>, id: string) {
    exists i :: 0 <= i < |revs| && revs[i].id == id && revs[i].doc.Broken?
  }

  /** Over a whole run of deletions every snapshot that is left has the content it had, in the order
      there was, below its nearest ancestor that is left. The run reaches the first one that does not
      load, or the end. */
  lemma RunSurvives(revs: seq<Revision>, ids: seq<string>) returns (n: nat)
    requires WellFormed(revs) && (AllLoad(revs) ==> Acyclic(revs))
    ensures n <= |ids| && Survived(revs, ids[..n], DeleteRun(revs, ids))
    ensures (n < |ids| ==> IsBroken(revs, ids[n])) && forall m :: 0 <= m < n ==> !IsBroken(revs, ids[m])
  {
    hide Survived, IsBroken, Acyclic, AllLoad, DeleteRun;
    NothingGone(revs);
    n := RunSurvivesOn(revs, [], revs, ids);
    assert ([] + ids)[..n] == ids[..n];
  }

  lemma {:induction false} RunSurvivesOn(revs: seq<Revision>, gone: seq<string>, s: seq<Revision>, ids: seq<string>)
    returns (n: nat)
    requires WellFormed(revs) && WellFormed(s) && (AllLoad(s) <==> AllLoad(revs)) && (AllLoad(s) ==> Acyclic(s))
    requires Survived(revs, gone, s) && forall d :: d in gone ==> !IsBroken(revs, d)
    ensures |gone| <= n <= |gone + ids| && Survived(revs, (gone + ids)[..n], DeleteRun(s, ids))
    ensures n < |gone + ids| ==> IsBroken(revs, (gone + ids)[n])
    ensures forall m :: 0 <= m < n ==> !IsBroken(revs, (gone + ids)[m])
    decreases |ids|
  {
    n := |gone|;
    assert (gone + ids)[..n] == gone;
    if ids != [] {
      var x, k := ids[0], IndexOf(s, ids[0]);
      BrokenSince(revs, gone, s, x);
      if k == -1 {
        UnknownGone(revs, gone, s, x);
        n := RunSurvivesOn(revs, gone + [x], s, ids[1..]);
      } else if s[k].doc.Loaded? {
        OneMoreGone(revs, gone, s, k);
        DeleteOneKeeps(s, k);
        n := RunSurvivesOn(revs, gone + [x], DeleteOne(s, k), ids[1..]);
      }
      assert (gone + [x]) + ids[1..] == gone + ids;
    }
  }

  lemma BrokenSince(revs: seq<Revision>, gone: seq<string>, s: seq<Revision>, x: string)
    requires UniqueIds(revs) && UniqueIds(s) && Survived(revs, gone, s) && forall d :: d in gone ==> !IsBroken(revs, d)
    ensures IsBroken(revs, x) <==> IsBroken(s, x)
  {
    SurvivedKnown(revs, gone, s, x);
    if Known(s, x) && Known(revs, x) {
      var i :| 0 <= i < |revs| && revs[i].id == x;
      var j :| 0 <= j < |s| && s[j].id == x;
      assert Rehung(revs[i], OwnParent(s[j]), s[j]);
    }
  }

  lemma DeleteOneKeeps(revs: seq<Revision>, k: nat)
    requires k < |revs| && WellFormed(revs) && revs[k].doc.Loaded? && (AllLoad(revs) ==> Acyclic(revs))
    ensures var s := DeleteOne(revs, k);
      WellFormed(s) && (AllLoad(s) <==> AllLoad(revs)) && (AllLoad(s) ==> Acyclic(s))
  {
    if AllLoad(revs) {
      SpliceShape(revs, k);
      SplicePreservesForest(revs, k);
      SpliceTakesOut(revs, k);
    } else {
      WithoutKeeps(revs, k);
      StillBroken(revs, k);
    }
  }

  /** Where the head may be after deletions: still at its own snapshot, or at the nearest ancestor
      left of one that is gone. */
  ghost predicate HeadMoved(revs: seq<Revision>, gone: seq<string>, head: string, head': string) {
    (head' == head && !Gone(revs, gone, head)) || exists q :: Gone(revs, gone, q) && Nearest(revs, gone, q, head')
  }

  /** Deleting one snapshot moves the head to its parent if the head was there, and does not if the
      snapshot has no children to hand over. Otherwise the program reads a result it has not set. */
  ghost predicate HeadFollows(revs: seq<Revision>, name: string, head: string, head': string) {
    var k := IndexOf(revs, name);
    if k == -1 || revs[k].doc.Broken? then head' == head
    else if head == name then head' == revs[k].doc.parent
    else if ChildSet(revs, name) == {} || !AllLoad(revs) then head' == head
    else head' == head || head' == revs[k].doc.parent
  }

  lemma RunStart(revs: seq<Revision>, ids: seq<string>, head: string)
    requires WellFormed(revs)
    ensures Survived(revs, [], revs) && HeadMoved(revs, [], head, head)
  {
    NothingGone(revs);
  }

  lemma RunEnd(revs: seq<Revision>)
    ensures DeleteRun(revs, []) == revs
  {
  }

  lemma RunTurn(revs: seq<Revision>, ids: seq<string>)
    requires ids != []
    ensures var k := IndexOf(revs, ids[0]);
      DeleteRun(revs, ids) == if k != -1 && revs[k].doc.Broken? then revs
                              else DeleteRun(if k == -1 then revs else DeleteOne(revs, k), ids[1..])
  {
  }

  lemma TurnSurvives(revs: seq<Revision>, gone: seq<string>, s: seq<Revision>, x: string, start: string,
                     head: string, head': string)
    requires WellFormed(revs) && AllLoad(revs) && Survived(revs, gone, s) && AllLoad(s)
    requires WellFormed(s) && Acyclic(s) && HeadMoved(revs, gone, start, head) && HeadFollows(s, x, head, head')
    ensures var k := IndexOf(s, x); Survived(revs, gone + [x], if k == -1 then s else DeleteOne(s, k))
    ensures HeadMoved(revs, gone + [x], start, head')
  {
    hide Survived, HeadMoved, DeleteOne;
    var k := IndexOf(s, x);
    if k == -1 {
      UnknownGone(revs, gone, s, x);
      HeadUnmoved(revs, gone, s, x, start, head);
    } else {
      OneMoreGone(revs, gone, s, k);
      HeadStep(revs, gone, s, k, start, head, head');
    }
  }

  lemma HeadStep(revs: seq<Revision>, gone: seq<string>, s: seq<Revision>, k: nat, start: string, head: string,
                 head': string)
    requires UniqueIds(revs) && AllLoad(revs) && Survived(revs, gone, s) && AllLoad(s)
    requires k < |s| && WellFormed(s) && Acyclic(s) && HeadMoved(revs, gone, start, head)
    requires (head' == head && head != s[k].id) || head' == OwnParent(s[k])
    ensures HeadMoved(revs, gone + [s[k].id], start, head')
  {
    var x := s[k].id;
    if head' == OwnParent(s[k]) {
      ParentSince(revs, gone, s, k);
      ParentAt(s, k);
      NotOwnParent(s, k);
      var m: nat :| Skips(revs, gone, m, ParentOf(revs, x), head');
      SkipsOn(revs, gone, x, 0, x, m, head');
    } else if q :| Gone(revs, gone, q) && Nearest(revs, gone, q, head) {
      var n: nat :| Skips(revs, gone, n, q, head);
      SkipsMore(revs, gone, x, n, q, head);
    }
  }

  lemma HeadUnmoved(revs: seq<Revision>, gone: seq<string>, s: seq<Revision>, x: string, start: string, head: string)
    requires Survived(revs, gone, s) && !Known(s, x) && HeadMoved(revs, gone, start, head)
    ensures HeadMoved(revs, gone + [x], start, head)
  {
    SurvivedKnown(revs, gone, s, x);
    if q :| Gone(revs, gone, q) && Nearest(revs, gone, q, head) {
      var n: nat :| Skips(revs, gone, n, q, head);
      SkipsMore(revs, gone, x, n, q, head);
    }
  }

  /** Deleting a snapshot leaves children pointing at nothing exactly when it has children and
      some document of the flow does not load. */
  lemma OrphansExactly(revs: seq<Revision>, k: nat)
    requires k < |revs| && WellFormed(revs) && Acyclic(revs) && revs[k].doc.Loaded?
    ensures ChildSet(DeleteOne(revs, k), revs[k].id) == {} <==> AllLoad(revs) || ChildSet(revs, revs[k].id) == {}
  {
    var x, s := revs[k].id, DeleteOne(revs, k);
    ParentAt(revs, k);
    NotOwnParent(revs, k);
    if AllLoad(revs) {
      SplicePreservesForest(revs, k);
    } else {
      WithoutChildSet(revs, k, x);
    }
  }

  /** A root with a child, beside a revision whose document is broken: deleting the root leaves the
      child pointing at it. */
  lemma OrphanLeft()
    ensures var revs := PAIR + [Revision("c", Broken(""))]; "b" in ChildSet(DeleteOne(revs, 0), "a")
  {
    var revs := PAIR + [Revision("c", Broken(""))];
    assert revs[2].doc.Broken? && !AllLoad(revs);
    assert DeleteOne(revs, 0)[0] == PAIR[1];
  }

  /** Taking out a revision changes no other revision's children, but for itself. */
  lemma WithoutChildSet(revs: seq<Revision>, k: nat, x: string)
    requires k < |revs| && OwnParent(revs[k]) != x
    ensures ChildSet(Without(revs, k), x) == ChildSet(revs, x)
  {
    var s := Without(revs, k);
    forall c ensures c in ChildSet(s, x) <==> c in ChildSet(revs, x) {
      if c in ChildSet(s, x) {
        var i :| 0 <= i < |s| && OwnParent(s[i]) == x && s[i].id == c;
        assert s[i] == revs[if i < k then i else i + 1];
      }
      if c in ChildSet(revs, x) {
        var i :| 0 <= i < |revs| && OwnParent(revs[i]) == x && revs[i].id == c;
        assert i != k;
        assert revs[i] == s[if i < k then i else i - 1];
      }
    }
  }

  function TextSet(l: seq<CString>): set<string> {
    set i | 0 <= i < |l| :: l[i].text
  }

  ghost predicate Loads(revs: seq<Revision>, id: string) {
    exists i :: 0 <= i < |revs| && revs[i].id == id && revs[i].doc.Loaded?
  }

  lemma WithoutKeeps(revs: seq<Revision>, k: nat)
    requires k < |revs| && UniqueIds(revs)
    ensures UniqueIds(Without(revs, k))
    ensures forall d :: Known(Without(revs, k), d) <==> Known(revs, d) && d != revs[k].id
    ensures forall d :: Loads(Without(revs, k), d) <==> Loads(revs, d) && d != revs[k].id
  {
    var w := Without(revs, k);
    SpliceKnown(revs, w, k);
    forall d ensures Loads(w, d) <==> Loads(revs, d) && d != revs[k].id {
      WithoutLoads(revs, k, d);
    }
  }

  /** Children other than the revision taken out are known, and load, without it as with it. */
  lemma RestKeeps(revs: seq<Revision>, k: nat, kids: seq<CString>)
    requires k < |revs| && UniqueIds(revs)
    requires forall i :: 0 <= i < |kids| ==> Known(revs, kids[i].text) && kids[i].text != revs[k].id
    ensures UniqueIds(Without(revs, k))
    ensures forall i :: 0 <= i < |kids| ==> Known(Without(revs, k), kids[i].text)
    ensures forall i :: 0 <= i < |kids| ==> (Loads(revs, kids[i].text) <==> Loads(Without(revs, k), kids[i].text))
  {
    hide Known, Loads, UniqueIds, Without;
    WithoutKeeps(revs, k);
  }

  lemma WithoutLoads(revs: seq<Revision>, k: nat, d: string)
    requires k < |revs| && UniqueIds(revs)
    ensures Loads(Without(revs, k), d) <==> Loads(revs, d) && d != revs[k].id
  {
    var w := Without(revs, k);
    if Loads(w, d) {
      var i :| 0 <= i < |w| && w[i].id == d && w[i].doc.Loaded?;
      assert revs[if i < k then i else i + 1] == w[i];
    }
    if Loads(revs, d) && d != revs[k].id {
      var i :| 0 <= i < |revs| && revs[i].id == d && revs[i].doc.Loaded?;
      assert w[if i < k then i else i - 1] == revs[i];
    }
  }

  lemma AdoptKeepsIds(revs: seq<Revision>, who: set<string>, p: string, d: string)
    ensures Known(AdoptAll(revs, who, p), d) <==> Known(revs, d)
  {
    var a := AdoptAll(revs, who, p);
    if Known(a, d) { var i :| 0 <= i < |a| && a[i].id == d; assert revs[i].id == d; }
    if Known(revs, d) { var i :| 0 <= i < |revs| && revs[i].id == d; assert a[i].id == d; }
  }

  lemma AdoptStep(revs: seq<Revision>, kids: seq<CString>, i: nat, j: nat, p: string)
    requires UniqueIds(revs) && i < |kids| && j < |revs| && revs[j].id == kids[i].text && revs[j].doc.Loaded?
    ensures var a := AdoptAll(revs, TextSet(kids[..i]), p);
      a[j].doc.Loaded? && AdoptAll(revs, TextSet(kids[..i + 1]), p) == a[j := Adopt(a[j], p)]
  {
    assert TextSet(kids[..i + 1]) == TextSet(kids[..i]) + {kids[i].text} by {
      var more := kids[..i + 1];
      assert more == kids[..i] + [kids[i]];
      assert more[i].text == kids[i].text;
      forall c | c in TextSet(kids[..i]) ensures c in TextSet(more) {
        var n :| 0 <= n < i && kids[..i][n].text == c;
        assert more[n].text == c;
      }
    }
  }

  /** The rows of a fresh table name exactly the children, so a removal with it is a splice. */
  lemma FreshTableSplices(t: Table, revs: seq<Revision>, lo: nat, hi: nat, k: nat)
    requires k < |revs| && WellFormed(revs) && AllLoad(revs) && Acyclic(revs) && BuiltFrom(t, revs, lo, hi)
    ensures var kids := Lookup(t, revs[k].id);
      && (forall i :: 0 <= i < |kids| ==>
            Known(revs, kids[i].text) && kids[i].text != revs[k].id && Loads(revs, kids[i].text))
      && AdoptAll(Without(revs, k), TextSet(kids), OwnParent(revs[k])) == Splice(revs, k)
      && (kids == [] ==> Without(revs, k) == Splice(revs, k))
      && (kids == [] <==> ChildSet(revs, revs[k].id) == {})
  {
    var x := revs[k].id;
    var kids := Lookup(t, x);
    RowLists(t, revs, lo, hi, x);
    ParentAt(revs, k);
    NotOwnParent(revs, k);
    forall c ensures c in TextSet(kids) <==> c in ChildSet(revs, x) {
      if c in TextSet(kids) {
        var i :| 0 <= i < |kids| && kids[i].text == c;
        assert Texts(kids)[i] == c;
        assert multiset(Texts(kids))[c] > 0;
      }
      if c in ChildSet(revs, x) {
        assert c in multiset(Texts(kids));
        var i :| 0 <= i < |Texts(kids)| && Texts(kids)[i] == c;
      }
    }
    forall i | 0 <= i < |kids|
      ensures Known(revs, kids[i].text) && kids[i].text != x && Loads(revs, kids[i].text)
    {
      assert kids[i].text in TextSet(kids);
      var j :| 0 <= j < |revs| && OwnParent(revs[j]) == x && revs[j].id == kids[i].text;
      ParentAt(revs, j);
    }
    assert TextSet(kids) == ChildSet(revs, x);
    assert kids != [] ==> kids[0].text in TextSet(kids);
  }

  /** The GHashTable handed to a removal; a null reference stands for the NULL table. */
  class ChildTable {
    var rows: Table

    constructor (rows: Table)
      ensures this.rows == rows
    {
      this.rows := rows;
    }
  }

  class Flow {
    var revisions: seq<Revision>
    /** The snapshot the working copy descends from. */
    var head: string

    /** flow_revision_remove. The result is whatever was on the stack when an interior revision
        other than the head's parent goes, so nothing is promised about it there. */
    method Remove(id: CString, parentHead: string, table: ChildTable?) returns (result: bool)
      requires UniqueIds(revisions)
      requires forall i :: 0 <= i < |Kids(table, id)| ==>
        Known(revisions, Kids(table, id)[i].text) && Kids(table, id)[i].text != id.text
      modifies this`revisions, table
      ensures !Loads(old(revisions), id.text) ==> !result && unchanged(this) && (table != null ==> unchanged(table))
      ensures forall k ::
        0 <= k < |old(revisions)| && old(revisions)[k].id == id.text && old(revisions)[k].doc.Loaded? ==>
        Removal(id, parentHead, table, k, result)
    {
      hide TakenOut, AdoptAll, Without, TextSet;
      var k := FindRevision(revisions, id.text);
      assert forall j :: 0 <= j < |revisions| && revisions[j].id == id.text ==> j == k;
      if k == -1 || revisions[k].doc.Broken? {
        return false;
      }
      assert Loads(revisions, id.text);
      result := RemoveAt(k, id, parentHead, table);
    }

    function Kids(table: ChildTable?, id: CString): seq<CString>
      reads table
    {
      if table == null then [] else Lookup(table.rows, id.text)
    }

    /** What removing the loaded revision at `k` does: a leaf goes and nothing else happens; an
        interior revision goes, its children are adopted and the table is patched; a child that
        does not load stops the adoption half way. */
    twostate predicate Removal(id: CString, parentHead: string, table: ChildTable?, k: int, result: bool)
      requires 0 <= k < |old(revisions)|
      reads this, table
    {
      var before, kids := old(revisions), old(Kids(table, id));
      var parent := OwnParent(before[k]);
      if kids == [] then
        && revisions == Without(before, k) && TakenOut(before, k, {}, revisions)
        && result == (parentHead == id.text)
        && (table != null ==> table.rows == old(table.rows))
      else if forall i :: 0 <= i < |kids| ==> Loads(before, kids[i].text) then
        && revisions == AdoptAll(Without(before, k), TextSet(kids), parent)
        && TakenOut(before, k, TextSet(kids), revisions)
        && table.rows == Patch(old(table.rows), id, parent)
        && (parentHead == id.text ==> result)
      else
        && !result && table.rows == old(table.rows)
        && exists n :: 0 <= n < |kids| && !Loads(before, kids[n].text) &&
             revisions == AdoptAll(Without(before, k), TextSet(kids[..n]), parent) &&
             TakenOut(before, k, TextSet(kids[..n]), revisions)
    }

    method RemoveAt(k: nat, id: CString, parentHead: string, table: ChildTable?) returns (result: bool)
      requires UniqueIds(revisions)
      requires k < |revisions| && revisions[k].id == id.text && revisions[k].doc.Loaded?
      requires forall i :: 0 <= i < |Kids(table, id)| ==>
        Known(revisions, Kids(table, id)[i].text) && Kids(table, id)[i].text != id.text
      modifies this`revisions, table
      ensures Removal(id, parentHead, table, k, result)
    {
      hide Known, Loads, UniqueIds, AdoptAll, TakenOut, RemovePointer;
      ghost var before := revisions;
      AdoptionTakesOut(before, k, {});
      forall who ensures TakenOut(before, k, who, AdoptAll(Without(before, k), who, OwnParent(before[k]))) {
        AdoptionTakesOut(before, k, who);
      }
      var parent := revisions[k].doc.parent;
      var kids := if table == null then [] else Lookup(table.rows, id.text);
      assert kids == Kids(table, id);
      RestKeeps(before, k, kids);
      revisions := revisions[..k] + revisions[k + 1..];
      if kids == [] {
        return parentHead == id.text;
      }
      result := *;
      if id.text == parentHead { result := true; }
      var adopted := AdoptChildren(kids, parent);
      if !adopted {
        return false;
      }
      table.rows := table.rows[parent := RemovePointer(Lookup(table.rows, parent), id) + kids];
      table.rows := table.rows - {id.text};
    }

    /** Rewrites the parent of each child document, stopping at the first one that does not load. */
    method AdoptChildren(kids: seq<CString>, parent: string) returns (ok: bool)
      requires UniqueIds(revisions)
      requires forall i :: 0 <= i < |kids| ==> Known(revisions, kids[i].text)
      modifies this`revisions
      ensures ok <==> forall i :: 0 <= i < |kids| ==> Loads(old(revisions), kids[i].text)
      ensures ok ==> revisions == AdoptAll(old(revisions), TextSet(kids), parent)
      ensures !ok ==> exists n :: 0 <= n < |kids| && !Loads(old(revisions), kids[n].text) &&
                                  revisions == AdoptAll(old(revisions), TextSet(kids[..n]), parent)
    {
      ghost var rest := revisions;
      var i := 0;
      assert AdoptAll(rest, TextSet(kids[..0]), parent) == rest;
      while i < |kids|
        invariant 0 <= i <= |kids|
        invariant revisions == AdoptAll(rest, TextSet(kids[..i]), parent)
        invariant forall j :: 0 <= j < i ==> Loads(rest, kids[j].text)
      {
        AdoptKeepsIds(rest, TextSet(kids[..i]), parent, kids[i].text);
        var j := FindRevision(revisions, kids[i].text);
        assert rest[j].id == kids[i].text && rest[j].doc.Loaded? == revisions[j].doc.Loaded?;
        if revisions[j].doc.Broken? {
          assert !Loads(rest, kids[i].text);
          return false;
        }
        AdoptStep(rest, kids, i, j, parent);
        revisions := revisions[j := Adopt(revisions[j], parent)];
        i := i + 1;
      }
      assert kids[..|kids|] == kids;
      ok := true;
    }

    /** The deletion loop of the snapshot view: a table is built anew for each snapshot, and the
        head moves when the removal says so. */
    method DeleteSnapshots(ids: seq<string>)
      requires WellFormed(revisions) && (AllLoad(revisions) ==> Acyclic(revisions))
      modifies this
      ensures revisions == DeleteRun(old(revisions), ids)
      ensures exists n :: 0 <= n <= |ids| && Survived(old(revisions), ids[..n], revisions) &&
                (n < |ids| ==> IsBroken(old(revisions), ids[n]))
      ensures old(AllLoad(revisions)) ==>
        Survived(old(revisions), ids, revisions) && HeadMoved(old(revisions), ids, old(head), head)
      ensures old(Sound()) ==> Sound()
    {
      hide Survived, HeadMoved, HeadFollows, WellFormed, AllLoad, Acyclic, DeleteRun, DeleteOne, Sound, IsBroken;
      var n, heap, ok := 0, 0, true;
      ghost var before, sound, start := revisions, Sound(), head;
      ghost var reached := RunSurvives(before, ids);
      RunStart(before, ids, head);
      assert ids[0..] == ids && ids[..0] == [] && ids[..|ids|] == ids;
      while n < |ids|
        invariant 0 <= n <= |ids|
        invariant WellFormed(revisions) && (AllLoad(revisions) ==> Acyclic(revisions))
        invariant DeleteRun(revisions, ids[n..]) == DeleteRun(before, ids)
        invariant sound ==> Sound()
        invariant AllLoad(before) ==> AllLoad(revisions) && Survived(before, ids[..n], revisions)
        invariant AllLoad(before) ==> HeadMoved(before, ids[..n], start, head)
      {
        ghost var was, on := revisions, head;
        assert ids[n..][1..] == ids[n + 1..] && ids[..n + 1] == ids[..n] + [ids[n]];
        RunTurn(was, ids[n..]);
        ok, heap := DeleteNamed(ids[n], heap);
        if !ok { return; }
        if AllLoad(before) { TurnSurvives(before, ids[..n], was, ids[n], start, on, head); }
        n := n + 1;
      }
      assert ids[n..] == [];
      RunEnd(revisions);
    }

    /** No document names a missing snapshot, nor does the working copy. */
    ghost predicate Sound()
      reads this
    {
      AllLoad(revisions) && Closed(revisions) && (head == "" || Known(revisions, head))
    }

    /** One turn of the deletion loop; not ok when the snapshot's document is broken. */
    method DeleteNamed(name: string, heap: nat) returns (ok: bool, heap': nat)
      requires WellFormed(revisions) && (AllLoad(revisions) ==> Acyclic(revisions))
      modifies this
      ensures var k := IndexOf(old(revisions), name);
        && ok == (k == -1 || old(revisions)[k].doc.Loaded?)
        && revisions == if k == -1 || !ok then old(revisions) else DeleteOne(old(revisions), k)
      ensures WellFormed(revisions) && (AllLoad(revisions) ==> Acyclic(revisions))
      ensures old(AllLoad(revisions)) ==> ok && AllLoad(revisions)
      ensures HeadFollows(old(revisions), name, old(head), head)
      ensures old(Sound()) ==> Sound()
    {
      var k := FindRevision(revisions, name);
      if k == -1 { return true, heap; }
      assert k == IndexOf(revisions, name);
      if revisions[k].doc.Broken? { return false, heap; }
      var parent := revisions[k].doc.parent;
      var id := CString(heap, name);
      var rows, hi := CreateTable(revisions, heap + 1);
      ParentInFlow(revisions, k);
      var result := DeleteAt(k, id, rows, hi);
      if result { head := parent; }
      return true, hi;
    }

    /** One removal with a freshly built table, or with none when a document is broken. */
    method DeleteAt(k: nat, id: CString, rows: Option<Table>, hi: nat) returns (result: bool)
      requires WellFormed(revisions) && (AllLoad(revisions) ==> Acyclic(revisions))
      requires k < |revisions| && revisions[k].doc.Loaded? && revisions[k].id == id.text
      requires rows.Some? <==> AllLoad(revisions)
      requires rows.Some? ==> exists lo :: BuiltFrom(rows.value, revisions, lo, hi)
      modifies this`revisions
      ensures revisions == DeleteOne(old(revisions), k)
      ensures old(AllLoad(revisions)) ==> TakenOut(old(revisions), k, ChildSet(old(revisions), id.text), revisions)
      ensures !old(AllLoad(revisions)) ==> revisions == old(revisions[..k] + revisions[k + 1..])
      ensures WellFormed(revisions) && (AllLoad(revisions) ==> Acyclic(revisions))
      ensures old(AllLoad(revisions)) ==> AllLoad(revisions)
      ensures old(AllLoad(revisions) && Closed(revisions)) ==> Closed(revisions)
      ensures forall d :: Known(revisions, d) <==> old(Known(revisions, d)) && d != id.text
      ensures old(ChildSet(revisions, id.text) == {} || !AllLoad(revisions)) || head == id.text ==>
        result == (head == id.text)
    {
      hide TakenOut;
      ghost var before := revisions;
      SpliceTakesOut(before, k);
      assert IndexOf(before, id.text) == k;
      assert Loads(before, id.text);
      var table: ChildTable? := null;
      if rows.Some? {
        table := new ChildTable(rows.value);
        ghost var lo :| BuiltFrom(rows.value, before, lo, hi);
        FreshTableSplices(rows.value, before, lo, hi, k);
        SpliceShape(before, k);
        SplicePreservesForest(before, k);
        RowLists(rows.value, before, lo, hi, id.text);
        forall i | 0 <= i < |Splice(before, k)| ensures Splice(before, k)[i].id != "" { SpliceAt(before, k, i); }
      } else {
        WithoutKeeps(before, k);
        StillBroken(before, k);
      }
      result := Remove(id, head, table);
    }
  }

  lemma ParentInFlow(revs: seq<Revision>, k: nat)
    requires k < |revs| && WellFormed(revs)
    ensures AllLoad(revs) && Acyclic(revs) ==> OwnParent(revs[k]) != revs[k].id
    ensures Closed(revs) ==> OwnParent(revs[k]) == "" || Known(revs, OwnParent(revs[k]))
  {
    ParentAt(revs, k);
    if Acyclic(revs) { NotOwnParent(revs, k); }
  }

  lemma StillBroken(revs: seq<Revision>, k: nat)
    requires k < |revs| && revs[k].doc.Loaded? && !AllLoad(revs)
    ensures !AllLoad(Without(revs, k))
  {
    var i :| 0 <= i < |revs| && revs[i].doc.Broken?;
    assert Without(revs, k)[if i < k then i else i - 1] == revs[i];
  }
}
