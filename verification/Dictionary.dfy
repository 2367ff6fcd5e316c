/**
 Dictionary variables of a project, a line and a flow: which of them are offered for completion
 (gebr/gebr-dictionary.c) and which value a parameter takes from them (gebr/flow.c).
 */
module Dictionary {
  import opened Strings

  /** From the narrowest document to the widest. */
  datatype Scope = FlowDoc | LineDoc | ProjectDoc

  function Rank(s: Scope): nat {
    match s case FlowDoc => 0 case LineDoc => 1 case ProjectDoc => 2
  }

  /** A variable of a document of scope `base` can be used in one of scope `s`. */
  predicate Contains(base: Scope, s: Scope) {
    match base
    case ProjectDoc => true
    case LineDoc => s != ProjectDoc
    case FlowDoc => s == FlowDoc
  }

  datatype Variable = Variable(keyword: string, kind: string, value: string)

  type Doc = seq<Variable>

  datatype Row =
    | VariableRow(keyword: Option<string>, kind: string, scope: Scope, result: string)
    | PathRow(name: string, path: string)

  ghost predicate UniqueKeywords(d: Doc) {
    forall i, j :: 0 <= i < j < |d| ==> d[i].keyword != d[j].keyword
  }

  // ---------------------------------------------------------------- the completion store

  function RowFor(v: Variable, s: Scope): Row { VariableRow(Some(v.keyword), v.kind, s, "= " + v.value) }

  function RowsFor(d: Doc, s: Scope): (r: seq<Row>)
    ensures |r| == |d| && forall i :: 0 <= i < |d| ==> r[i] == RowFor(d[i], s)
  {
    seq(|d|, i requires 0 <= i < |d| => RowFor(d[i], s))
  }

  function PathRows(paths: seq<(string, string)>): (r: seq<Row>)
    ensures |r| == |paths| && forall i :: 0 <= i < |r| ==> r[i] == PathRow(paths[i].1, paths[i].0)
  {
    seq(|paths|, i requires 0 <= i < |paths| => PathRow(paths[i].1, paths[i].0))
  }

  /** Documents in the order flow, line, project, up to the first one that is not there. */
  function StoreRows(flow: Option<Doc>, line: Option<Doc>, proj: Option<Doc>): seq<Row> {
    if flow.None? then []
    else if line.None? then RowsFor(flow.value, FlowDoc)
    else if proj.None? then RowsFor(flow.value, FlowDoc) + RowsFor(line.value, LineDoc)
    else RowsFor(flow.value, FlowDoc) + RowsFor(line.value, LineDoc) + RowsFor(proj.value, ProjectDoc)
  }

  class DictComplete {
    var flow: Option<Doc>
    var line: Option<Doc>
    var proj: Option<Doc>
    var paths: seq<(string, string)>
    var store: seq<Row>

    method UpdateModel()
      modifies `store
      ensures store == StoreRows(flow, line, proj) + PathRows(paths)
    {
      store := [];
      var docs := [(flow, FlowDoc), (line, LineDoc), (proj, ProjectDoc)];
      var i := 0;
      while i < |docs| && docs[i].0.Some?
        invariant i <= 3
        invariant (i > 0 ==> flow.Some?) && (i > 1 ==> line.Some?) && (i > 2 ==> proj.Some?)
        invariant store ==
          StoreRows(if i > 0 then flow else None, if i > 1 then line else None, if i > 2 then proj else None)
      {
        InsertVariables(docs[i].0.value, docs[i].1);
        i := i + 1;
      }
      assert store == StoreRows(flow, line, proj);
      InsertPaths();
    }

    method InsertVariables(d: Doc, s: Scope)
      modifies `store
      ensures store == old(store) + RowsFor(d, s)
    {
      for j := 0 to |d|
        invariant store == old(store) + RowsFor(d[..j], s)
      {
        assert RowsFor(d[..j + 1], s) == RowsFor(d[..j], s) + [RowFor(d[j], s)];
        store := store + [RowFor(d[j], s)];
      }
      assert d[..|d|] == d;
    }

    method InsertPaths()
      modifies `store
      ensures store == old(store) + PathRows(paths)
    {
      for j := 0 to |paths|
        invariant store == old(store) + PathRows(paths[..j])
      {
        assert PathRows(paths[..j + 1]) == PathRows(paths[..j]) + [PathRow(paths[j].1, paths[j].0)];
        store := store + [PathRow(paths[j].1, paths[j].0)];
      }
      assert paths[..|paths|] == paths;
    }

    /** visible_func for the row at `i`, a wanted type and a document scope. */
    method VisibleFunc(i: nat, wanted: string, wantsFile: bool, scope: Scope, compatible: (string, string) -> bool)
      returns (v: bool)
      requires i < |store|
      ensures v ==
        if store[i].PathRow? then wantsFile else Unshadowed(store, i, scope) && compatible(wanted, store[i].kind)
    {
      if store[i].PathRow? { return wantsFile; }
      if !Contains(store[i].scope, scope) { return false; }
      if store[i].keyword.None? { return false; }
      for j := 0 to |store|
        invariant forall k :: 0 <= k < j ==> !Shadows(store[k], store[i])
      {
        if store[j].PathRow? || store[j].keyword.None? { continue; }
        if store[j].keyword == store[i].keyword && Rank(store[i].scope) > Rank(store[j].scope) { return false; }
      }
      v := compatible(wanted, store[i].kind);
    }
  }

  predicate Shadows(other: Row, row: Row) {
    other.VariableRow? && row.VariableRow? && row.keyword.Some? && other.keyword == row.keyword &&
    Rank(other.scope) < Rank(row.scope)
  }

  /** A variable row that is usable in the scope and not shadowed, before types are looked at. */
  predicate Unshadowed(store: seq<Row>, i: nat, scope: Scope)
    requires i < |store|
  {
    store[i].VariableRow? && store[i].keyword.Some? && Contains(store[i].scope, scope) &&
    forall k :: 0 <= k < |store| ==> !Shadows(store[k], store[i])
  }

  // ---------------------------------------------------------------- which definition wins

  /** The value a document gives a keyword: its first variable of that name. */
  function Lookup(d: Doc, keyword: string): Option<string> {
    if d == [] then None else if d[0].keyword == keyword then Some(d[0].value) else Lookup(d[1..], keyword)
  }

  /** The narrowest document that defines the keyword. */
  function Narrowest(flow: Doc, line: Doc, proj: Doc, keyword: string): Option<Scope> {
    if Lookup(flow, keyword).Some? then Some(FlowDoc)
    else if Lookup(line, keyword).Some? then Some(LineDoc)
    else if Lookup(proj, keyword).Some? then Some(ProjectDoc)
    else None
  }

  function DocOf(flow: Doc, line: Doc, proj: Doc, s: Scope): Doc {
    match s case FlowDoc => flow case LineDoc => line case ProjectDoc => proj
  }

  lemma {:induction false} LookupAt(d: Doc, keyword: string)
    ensures Lookup(d, keyword).Some? <==> exists i :: 0 <= i < |d| && d[i].keyword == keyword
    ensures UniqueKeywords(d) ==>
      forall i :: 0 <= i < |d| && d[i].keyword == keyword ==> Lookup(d, keyword) == Some(d[i].value)
  {
    if d != [] {
      LookupAt(d[1..], keyword);
      forall i | 0 <= i < |d| && d[i].keyword == keyword
        ensures Lookup(d, keyword).Some? && (UniqueKeywords(d) ==> Lookup(d, keyword) == Some(d[i].value))
      {
        if i > 0 { assert d[1..][i - 1] == d[i]; }
      }
      if Lookup(d, keyword).Some? && d[0].keyword != keyword {
        var i :| 0 <= i < |d[1..]| && d[1..][i].keyword == keyword;
        assert d[i + 1].keyword == keyword;
      }
    }
  }

  function FullStore(flow: Doc, line: Doc, proj: Doc, paths: seq<(string, string)>): seq<Row> {
    StoreRows(Some(flow), Some(line), Some(proj)) + PathRows(paths)
  }

  /** A document that is not there ends the filling: nothing of the wider ones is offered, not even of
      one that is there. */
  lemma StoreEnds(flow: Doc, line: Doc, rest: Option<Doc>, more: Option<Doc>)
    ensures StoreRows(None, rest, more) == []
    ensures StoreRows(Some(flow), None, more) ==
      seq(|flow|, i requires 0 <= i < |flow| =>
        VariableRow(Some(flow[i].keyword), flow[i].kind, FlowDoc, "= " + flow[i].value))
    ensures var st := StoreRows(Some(flow), Some(line), None);
      && |st| == |flow| + |line|
      && (forall i :: 0 <= i < |flow| ==>
            st[i] == VariableRow(Some(flow[i].keyword), flow[i].kind, FlowDoc, "= " + flow[i].value))
      && forall i :: 0 <= i < |line| ==>
            st[|flow| + i] == VariableRow(Some(line[i].keyword), line[i].kind, LineDoc, "= " + line[i].value)
  {
  }

  /** Where the variable of index `i` in the document of scope `s` stands in the store. */
  function Place(flow: Doc, line: Doc, s: Scope, i: nat): nat {
    match s case FlowDoc => i case LineDoc => |flow| + i case ProjectDoc => |flow| + |line| + i
  }

  lemma StoreAt(flow: Doc, line: Doc, proj: Doc, paths: seq<(string, string)>, s: Scope, i: nat)
    requires i < |DocOf(flow, line, proj, s)|
    ensures var st := FullStore(flow, line, proj, paths);
      Place(flow, line, s, i) < |st| && st[Place(flow, line, s, i)] == RowFor(DocOf(flow, line, proj, s)[i], s)
  {
  }

  lemma StoreFrom(flow: Doc, line: Doc, proj: Doc, paths: seq<(string, string)>, k: nat) returns (s: Scope, i: nat)
    requires k < |FullStore(flow, line, proj, paths)| && FullStore(flow, line, proj, paths)[k].VariableRow?
    ensures i < |DocOf(flow, line, proj, s)| && k == Place(flow, line, s, i)
  {
    if k < |flow| { s, i := FlowDoc, k; }
    else if k < |flow| + |line| { s, i := LineDoc, k - |flow|; }
    else { s, i := ProjectDoc, k - |flow| - |line|; }
  }

  /** A variable is offered in a scope exactly when its document reaches the scope and it is the
      narrowest one of all three documents to define the keyword. */
  lemma OfferedIffNarrowest(flow: Doc, line: Doc, proj: Doc, paths: seq<(string, string)>, s: Scope, i: nat,
                            scope: Scope)
    requires i < |DocOf(flow, line, proj, s)|
    ensures var v := DocOf(flow, line, proj, s)[i]; var st := FullStore(flow, line, proj, paths);
      var at := Place(flow, line, s, i);
      at < |st| && (Unshadowed(st, at, scope) <==>
        Contains(s, scope) && Narrowest(flow, line, proj, v.keyword) == Some(s))
  {
    hide FullStore, Lookup;
    var v, st, at := DocOf(flow, line, proj, s)[i], FullStore(flow, line, proj, paths), Place(flow, line, s, i);
    StoreAt(flow, line, proj, paths, s, i);
    LookupAt(flow, v.keyword);
    LookupAt(line, v.keyword);
    LookupAt(proj, v.keyword);
    if Narrowest(flow, line, proj, v.keyword) != Some(s) {
      var n := Narrowest(flow, line, proj, v.keyword).value;
      var j :| 0 <= j < |DocOf(flow, line, proj, n)| && DocOf(flow, line, proj, n)[j].keyword == v.keyword;
      StoreAt(flow, line, proj, paths, n, j);
      assert Shadows(st[Place(flow, line, n, j)], st[at]);
    } else if Contains(s, scope) {
      forall k | 0 <= k < |st| ensures !Shadows(st[k], st[at]) {
        if Shadows(st[k], st[at]) {
          var n, j := StoreFrom(flow, line, proj, paths, k);
          StoreAt(flow, line, proj, paths, n, j);
        }
      }
    }
  }

  /** Told document by document: a flow's variable is offered to the flow alone; a line's, to the line
      and to a flow, unless the flow defines the keyword; a project's, everywhere, unless the flow or
      the line defines it. */
  lemma OfferedWhere(flow: Doc, line: Doc, proj: Doc, paths: seq<(string, string)>, s: Scope, i: nat, scope: Scope)
    requires i < |DocOf(flow, line, proj, s)|
    ensures var v := DocOf(flow, line, proj, s)[i]; var st := FullStore(flow, line, proj, paths);
      var at := match s case FlowDoc => i case LineDoc => |flow| + i case ProjectDoc => |flow| + |line| + i;
      var inFlow := exists j :: 0 <= j < |flow| && flow[j].keyword == v.keyword;
      var inLine := exists j :: 0 <= j < |line| && line[j].keyword == v.keyword;
      && at < |st| && st[at] == VariableRow(Some(v.keyword), v.kind, s, "= " + v.value)
      && (Unshadowed(st, at, scope) <==>
          match s
          case FlowDoc => scope == FlowDoc
          case LineDoc => scope != ProjectDoc && !inFlow
          case ProjectDoc => !inFlow && !inLine)
  {
    var v := DocOf(flow, line, proj, s)[i];
    OfferedIffNarrowest(flow, line, proj, paths, s, i, scope);
    StoreAt(flow, line, proj, paths, s, i);
    LookupAt(flow, v.keyword);
    LookupAt(line, v.keyword);
    LookupAt(proj, v.keyword);
    hide FullStore, Unshadowed, Lookup;
  }

  // ---------------------------------------------------------------- copying values

  /** A parameter that may refer to a variable, and its values. */
  datatype Parameter = Plain(dictKeyword: Option<string>, first: string, others: seq<string>)

  /** The value given by the last document, in the order project, line, flow, that has one. */
  method CopyFromDicts(p: Parameter, flow: Doc, line: Doc, proj: Doc) returns (p': Parameter)
    ensures p' == Copied(p, flow, line, proj)
  {
    var docs := [proj, line, flow];
    p' := p;
    var i := 0;
    while i < |docs|
      invariant i <= 3 && p'.dictKeyword == p.dictKeyword && p'.others == p.others
      invariant p'.first == (
        if p.dictKeyword.None? then p.first
        else if i > 2 && Lookup(flow, p.dictKeyword.value).Some? then Lookup(flow, p.dictKeyword.value).value
        else if i > 1 && Lookup(line, p.dictKeyword.value).Some? then Lookup(line, p.dictKeyword.value).value
        else if i > 0 && Lookup(proj, p.dictKeyword.value).Some? then Lookup(proj, p.dictKeyword.value).value
        else p.first)
    {
      if p.dictKeyword.Some? {
        var found := Lookup(docs[i], p.dictKeyword.value);
        if found.Some? { p' := p'.(first := found.value); }
      }
      i := i + 1;
    }
    p' := p'.(dictKeyword := None);
  }

  /** The reference is resolved to the narrowest definition and then dropped. */
  function Copied(p: Parameter, flow: Doc, line: Doc, proj: Doc): Parameter {
    var n := if p.dictKeyword.None? then None else Narrowest(flow, line, proj, p.dictKeyword.value);
    if n.None? then p.(dictKeyword := None)
    else p.(dictKeyword := None, first := Lookup(DocOf(flow, line, proj, n.value), p.dictKeyword.value).value)
  }

  /** A parameter that refers to nothing, or to a keyword no document defines, keeps its value; in any
      case the reference is dropped and the other values stay. */
  lemma NothingCopied(p: Parameter, flow: Doc, line: Doc, proj: Doc)
    ensures var p' := Copied(p, flow, line, proj);
      && p'.dictKeyword == None && p'.others == p.others
      && (p.dictKeyword.None? || (forall v :: v in flow || v in line || v in proj ==> v.keyword != p.dictKeyword.value)
          ==> p'.first == p.first)
  {
    if p.dictKeyword.Some? {
      LookupAt(flow, p.dictKeyword.value);
      LookupAt(line, p.dictKeyword.value);
      LookupAt(proj, p.dictKeyword.value);
    }
  }

  /** In a flow, the one variable offered for a keyword is the one a reference to it resolves to. */
  lemma OfferedIsCopied(flow: Doc, line: Doc, proj: Doc, paths: seq<(string, string)>, s: Scope, i: nat,
                        first: string, others: seq<string>)
    requires UniqueKeywords(flow) && UniqueKeywords(line) && UniqueKeywords(proj)
    requires i < |DocOf(flow, line, proj, s)|
    ensures var v := DocOf(flow, line, proj, s)[i]; var st := FullStore(flow, line, proj, paths);
      var at := Place(flow, line, s, i);
      at < |st| && (Unshadowed(st, at, FlowDoc) ==>
        && Copied(Plain(Some(v.keyword), first, others), flow, line, proj) == Plain(None, v.value, others)
        && st[at].result == "= " + v.value
        && forall k :: 0 <= k < |st| && k != at && Unshadowed(st, k, FlowDoc) ==> st[k].keyword != Some(v.keyword))
  {
    var v, st, at := DocOf(flow, line, proj, s)[i], FullStore(flow, line, proj, paths), Place(flow, line, s, i);
    OfferedIffNarrowest(flow, line, proj, paths, s, i, FlowDoc);
    StoreAt(flow, line, proj, paths, s, i);
    LookupAt(DocOf(flow, line, proj, s), v.keyword);
    if Unshadowed(st, at, FlowDoc) {
      forall k | 0 <= k < |st| && k != at && Unshadowed(st, k, FlowDoc) ensures st[k].keyword != Some(v.keyword) {
        var n, j := StoreFrom(flow, line, proj, paths, k);
        StoreAt(flow, line, proj, paths, n, j);
        OfferedIffNarrowest(flow, line, proj, paths, n, j, FlowDoc);
      }
    }
  }

  /** At any scope a defined keyword is offered by some document exactly when the narrowest
      definition reaches the scope: a narrower one hides the others even where it cannot be used. */
  lemma KeywordOffered(flow: Doc, line: Doc, proj: Doc, paths: seq<(string, string)>, keyword: string, scope: Scope)
    ensures var st := FullStore(flow, line, proj, paths); var n := Narrowest(flow, line, proj, keyword);
      (exists k :: 0 <= k < |st| && Unshadowed(st, k, scope) && st[k].keyword == Some(keyword)) <==>
      n.Some? && Contains(n.value, scope)
  {
    var st, n := FullStore(flow, line, proj, paths), Narrowest(flow, line, proj, keyword);
    if k :| 0 <= k < |st| && Unshadowed(st, k, scope) && st[k].keyword == Some(keyword) {
      var s, i := StoreFrom(flow, line, proj, paths, k);
      StoreAt(flow, line, proj, paths, s, i);
      OfferedIffNarrowest(flow, line, proj, paths, s, i, scope);
    }
    if n.Some? && Contains(n.value, scope) {
      LookupAt(DocOf(flow, line, proj, n.value), keyword);
      var i :| 0 <= i < |DocOf(flow, line, proj, n.value)| && DocOf(flow, line, proj, n.value)[i].keyword == keyword;
      StoreAt(flow, line, proj, paths, n.value, i);
      OfferedIffNarrowest(flow, line, proj, paths, n.value, i, scope);
      assert st[Place(flow, line, n.value, i)].keyword == Some(keyword);
    }
  }

  /** A keyword that both the flow and the line define is not offered where only the line's may be
      used. */
  lemma KeywordHidden()
    ensures var d := [Variable("k", "", "")]; var st := FullStore(d, d, [], []);
      !exists k :: 0 <= k < |st| && Unshadowed(st, k, LineDoc) && st[k].keyword == Some("k")
  {
    var d := [Variable("k", "", "")];
    LookupAt(d, "k");
    assert d[0].keyword == "k";
    KeywordOffered(d, d, [], [], "k", LineDoc);
  }
}
