/**
 What the lines of a configuration file may look like, and what each is read as (gebr/cmdline.c).
 The shapes are given as texts put together; `ShapeReads` and `ShapesExactly` say that the reader
 takes them apart again and refuses everything else.
 */
module ConfigLines {
  import opened ConfigFile

  predicate BlankOnly(s: string) { forall i :: 0 <= i < |s| ==> Blank(s[i]) }

  /** Nothing, or a comment to the end of the line. */
  predicate Comment(s: string) { s == "" || s[0] == '#' }

  predicate NameText(s: string) {
    (forall i :: 0 <= i < |s| ==> !Blank(s[i]) && s[i] != '=') && (s != "" ==> s[0] != '#')
  }

  predicate BareText(s: string) {
    forall i :: 0 <= i < |s| ==> !Blank(s[i]) && s[i] != '#' && s[i] != '"' && s[i] != '\''
  }

  /** How a value is written: as it is, or between two quotes of the same kind that it does not hold. */
  datatype Writing = Bare | Quoted(quote: char)

  /** The end of a line after a value: a comment, which after an unquoted value may be preceded by a
      stray quote, and blanks. */
  datatype End = End(stray: string, blanks: string, comment: string)

  /** A line with an option: blanks, the name, blanks, an equals sign or none, blanks, the value and
      the end. */
  datatype Parts = Parts(lead: string, name: string, before: string, equal: bool, after: string,
    writing: Writing, value: string, end: End)

  function Written(value: string, w: Writing): string {
    match w case Bare => value case Quoted(q) => [q] + value + [q]
  }

  function EndText(e: End): string { e.stray + (e.blanks + e.comment) }

  function Sign(equal: bool): string { if equal then "=" else "" }

  function Text(p: Parts): string {
    p.lead + (p.name + (p.before + (Sign(p.equal) + (p.after + (Written(p.value, p.writing) + EndText(p.end))))))
  }

  predicate GoodEnd(p: Parts) {
    && BlankOnly(p.end.blanks) && Comment(p.end.comment)
    && (p.end.stray != "" ==> p.writing == Bare && p.value != "" && (p.end.stray == "\"" || p.end.stray == "'"))
  }

  predicate GoodValue(p: Parts) {
    match p.writing
    case Bare =>
      BareText(p.value) && (p.value == "" ==> p.end.blanks == "") && (!p.equal && p.value != "" ==> p.value[0] != '=')
    case Quoted(q) => (q == '"' || q == '\'') && q !in p.value
  }

  /** An empty name stands right before the equals sign; without an equals sign, blanks come between a
      name and what follows. */
  predicate GoodParts(p: Parts) {
    && BlankOnly(p.lead) && NameText(p.name) && BlankOnly(p.before) && BlankOnly(p.after)
    && (p.name == "" ==> p.equal && p.before == "")
    && (!p.equal ==> p.after == "")
    && (!p.equal && p.before == "" ==> p.writing == Bare && p.value == "" && p.end.comment == "")
    && GoodValue(p) && GoodEnd(p)
  }

  /** What such a line is read as: `include` names a file; a name of one letter takes its value right
      behind it, a longer one behind an equals sign. */
  function Meaning(p: Parts): Line {
    if p.name == "include" then
      if p.value == "" then IncludeNothing else Include(p.value)
    else if |p.name| <= 1 then Argument("-" + p.name + p.value)
    else if p.equal || p.value != "" then Argument("--" + p.name + "=" + p.value)
    else Argument("--" + p.name)
  }

  // ---------------------------------------------------------------- putting together, taking apart

  lemma {:induction false} DropsBlanks(b: string, x: string)
    requires BlankOnly(b) && (x == "" || !Blank(x[0]))
    ensures DropBlanks(b + x) == x
  {
    if b == "" {
      assert b + x == x;
    } else {
      assert (b + x)[1..] == b[1..] + x;
      DropsBlanks(b[1..], x);
    }
  }

  lemma {:induction false} BlanksDropped(s: string) returns (b: string)
    ensures BlankOnly(b) && s == b + DropBlanks(s)
  {
    if s != "" && Blank(s[0]) {
      b := BlanksDropped(s[1..]);
      b := [s[0]] + b;
      assert s == [s[0]] + s[1..];
    } else {
      b := "";
    }
  }

  lemma NameRunsTo(name: string, x: string)
    requires NameText(name) && (x == "" || Blank(x[0]) || x[0] == '=')
    ensures NameEnd(name + x) == |name| && (name + x)[..|name|] == name && (name + x)[|name|..] == x
  {
    assert forall i :: 0 <= i < |name| ==> (name + x)[i] == name[i];
    assert x != "" ==> (name + x)[|name|] == x[0];
  }

  lemma BareRunsTo(v: string, x: string)
    requires BareText(v) && (x == "" || Blank(x[0]) || x[0] == '#' || Quote(x[0]))
    ensures BareEnd(v + x) == |v| && (v + x)[..|v|] == v && (v + x)[|v|..] == x
  {
    assert forall i :: 0 <= i < |v| ==> (v + x)[i] == v[i];
    assert x != "" ==> (v + x)[|v|] == x[0];
  }

  lemma QuoteRunsTo(v: string, q: char, x: string)
    requires q !in v
    ensures Find(v + ([q] + x), q) == |v|
  {
    var s := v + ([q] + x);
    assert s[|v|] == q && forall i :: 0 <= i < |v| ==> s[i] == v[i];
  }

  lemma CleanEnd(d: char, b: string, c: string)
    requires BlankOnly(b) && Comment(c)
    ensures CleanTail([d] + (b + c)) && CleanTail(c)
  {
    DropsBlanks(b, c);
    assert ([d] + (b + c))[1..] == b + c;
  }

  /** The value and what follows it. */
  lemma ValueReads(p: Parts)
    requires GoodParts(p)
    ensures ParseArgument(p.name, Written(p.value, p.writing) + EndText(p.end), p.equal) ==
      Assemble(p.name, p.value, p.equal)
  {
    match p.writing
    case Bare => BareReads(p);
    case Quoted(q) => QuotedReads(p, q);
  }

  lemma BareReads(p: Parts)
    requires GoodParts(p) && p.writing == Bare
    ensures ParseArgument(p.name, p.value + EndText(p.end), p.equal) == Assemble(p.name, p.value, p.equal)
  {
    hide CleanTail, BareEnd, Assemble, NameText;
    var x := EndText(p.end);
    EndReads(p.end);
    BareRunsTo(p.value, x);
    if p.value != "" { assert (p.value + x)[0] == p.value[0]; } else { assert p.value + x == p.end.comment; }
  }

  lemma QuotedReads(p: Parts, q: char)
    requires GoodParts(p) && p.writing == Quoted(q)
    ensures ParseArgument(p.name, ([q] + p.value + [q]) + EndText(p.end), p.equal) ==
      Assemble(p.name, p.value, p.equal)
  {
    hide CleanTail, Assemble, NameText, BareEnd;
    var x := p.end.blanks + p.end.comment;
    var rest := ([q] + p.value + [q]) + EndText(p.end);
    assert rest == [q] + (p.value + ([q] + x));
    assert rest[0] == q && rest[1..] == p.value + ([q] + x);
    QuoteRunsTo(p.value, q, x);
    assert rest[1..][|p.value|..] == [q] + x && rest[1..][..|p.value|] == p.value;
    CleanEnd(q, p.end.blanks, p.end.comment);
  }

  lemma EndReads(e: End)
    requires BlankOnly(e.blanks) && Comment(e.comment) && (e.stray != "" ==> e.stray == "\"" || e.stray == "'")
    ensures CleanTail(EndText(e))
    ensures EndText(e) == "" || Blank(EndText(e)[0]) || EndText(e)[0] == '#' || Quote(EndText(e)[0])
  {
    var x := EndText(e);
    if e.stray != "" {
      assert x == [e.stray[0]] + (e.blanks + e.comment);
      CleanEnd(e.stray[0], e.blanks, e.comment);
    } else if e.blanks != "" {
      assert x == [e.blanks[0]] + (e.blanks[1..] + e.comment);
      CleanEnd(e.blanks[0], e.blanks[1..], e.comment);
    } else {
      assert x == e.comment;
    }
  }

  lemma AssembleMeans(p: Parts)
    requires GoodParts(p)
    ensures Assemble(p.name, p.value, p.equal) == Meaning(p)
  {
    if p.name != "include" {
      if |p.name| > 1 {
        assert "--" + p.name + "=" + "" == "--" + p.name + "=";
        assert "--" + p.name + "" + "" == "--" + p.name;
      } else {
        assert "-" + p.name + "" + p.value == "-" + p.name + p.value;
      }
    }
  }

  /** Every line put together this way is read as what it means. */
  lemma ShapeReads(p: Parts)
    requires GoodParts(p)
    ensures ParseLine(Text(p)) == Meaning(p)
  {
    hide ParseArgument, Assemble, Meaning, Written, EndText, CleanTail;
    var wx := Written(p.value, p.writing) + EndText(p.end);
    var sep := p.before + (Sign(p.equal) + (p.after + wx));
    var l := p.name + sep;
    ValueStarts(p);
    SeparatorStarts(p);
    NameRunsTo(p.name, sep);
    assert l[0] == if p.name != "" then p.name[0] else sep[0];
    DropsBlanks(p.lead, l);
    ValueReads(p);
    AssembleMeans(p);
    if sep == "" {
      assert l == p.name;
      NameAlone(p.lead + l, l);
    } else {
      SeparatorReads(p, l);
    }
    assert Text(p) == p.lead + l;
  }

  lemma NameAlone(line: string, l: string)
    requires l == DropBlanks(line) && l != "" && l[0] != '#' && NameEnd(l) == |l|
    ensures ParseLine(line) == Assemble(l, "", false)
  {
  }

  lemma ValueStarts(p: Parts)
    requires GoodParts(p)
    ensures var wx := Written(p.value, p.writing) + EndText(p.end);
      && (wx != "" ==> !Blank(wx[0]) && (!p.equal ==> wx[0] != '='))
      && (!p.equal && p.before == "" ==> wx == "" && p.value == "")
  {
  }

  lemma SeparatorStarts(p: Parts)
    requires GoodParts(p)
    ensures var sep := p.before + (Sign(p.equal) + (p.after + (Written(p.value, p.writing) + EndText(p.end))));
      && (sep == "" <==> !p.equal && p.before == "")
      && (sep != "" ==> Blank(sep[0]) || sep[0] == '=')
      && (p.name == "" ==> sep != "" && sep[0] == '=')
  {
    ValueStarts(p);
  }

  lemma SeparatorReads(p: Parts, l: string)
    requires GoodParts(p)
    requires var sep := p.before + (Sign(p.equal) + (p.after + (Written(p.value, p.writing) + EndText(p.end))));
      l == p.name + sep && sep != "" && NameEnd(l) == |p.name|
    requires l[0] != '#' && !Blank(l[0])
    ensures ParseLine(p.lead + l) ==
      ParseArgument(p.name, Written(p.value, p.writing) + EndText(p.end), p.equal)
  {
    hide ParseLine, ParseArgument, Written, EndText, NameEnd;
    var wx := Written(p.value, p.writing) + EndText(p.end);
    ValueStarts(p);
    DropsBlanks(p.lead, l);
    if p.equal {
      SignReads(p.lead + l, p.name, p.before, p.after, wx);
    } else {
      assert "" + (p.after + wx) == wx;
      NoSignReads(p.lead + l, p.name, p.before, wx);
    }
  }

  lemma SignReads(line: string, name: string, before: string, after: string, x: string)
    requires var l := name + (before + ("=" + (after + x)));
      DropBlanks(line) == l && l[0] != '#' && NameEnd(l) == |name|
    requires BlankOnly(before) && BlankOnly(after) && (x == "" || !Blank(x[0]))
    ensures ParseLine(line) == ParseArgument(name, x, true)
  {
    hide ParseLine, ParseArgument, NameEnd, DropBlanks;
    var r := "=" + (after + x);
    var l, n := name + (before + r), |name|;
    AfterName(line, l, n);
    DropsBlanks(after, x);
    SkipOver("=", after + x);
    SkipOver(name, before + r);
    if before == "" {
      assert before + r == r;
    } else {
      OneBlankOff(before, r);
      DropsBlanks(before[1..], r);
    }
  }

  lemma OneBlankOff(before: string, x: string)
    requires before != ""
    ensures before + x != "" && (before + x)[0] == before[0] && (before + x)[1..] == before[1..] + x
  {
  }

  lemma NoSignReads(line: string, name: string, before: string, x: string)
    requires var l := name + (before + x); before != "" && DropBlanks(line) == l && l[0] != '#' && NameEnd(l) == |name|
    requires BlankOnly(before) && (x == "" || (!Blank(x[0]) && x[0] != '='))
    ensures ParseLine(line) == ParseArgument(name, x, false)
  {
    hide ParseLine, ParseArgument, NameEnd;
    var l, n := name + (before + x), |name|;
    AfterName(line, l, n);
    SkipOver(name, before + x);
    OneBlankOff(before, x);
    DropsBlanks(before[1..], x);
  }

  lemma SkipOver(a: string, x: string)
    ensures (a + x)[..|a|] == a && (a + x)[|a|..] == x && (x != "" ==> (a + x)[|a|] == x[0])
    ensures x != "" ==> (a + x)[|a| + 1..] == x[1..]
  {
  }

  lemma AfterName(line: string, l: string, n: nat)
    requires l == DropBlanks(line) && l != "" && l[0] != '#' && n == NameEnd(l) < |l|
    ensures ParseLine(line) ==
      if l[n] == '=' then ParseArgument(l[..n], DropBlanks(l[n + 1..]), true) else
        var r := DropBlanks(l[n + 1..]);
        if r != "" && r[0] == '=' then ParseArgument(l[..n], DropBlanks(r[1..]), true)
        else ParseArgument(l[..n], r, false)
  {
  }

  lemma CleanEndParts(after: string) returns (b: string, c: string)
    requires CleanTail(after) && after != "" && after[0] != '#'
    ensures BlankOnly(b) && Comment(c) && after == [after[0]] + (b + c)
  {
    b := BlanksDropped(after[1..]);
    c := DropBlanks(after[1..]);
    assert after == [after[0]] + after[1..];
  }

  /** Taking the value and the end of a line apart. */
  lemma ValueParts(start: Parts, rest: string) returns (p: Parts)
    requires !ParseArgument(start.name, rest, start.equal).Bad?
    requires rest == "" || (!Blank(rest[0]) && (!start.equal ==> rest[0] != '='))
    ensures p == start.(writing := p.writing, value := p.value, end := p.end)
    ensures GoodValue(p) && GoodEnd(p) && rest == Written(p.value, p.writing) + EndText(p.end)
    ensures rest == "" ==> p.writing == Bare && p.value == "" && p.end.comment == ""
  {
    if rest != "" && Quote(rest[0]) {
      var q, n := rest[0], Find(rest[1..], rest[0]);
      var v, after := rest[1..][..n], rest[1..][n..];
      var b, c := CleanEndParts(after);
      p := start.(writing := Quoted(q), value := v, end := End("", b, c));
      assert rest == [q] + (v + after);
      assert [q] + (v + ([q] + (b + c))) == ([q] + v + [q]) + (b + c);
      assert "" + (b + c) == b + c;
      assert q !in v;
    } else {
      p := BareParts(start, rest);
    }
  }

  lemma BareParts(start: Parts, rest: string) returns (p: Parts)
    requires CleanTail(rest[BareEnd(rest)..])
    requires rest == "" || (!Blank(rest[0]) && !Quote(rest[0]) && (!start.equal ==> rest[0] != '='))
    ensures p == start.(writing := Bare, value := p.value, end := p.end)
    ensures GoodValue(p) && GoodEnd(p) && rest == p.value + EndText(p.end)
    ensures rest == "" ==> p.value == "" && p.end.comment == ""
  {
    var n := BareEnd(rest);
    var v, tail := rest[..n], rest[n..];
    hide CleanTail, EndText;
    assert rest == v + tail;
    assert v == "" ==> tail == rest;
    var e := EndParts(tail);
    p := start.(writing := Bare, value := v, end := e);
  }

  lemma EndParts(tail: string) returns (e: End)
    requires CleanTail(tail) && (tail != "" ==> Blank(tail[0]) || tail[0] == '#' || Quote(tail[0]))
    ensures tail == EndText(e) && BlankOnly(e.blanks) && Comment(e.comment)
    ensures e.stray != "" ==> (e.stray == "\"" || e.stray == "'") && Quote(tail[0])
    ensures tail == "" || tail[0] == '#' ==> e.blanks == "" && e.comment == tail
  {
    hide CleanTail;
    if tail == "" || tail[0] == '#' {
      e := End("", "", tail);
    } else {
      var b, c := CleanEndParts(tail);
      if Blank(tail[0]) {
        e := End("", [tail[0]] + b, c);
        assert EndText(e) == [tail[0]] + (b + c);
      } else {
        e := End([tail[0]], b, c);
      }
    }
  }

  /** Taking a whole line apart. */
  lemma LineParts(line: string) returns (p: Parts)
    requires !ParseLine(line).Bad? && DropBlanks(line) != "" && DropBlanks(line)[0] != '#'
    ensures GoodParts(p) && Text(p) == line
  {
    hide ParseArgument, ParseLine, GoodParts, Text;
    var lead := BlanksDropped(line);
    var l := DropBlanks(line);
    var n := NameEnd(l);
    var start := Parts(lead, l[..n], "", false, "", Bare, "", End("", "", ""));
    assert l == l[..n] + l[n..] && NameText(l[..n]);
    if n == |l| {
      p := start;
      NothingAfter(p);
      assert l[n..] == "" && l[..n] + "" == l[..n];
    } else {
      p := PartsAfterName(line, l, start);
    }
  }

  lemma PartsAfterName(line: string, l: string, start: Parts) returns (p: Parts)
    requires !ParseLine(line).Bad? && line == start.lead + l && l == DropBlanks(line) && l != "" && l[0] != '#'
    requires BlankOnly(start.lead) && NameEnd(l) < |l| && start.name == l[..NameEnd(l)] && NameText(start.name)
    requires start == Parts(start.lead, start.name, "", false, "", Bare, "", End("", "", ""))
    ensures GoodParts(p) && Text(p) == line
  {
    hide ParseArgument, ParseLine, GoodParts, Text, BlankOnly, NameText, DropBlanks;
    var n := NameEnd(l);
    AfterName(line, l, n);
    BlanksFromIs(l, n);
    var r, before := DropBlanks(l[n + 1..]), BlanksFrom(l, n);
    assert l == start.name + l[n..] && l[n..][1..] == l[n + 1..];
    NoBlanks();
    if l[n] == '=' {
      assert "" + l[n..] == l[n..];
      p := SignParts(start.(equal := true), l[n..]);
    } else if r != "" && r[0] == '=' {
      p := SignParts(start.(before := before, equal := true), r);
    } else {
      p := NoSignParts(start.(before := before), r);
    }
  }

  lemma NoBlanks()
    ensures BlankOnly("")
  {
  }

  lemma NothingAfter(p: Parts)
    requires BlankOnly(p.lead) && NameText(p.name) && p.name != ""
    requires p == Parts(p.lead, p.name, "", false, "", Bare, "", End("", "", ""))
    ensures GoodParts(p) && Text(p) == p.lead + p.name
  {
  }

  lemma SignParts(start: Parts, r: string) returns (p: Parts)
    requires BlankOnly(start.lead) && NameText(start.name) && BlankOnly(start.before) && start.equal
    requires start.name == "" ==> start.before == ""
    requires r != "" && r[0] == '=' && !ParseArgument(start.name, DropBlanks(r[1..]), true).Bad?
    ensures GoodParts(p) && Text(p) == start.lead + (start.name + (start.before + r))
  {
    hide ParseArgument, GoodValue, GoodEnd, EndText, Written;
    var after := BlanksDropped(r[1..]);
    p := ValueParts(start.(after := after), DropBlanks(r[1..]));
    assert r == "=" + (after + DropBlanks(r[1..]));
  }

  lemma NoSignParts(start: Parts, r: string) returns (p: Parts)
    requires BlankOnly(start.lead) && NameText(start.name) && BlankOnly(start.before) && !start.equal
    requires start.name != "" && start.before != "" && start.after == ""
    requires r == "" || (!Blank(r[0]) && r[0] != '=')
    requires !ParseArgument(start.name, r, false).Bad?
    ensures GoodParts(p) && Text(p) == start.lead + (start.name + (start.before + r))
  {
    hide ParseArgument, GoodValue, GoodEnd, EndText, Written;
    p := ValueParts(start, r);
    assert "" + ("" + r) == r;
  }

  /** The blanks at a place that holds one. */
  function BlanksFrom(l: string, n: nat): string
    requires n < |l|
  {
    l[n..|l| - |DropBlanks(l[n + 1..])|]
  }

  lemma BlanksFromIs(l: string, n: nat)
    requires n < |l|
    ensures l[n..] == BlanksFrom(l, n) + DropBlanks(l[n + 1..])
    ensures Blank(l[n]) ==> BlankOnly(BlanksFrom(l, n)) && BlanksFrom(l, n) != ""
  {
    var b := BlanksDropped(l[n + 1..]);
    var r := DropBlanks(l[n + 1..]);
    assert l[n..] == [l[n]] + (b + r) && [l[n]] + (b + r) == ([l[n]] + b) + r;
    assert BlanksFrom(l, n) == [l[n]] + b;
  }

  /** Blank lines and comments, and no others, are skipped; the lines of none of these shapes, and no
      others, are bad. */
  lemma ShapesExactly(line: string)
    ensures ParseLine(line).Skip? <==> exists b, c :: BlankOnly(b) && Comment(c) && line == b + c
    ensures ParseLine(line).Bad? <==>
      (forall b, c :: BlankOnly(b) && Comment(c) ==> line != b + c) && forall p :: GoodParts(p) ==> Text(p) != line
  {
    hide ParseArgument, GoodParts, Text, Meaning;
    forall b, c | BlankOnly(b) && Comment(c) ensures line == b + c ==> ParseLine(line).Skip? { DropsBlanks(b, c); }
    forall p | GoodParts(p) ensures Text(p) == line ==> !ParseLine(line).Bad? && !ParseLine(line).Skip? {
      if Text(p) == line { ShapeReads(p); }
      NoOtherMeaning(p);
    }
    var lead := BlanksDropped(line);
    if DropBlanks(line) == "" || DropBlanks(line)[0] == '#' {
      assert Comment(DropBlanks(line));
    } else if !ParseLine(line).Bad? {
      var p := LineParts(line);
      assert GoodParts(p) && Text(p) == line;
    }
  }

  lemma NoOtherMeaning(p: Parts)
    ensures !Meaning(p).Bad? && !Meaning(p).Skip?
  {
  }
}
