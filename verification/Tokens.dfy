/**
 Comma separated option values (gebr/cmdline.c): `\,` stands for a comma that does not separate.
 The C code looks at the character before the one it stands on, so `prev` is what precedes the
 argument in memory.
 */
module Tokens {
  import opened Strings

  // ---------------------------------------------------------------- what a token is

  /** The index of the first comma not preceded by a backslash, or the length. */
  function TokenEnd(prev: char, s: string): (n: nat)
    ensures n <= |s|
    ensures n < |s| ==> s[n] == ',' && Before(prev, s, n) != '\\'
    ensures forall i :: 0 <= i < n && s[i] == ',' ==> Before(prev, s, i) == '\\'
    decreases |s|
  {
    if s == "" || (s[0] == ',' && prev != '\\') then 0 else 1 + TokenEnd(s[0], s[1..])
  }

  function Before(prev: char, s: string, i: nat): char
    requires i <= |s|
  {
    if i == 0 then prev else s[i - 1]
  }

  /** Drops every backslash that stands right before a comma. */
  function Unescape(s: string): string {
    if s == "" then ""
    else if |s| >= 2 && s[0] == '\\' && s[1] == ',' then [','] + Unescape(s[2..])
    else [s[0]] + Unescape(s[1..])
  }

  function Commas(s: string): nat {
    if s == "" then 0 else (if s[0] == ',' then 1 else 0) + Commas(s[1..])
  }

  /** A comma right at the start that counts as escaped by the character before the argument. */
  predicate EscapedFromOutside(prev: char, s: string) {
    prev == '\\' && s != "" && s[0] == ','
  }

  lemma {:induction false} UnescapeLength(prev: char, s: string)
    requires forall i :: 0 <= i < |s| && s[i] == ',' ==> Before(prev, s, i) == '\\'
    ensures |Unescape(s)| + Commas(s) == |s| + if EscapedFromOutside(prev, s) then 1 else 0
    decreases |s|
  {
    if s != "" {
      forall i | 0 <= i < |s[1..]| && s[1..][i] == ',' ensures Before(s[0], s[1..], i) == '\\' {
        assert s[i + 1] == ',' && Before(prev, s, i + 1) == '\\';
      }
      if |s| >= 2 && s[0] == '\\' && s[1] == ',' {
        forall i | 0 <= i < |s[2..]| && s[2..][i] == ',' ensures Before(',', s[2..], i) == '\\' {
          assert s[i + 2] == ',' && Before(prev, s, i + 2) == '\\';
        }
        UnescapeLength(',', s[2..]);
        assert s[1..][1..] == s[2..];
      } else {
        UnescapeLength(s[0], s[1..]);
      }
    }
  }

  /** One extracted token. The length is computed as if every escaped comma cost a backslash, so a
      comma escaped from outside costs the token its last character. */
  function Token(prev: char, s: string): string {
    var u := Unescape(s[..TokenEnd(prev, s)]);
    if EscapedFromOutside(prev, s) && u != "" then u[..|u| - 1] else u
  }

  /** What is left after the token and its comma; nothing when the comma ends the string. */
  function Next(prev: char, s: string): Option<string> {
    var n := TokenEnd(prev, s);
    if |s| - n <= 1 then None else Some(s[n + 1..])
  }

  function Tokens(prev: char, s: string): (r: seq<string>)
    ensures |r| >= 1
    decreases |s|
  {
    [Token(prev, s)] + match Next(prev, s) case None => [] case Some(rest) => Tokens(',', rest)
  }

  // ---------------------------------------------------------------- the loops over the buffer

  /** The two strchr loops: where the token ends and how many escaped commas were passed. */
  method ScanToken(prev: char, arg: string) returns (tok: nat, escapes: nat)
    ensures tok == TokenEnd(prev, arg) && escapes == Commas(arg[..tok])
  {
    tok := FindComma(arg, 0);
    escapes := 0;
    CommasNone(arg[..tok]);
    while tok < |arg|
      invariant tok <= |arg| && (tok < |arg| ==> arg[tok] == ',')
      invariant escapes == Commas(arg[..tok])
      invariant forall i :: 0 <= i < tok && arg[i] == ',' ==> Before(prev, arg, i) == '\\'
    {
      if Before(prev, arg, tok) != '\\' { break; }
      ghost var old' := tok;
      tok := FindComma(arg, tok + 1);
      escapes := escapes + 1;
      assert arg[..tok] == arg[..old'] + [','] + arg[old' + 1..tok];
      CommasNone(arg[old' + 1..tok]);
      CommasConcat(arg[..old'] + [','], arg[old' + 1..tok]);
      CommasConcat(arg[..old'], [',']);
    }
    TokenEndUnique(prev, arg, tok);
  }

  /** strchr for a comma; the length when there is none. */
  method FindComma(s: string, from: nat) returns (k: nat)
    requires from <= |s|
    ensures from <= k <= |s| && (k < |s| ==> s[k] == ',')
    ensures forall i :: from <= i < k ==> s[i] != ','
  {
    k := from;
    while k < |s| && s[k] != ','
      invariant from <= k <= |s|
      invariant forall i :: from <= i < k ==> s[i] != ','
    {
      k := k + 1;
    }
  }

  lemma {:induction false} CommasNone(s: string)
    requires ',' !in s
    ensures Commas(s) == 0
  {
    if s != "" {
      assert s == [s[0]] + s[1..];
      CommasNone(s[1..]);
    }
  }

  lemma {:induction false} CommasConcat(a: string, b: string)
    ensures Commas(a + b) == Commas(a) + Commas(b)
  {
    if a == "" {
      assert a + b == b;
    } else {
      CommasConcat(a[1..], b);
      assert (a + b)[1..] == a[1..] + b;
    }
  }

  lemma TokenEndUnique(prev: char, s: string, n: nat)
    requires n <= |s| && (n < |s| ==> s[n] == ',' && Before(prev, s, n) != '\\')
    requires forall i :: 0 <= i < n && s[i] == ',' ==> Before(prev, s, i) == '\\'
    ensures TokenEnd(prev, s) == n
  {
  }

  /** get_multiple_arg_token: a fresh zero-terminated buffer of exactly the computed length. */
  method GetMultipleArgToken(prev: char, arg: string) returns (ret: array<char>)
    ensures fresh(ret) && ret.Length == |Token(prev, arg)| + 1 && ret[ret.Length - 1] == '\0'
    ensures ret[..ret.Length - 1] == Token(prev, arg)
  {
    var tok, escapes := ScanToken(prev, arg);
    ghost var seg := arg[..tok];
    ghost var full := Unescape(seg);
    UnescapeLength(prev, seg);
    assert EscapedFromOutside(prev, arg) ==> tok > 0;
    assert EscapedFromOutside(prev, seg) == EscapedFromOutside(prev, arg);
    var len := tok + 1 - escapes;
    ret := new char[len];
    CopyUnescaped(arg, tok, ret);
    ret[len - 1] := '\0';
    assert ret[..len - 1] == full[..len - 1];
  }

  /** The copying loop: fills all but the last place of `ret`. */
  method CopyUnescaped(arg: string, ghost tok: nat, ret: array<char>)
    requires tok <= |arg| && (0 < tok < |arg| && arg[tok] == ',' ==> arg[tok - 1] != '\\')
    requires 1 <= ret.Length <= |Unescape(arg[..tok])| + 1
    modifies ret
    ensures ret[..ret.Length - 1] == Unescape(arg[..tok])[..ret.Length - 1]
  {
    hide Unescape;
    ghost var seg := arg[..tok];
    ghost var full := Unescape(seg);
    var i, j := 0, 0;
    assert seg[0..] == seg && full[0..] == full;
    while i < |arg| && j < ret.Length - 1
      invariant 0 <= i <= tok && 0 <= j <= ret.Length - 1
      invariant forall k :: 0 <= k < j ==> ret[k] == full[k]
      invariant full[j..] == Unescape(seg[i..])
    {
      UnescapeStep(seg, i);
      if arg[i] == '\\' && i + 1 < |arg| && arg[i + 1] == ',' {
        i := i + 1;
      }
      TailStep(full, j);
      ret[j] := arg[i];
      i := i + 1;
      j := j + 1;
    }
    if i == |arg| { UnescapeStep(seg, i); }
  }

  lemma TailStep(s: string, j: nat)
    requires j < |s|
    ensures s[j..] == [s[j]] + s[j + 1..] && s[j..][1..] == s[j + 1..] && s[j..][0] == s[j]
  {
  }

  lemma UnescapeStep(seg: string, i: nat)
    requires i <= |seg|
    ensures i == |seg| ==> Unescape(seg[i..]) == ""
    ensures i < |seg| && !(seg[i] == '\\' && i + 1 < |seg| && seg[i + 1] == ',') ==>
      Unescape(seg[i..]) == [seg[i]] + Unescape(seg[i + 1..])
    ensures i + 1 < |seg| && seg[i] == '\\' && seg[i + 1] == ',' ==>
      Unescape(seg[i..]) == [','] + Unescape(seg[i + 2..])
  {
    if i < |seg| { assert seg[i..][1..] == seg[i + 1..]; }
    if i + 1 < |seg| { assert seg[i..][2..] == seg[i + 2..]; }
  }

  /** get_multiple_arg_token_next. */
  method GetMultipleArgTokenNext(prev: char, arg: string) returns (next: Option<string>)
    ensures next == Next(prev, arg)
  {
    var tok, escapes := ScanToken(prev, arg);
    if tok == |arg| || |arg[tok..]| == 1 {
      next := None;
    } else {
      next := Some(arg[tok + 1..]);
    }
  }

  /** update_multiple_arg_temp: every token goes to the head of the list. */
  method UpdateMultipleArgTemp(list: seq<string>, given: nat, prev: char, val: string)
    returns (list': seq<string>, given': nat)
    ensures list' == Reverse(Tokens(prev, val)) + list
    ensures given' == given + |Tokens(prev, val)|
  {
    list', given' := list, given;
    var token, next := TakeToken(prev, val);
    ghost var p, rest := prev, val;
    ghost var target, count := Reverse(Tokens(prev, val)) + list, given + |Tokens(prev, val)|;
    while true
      invariant token == Token(p, rest) && next == Next(p, rest)
      invariant target == Reverse(Tokens(p, rest)) + list' && count == given' + |Tokens(p, rest)|
      decreases |rest|
    {
      PushStep(p, rest, list');
      list' := [token] + list';
      given' := given' + 1;
      if next.None? { break; }
      p, rest := ',', next.value;
      token, next := TakeToken(',', next.value);
    }
  }

  lemma PushStep(prev: char, s: string, list: seq<string>)
    ensures Reverse(Tokens(prev, s)) + list == Reverse(Rest(prev, s)) + ([Token(prev, s)] + list)
    ensures |Tokens(prev, s)| == 1 + |Rest(prev, s)|
  {
    var all := [Token(prev, s)] + Rest(prev, s);
    assert Tokens(prev, s) == all && all[1..] == Rest(prev, s);
  }

  function Rest(prev: char, s: string): seq<string> {
    match Next(prev, s) case None => [] case Some(rest) => Tokens(',', rest)
  }

  method TakeToken(prev: char, arg: string) returns (token: string, next: Option<string>)
    ensures token == Token(prev, arg) && next == Next(prev, arg)
  {
    var buffer := GetMultipleArgToken(prev, arg);
    token := buffer[..buffer.Length - 1];
    next := GetMultipleArgTokenNext(prev, arg);
  }

  /** update_multiple_arg: the field grows and the list is copied in from the end, so the values
      land after the old ones in the order they were given. */
  method UpdateMultipleArg(field: array<string>, list: seq<string>, prevGiven: nat) returns (field': array<string>)
    requires prevGiven == |list|
    ensures field'[..] == field[..] + Reverse(list)
  {
    if prevGiven == 0 {
      field' := field;
      assert Reverse(list) == [];
      return;
    }
    var fieldGiven := field.Length;
    field' := new string[fieldGiven + prevGiven](i requires 0 <= i < fieldGiven + prevGiven reads field =>
      if i < fieldGiven then field[i] else "");
    assert field'[..fieldGiven] == field[..];
    EmptyInto(list, field', fieldGiven);
    assert field'[..] == field[..] + Reverse(list);
  }

  // ---------------------------------------------------------------- splitting, then unescaping

  /** The raw pieces between separating commas. */
  function Segments(prev: char, s: string): (r: seq<string>)
    ensures |r| >= 1
    decreases |s|
  {
    if s == "" then [""]
    else if s[0] == ',' && prev != '\\' then [""] + Segments(',', s[1..])
    else
      var rest := Segments(s[0], s[1..]);
      [[s[0]] + rest[0]] + rest[1..]
  }

  function DropTrailingEmpty(segs: seq<string>): seq<string> {
    if |segs| > 1 && segs[|segs| - 1] == "" then segs[..|segs| - 1] else segs
  }

  function UnescapeAll(segs: seq<string>): seq<string> {
    seq(|segs|, i requires 0 <= i < |segs| => Unescape(segs[i]))
  }

  lemma {:induction false} SegmentsAt(prev: char, s: string)
    ensures var n := TokenEnd(prev, s);
      Segments(prev, s) == if n == |s| then [s] else [s[..n]] + Segments(',', s[n + 1..])
    decreases |s|
  {
    if s != "" && !(s[0] == ',' && prev != '\\') {
      SegmentsAt(s[0], s[1..]);
      LaterCut(s, TokenEnd(s[0], s[1..]));
    }
  }

  /** A place in the rest of a string is one further on in the string. */
  lemma LaterCut(s: string, m: nat)
    requires s != "" && m <= |s[1..]|
    ensures [s[0]] + s[1..] == s && [s[0]] + s[1..][..m] == s[..m + 1]
    ensures m < |s[1..]| ==> s[1..][m + 1..] == s[m + 2..]
  {
  }

  lemma DropTrailingCons(x: string, segs: seq<string>)
    requires |segs| >= 1 && segs != [""]
    ensures DropTrailingEmpty([x] + segs) == [x] + DropTrailingEmpty(segs)
  {
  }

  lemma UnescapeAllCons(x: string, segs: seq<string>)
    ensures UnescapeAll([x] + segs) == [Unescape(x)] + UnescapeAll(segs)
  {
  }

  /** Repeated extraction is splitting at separating commas, dropping one empty piece at the end
      and unescaping, exactly when the argument does not begin with a comma that the character
      before it seems to escape. */
  lemma {:induction false} TokensRefineSplit(prev: char, s: string)
    ensures Tokens(prev, s) == UnescapeAll(DropTrailingEmpty(Segments(prev, s))) <==> !EscapedFromOutside(prev, s)
    decreases |s|
  {
    var n := TokenEnd(prev, s);
    var first := s[..n];
    SegmentsAt(prev, s);
    if n == |s| {
      assert first == s;
      assert UnescapeAll([s]) == [Unescape(s)];
    } else {
      var rest := s[n + 1..];
      if rest == "" {
        assert DropTrailingEmpty([first] + [""]) == [first];
        assert UnescapeAll([first]) == [Unescape(first)];
      } else {
        TokensRefineSplit(',', rest);
        SegmentsAt(',', rest);
        DropTrailingCons(first, Segments(',', rest));
        UnescapeAllCons(first, DropTrailingEmpty(Segments(',', rest)));
      }
    }
    if EscapedFromOutside(prev, s) {
      assert first[0] == ',' && Unescape(first) != "";
      assert |Token(prev, s)| < |Unescape(first)|;
      assert DropTrailingEmpty(Segments(prev, s))[0] == first;
      assert Tokens(prev, s)[0] != UnescapeAll(DropTrailingEmpty(Segments(prev, s)))[0];
    }
  }

  // ---------------------------------------------------------------- escaping and joining

  function Escape(t: string): string {
    if t == "" then "" else (if t[0] == ',' then ['\\', ','] else [t[0]]) + Escape(t[1..])
  }

  function Join(ts: seq<string>): string
    requires |ts| >= 1
  {
    if |ts| == 1 then Escape(ts[0]) else Escape(ts[0]) + [','] + Join(ts[1..])
  }

  /** The character the next comma would look back at. */
  function LastOr(prev: char, t: string): char {
    if t == "" then prev else t[|t| - 1]
  }

  /** No token but the last leaves a backslash before its comma, and the last one is not lost. */
  predicate Joinable(prev: char, ts: seq<string>)
    requires |ts| >= 1
    decreases |ts|
  {
    |ts| == 1 || (LastOr(prev, ts[0]) != '\\' && ts[|ts| - 1] != "" && Joinable(',', ts[1..]))
  }

  /** The same condition place by place. */
  lemma {:induction false} JoinableMeaning(prev: char, ts: seq<string>)
    requires |ts| >= 1
    ensures Joinable(prev, ts) <==>
      && (|ts| > 1 ==> ts[|ts| - 1] != "")
      && (forall i :: 0 <= i < |ts| - 1 ==> LastOr(if i == 0 then prev else ',', ts[i]) != '\\')
    decreases |ts|
  {
    if |ts| > 1 {
      JoinableMeaning(',', ts[1..]);
      assert forall i :: 0 <= i < |ts| - 2 ==> ts[1..][i] == ts[i + 1];
      if forall i :: 0 <= i < |ts| - 1 ==> LastOr(if i == 0 then prev else ',', ts[i]) != '\\' {
        forall i | 0 <= i < |ts[1..]| - 1 ensures LastOr(if i == 0 then ',' else ',', ts[1..][i]) != '\\' {
          assert LastOr(if i + 1 == 0 then prev else ',', ts[i + 1]) != '\\';
        }
      }
      if Joinable(prev, ts) {
        forall i | 0 <= i < |ts| - 1 ensures LastOr(if i == 0 then prev else ',', ts[i]) != '\\' {
          if i > 0 { assert LastOr(if i - 1 == 0 then ',' else ',', ts[1..][i - 1]) != '\\'; }
        }
      }
    }
  }

  lemma {:induction false} UnescapeEscape(t: string)
    ensures Unescape(Escape(t)) == t
    ensures Escape(t) != "" ==> Escape(t)[0] != ','
  {
    if t != "" {
      UnescapeEscape(t[1..]);
      assert Escape(t)[if t[0] == ',' then 2 else 1..] == Escape(t[1..]);
      assert t == [t[0]] + t[1..];
    }
  }

  lemma OverEscape(prev: char, y: string)
    ensures TokenEnd(prev, ['\\', ','] + y) == 2 + TokenEnd(',', y)
    ensures Separators(prev, ['\\', ','] + y) == Separators(',', y)
  {
    var s := ['\\', ','] + y;
    assert s[1..] == [','] + y && s[1..][1..] == y;
    assert TokenEnd(prev, s) == 1 + TokenEnd('\\', s[1..]);
    assert Separators(prev, s) == Separators('\\', s[1..]);
  }

  lemma OverPlain(prev: char, c: char, y: string)
    requires c != ','
    ensures TokenEnd(prev, [c] + y) == 1 + TokenEnd(c, y) && Separators(prev, [c] + y) == Separators(c, y)
  {
    assert ([c] + y)[1..] == y;
  }

  lemma EscapeCons(t: string, x: string)
    requires t != ""
    ensures Escape(t) + x == (if t[0] == ',' then ['\\', ','] else [t[0]]) + (Escape(t[1..]) + x)
    ensures |Escape(t)| == (if t[0] == ',' then 2 else 1) + |Escape(t[1..])|
  {
    Associative(if t[0] == ',' then ['\\', ','] else [t[0]], Escape(t[1..]), x);
  }

  /** Scanning an escaped token runs through it and looks at what follows. */
  lemma {:induction false} ScanEscaped(prev: char, t: string, x: string)
    ensures TokenEnd(prev, Escape(t) + x) == |Escape(t)| + TokenEnd(LastOr(prev, t), x)
    ensures Separators(prev, Escape(t) + x) == Separators(LastOr(prev, t), x)
    decreases |t|
  {
    if t == "" {
      assert Escape(t) + x == x;
    } else {
      var y := Escape(t[1..]) + x;
      ScanEscaped(t[0], t[1..], x);
      EscapeCons(t, x);
      assert LastOr(t[0], t[1..]) == LastOr(prev, t);
      if t[0] == ',' {
        OverEscape(prev, y);
      } else {
        OverPlain(prev, t[0], y);
      }
    }
  }

  /** The number of separating commas. */
  function Separators(prev: char, s: string): nat
    decreases |s|
  {
    if s == "" then 0 else (if s[0] == ',' && prev != '\\' then 1 else 0) + Separators(s[0], s[1..])
  }

  lemma {:induction false} SeparatorsAt(prev: char, s: string)
    ensures var n := TokenEnd(prev, s);
      Separators(prev, s) == if n == |s| then 0 else 1 + Separators(',', s[n + 1..])
    decreases |s|
  {
    if s != "" && !(s[0] == ',' && prev != '\\') {
      SeparatorsAt(s[0], s[1..]);
      var m := TokenEnd(s[0], s[1..]);
      if m < |s[1..]| { assert s[1..][m + 1..] == s[m + 2..]; }
    }
  }

  /** There is at most one token more than there are separators. */
  lemma {:induction false} TokenCount(prev: char, s: string)
    ensures |Tokens(prev, s)| <= Separators(prev, s) + 1
    decreases |s|
  {
    hide Token, TokenEnd, Separators;
    SeparatorsAt(prev, s);
    var n := TokenEnd(prev, s);
    if |s| - n > 1 {
      TokenCount(',', s[n + 1..]);
    }
  }

  lemma {:induction false} SeparatorsOfJoin(prev: char, ts: seq<string>)
    requires |ts| >= 1
    ensures Separators(prev, Join(ts)) <= |ts| - 1
    decreases |ts|
  {
    if |ts| == 1 {
      ScanEscaped(prev, ts[0], "");
      assert Escape(ts[0]) + "" == Escape(ts[0]);
    } else {
      JoinSplits(prev, ts);
      SeparatorsOfJoin(',', ts[1..]);
    }
  }

  /** Where the first token of a joined list seems to end, and what that does to the separators. */
  lemma JoinSplits(prev: char, ts: seq<string>)
    requires |ts| > 1
    ensures LastOr(prev, ts[0]) != '\\' ==> TokenEnd(prev, Join(ts)) == |Escape(ts[0])|
    ensures Separators(prev, Join(ts)) ==
      Separators(',', Join(ts[1..])) + if LastOr(prev, ts[0]) != '\\' then 1 else 0
  {
    var x := [','] + Join(ts[1..]);
    assert Join(ts) == Escape(ts[0]) + x;
    assert x[1..] == Join(ts[1..]);
    ScanEscaped(prev, ts[0], x);
  }

  /** Extraction undoes escaping and joining for exactly the joinable lists. */
  lemma {:induction false} JoinThenExtract(prev: char, ts: seq<string>)
    requires |ts| >= 1
    ensures Tokens(prev, Join(ts)) == ts <==> Joinable(prev, ts)
    decreases |ts|
  {
    if |ts| == 1 {
      ExtractSingle(prev, ts[0]);
    } else {
      ExtractStep(prev, ts);
      JoinEmpty(ts[1..]);
      JoinThenExtract(',', ts[1..]);
    }
  }

  lemma ExtractStep(prev: char, ts: seq<string>)
    requires |ts| > 1
    ensures Tokens(prev, Join(ts)) == ts <==>
      LastOr(prev, ts[0]) != '\\' && Join(ts[1..]) != "" && Tokens(',', Join(ts[1..])) == ts[1..]
  {
    hide Token, Next, Escape, Unescape, TokenEnd, Separators;
    if LastOr(prev, ts[0]) == '\\' {
      JoinSplits(prev, ts);
      SeparatorsOfJoin(',', ts[1..]);
      TokenCount(prev, Join(ts));
    } else {
      RestOfJoin(prev, ts);
      assert ts == [ts[0]] + ts[1..];
    }
  }

  lemma RestOfJoin(prev: char, ts: seq<string>)
    requires |ts| > 1 && LastOr(prev, ts[0]) != '\\'
    ensures var j := Join(ts[1..]);
      Tokens(prev, Join(ts)) == [ts[0]] + if j == "" then [] else Tokens(',', j)
  {
    FirstOfJoin(prev, ts);
  }

  lemma ExtractSingle(prev: char, t: string)
    ensures Tokens(prev, Escape(t)) == [t]
  {
    UnescapeEscape(t);
    ScanEscaped(prev, t, "");
    assert Escape(t) + "" == Escape(t);
    assert Escape(t)[..|Escape(t)|] == Escape(t);
  }

  lemma FirstOfJoin(prev: char, ts: seq<string>)
    requires |ts| > 1 && LastOr(prev, ts[0]) != '\\'
    ensures Token(prev, Join(ts)) == ts[0]
    ensures Next(prev, Join(ts)) == if Join(ts[1..]) == "" then None else Some(Join(ts[1..]))
  {
    JoinSplits(prev, ts);
    UnescapeEscape(ts[0]);
    var e, j := Escape(ts[0]), Join(ts[1..]);
    assert Join(ts) == e + [','] + j;
    assert Join(ts)[..|e|] == e && Join(ts)[|e| + 1..] == j;
    assert e == "" ==> ts[0] == "";
  }

  lemma JoinEmpty(ts: seq<string>)
    requires |ts| >= 1
    ensures Join(ts) == "" <==> ts == [""]
  {
  }

  // ---------------------------------------------------------------- values with and without commas

  lemma {:induction false} UnescapePlain(s: string)
    ensures |Unescape(s)| <= |s|
    ensures ',' !in s ==> Unescape(s) == s
    decreases |s|
  {
    if s != "" {
      UnescapePlain(s[1..]);
      assert s == [s[0]] + s[1..];
      if |s| >= 2 {
        UnescapePlain(s[2..]);
        assert s[1] in s;
      }
    }
  }

  lemma {:induction false} CommasSome(s: string)
    requires ',' in s
    ensures Commas(s) > 0
  {
    assert s == [s[0]] + s[1..];
    if s[0] != ',' { CommasSome(s[1..]); }
  }

  /** A value is one token and itself exactly when it holds no comma; otherwise the first token is
      shorter than the value. */
  lemma WholeToken(prev: char, s: string)
    requires prev != '\\'
    ensures |Token(prev, s)| <= |s|
    ensures ',' in s ==> |Token(prev, s)| < |s|
    ensures ',' !in s ==> Tokens(prev, s) == [s]
  {
    var n := TokenEnd(prev, s);
    UnescapePlain(s[..n]);
    if n == |s| {
      assert s[..n] == s;
      if ',' in s {
        UnescapeLength(prev, s);
        CommasSome(s);
      }
    } else {
      assert s[n] in s;
    }
  }
}
