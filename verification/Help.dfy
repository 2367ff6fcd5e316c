/**
 Refreshing the generated parts of a help page (debr/debr-help.c): a block is the text between
 `<!-- begin tag -->` and `<!-- end tag -->`, and a refresh replaces what is between the marks.

 First marks and where they can occur, then one block as a value (`Refreshed`) and in the buffer
 (`GString`), then several blocks (`Tidy`), then the blocks of a page.

 Most proofs hide the texts of the marks: two facts about their shape are all they need.
 */
module Help {
  import opened Strings

  // ---------------------------------------------------------------- searching

  predicate Occurs(s: string, m: string, i: nat) {
    i + |m| <= |s| && s[i..i + |m|] == m
  }

  /** `m` occurs at `i` and nowhere before. */
  ghost predicate FirstAt(s: string, m: string, i: nat) {
    Occurs(s, m, i) && forall j :: 0 <= j < i ==> !Occurs(s, m, j)
  }

  ghost predicate Missing(s: string, m: string) {
    forall j: nat :: !Occurs(s, m, j)
  }

  /** strstr for a non-empty `m`: where it first occurs, or the length of `s`. */
  function Index(s: string, m: string): (i: nat)
    requires m != ""
    ensures i <= |s| && (i < |s| ==> i + |m| <= |s|)
  {
    if |s| < |m| then |s| else if s[..|m|] == m then 0 else 1 + Index(s[1..], m)
  }

  lemma {:induction false} IndexIsFirst(s: string, m: string)
    requires m != ""
    ensures Index(s, m) < |s| ==> FirstAt(s, m, Index(s, m))
    ensures Index(s, m) == |s| <==> Missing(s, m)
  {
    if |s| >= |m| && s[..|m|] != m {
      IndexIsFirst(s[1..], m);
      forall j: nat ensures Occurs(s, m, j) <==> j > 0 && Occurs(s[1..], m, j - 1) {
        if j == 0 { assert s[0..0 + |m|] == s[..|m|]; } else { OccursLater(s, m, j); }
      }
      if Missing(s[1..], m) {
        forall j: nat ensures !Occurs(s, m, j) { }
      } else {
        var k: nat :| Occurs(s[1..], m, k);
        assert Occurs(s, m, k + 1);
      }
      if Index(s, m) < |s| {
        forall j | 0 <= j < Index(s, m) ensures !Occurs(s, m, j) {
          if j > 0 { assert !Occurs(s[1..], m, j - 1); }
        }
      }
    } else if |s| >= |m| {
      assert Occurs(s, m, 0);
    }
  }

  lemma OccursLater(s: string, m: string, j: nat)
    requires s != "" && j > 0
    ensures Occurs(s, m, j) <==> Occurs(s[1..], m, j - 1)
  {
    if j + |m| <= |s| { assert s[j..j + |m|] == s[1..][j - 1..j - 1 + |m|]; }
  }

  lemma FirstIsIndex(s: string, m: string, i: nat)
    requires m != "" && FirstAt(s, m, i)
    ensures Index(s, m) == i
  {
    IndexIsFirst(s, m);
    assert !Missing(s, m);
  }

  method Strstr(s: string, m: string) returns (i: nat)
    requires m != ""
    ensures i == Index(s, m)
  {
    i := 0;
    while i + |m| <= |s|
      invariant i <= |s| && Index(s, m) == i + Index(s[i..], m)
    {
      assert s[i..][..|m|] == s[i..i + |m|];
      if s[i..i + |m|] == m { return; }
      assert s[i..][1..] == s[i + 1..];
      i := i + 1;
    }
    i := |s|;
  }

  // ---------------------------------------------------------------- marks

  predicate Tag(t: string) {
    |t| == 3 && forall i :: 0 <= i < 3 ==> t[i] != '<' && t[i] != '>'
  }

  function Begin(t: string): string { "<!-- begin " + t + " -->" }
  function End(t: string): string { "<!-- end " + t + " -->" }

  /** What a mark looks like: one opening angle at its start followed by a bang, one closing at its end. */
  predicate MarkShape(m: string) {
    && |m| >= 2 && m[0] == '<' && m[1] == '!' && m[|m| - 1] == '>'
    && (forall i :: 0 < i < |m| ==> m[i] != '<')
    && (forall i :: 0 <= i < |m| - 1 ==> m[i] != '>')
  }

  lemma MarksShaped(t: string)
    requires Tag(t)
    ensures MarkShape(Begin(t)) && |Begin(t)| == 18
    ensures MarkShape(End(t)) && |End(t)| == 16
  {
  }

  /** The text holds neither mark of the block. */
  ghost predicate FreeOf(x: string, t: string) {
    Missing(x, Begin(t)) && Missing(x, End(t))
  }

  ghost predicate Unmarked(x: string, tags: set<string>) {
    forall t :: t in tags ==> FreeOf(x, t)
  }

  /** Text that holds not even the start of a mark. */
  predicate Markless(x: string) {
    forall i :: 0 <= i < |x| - 1 ==> !(x[i] == '<' && x[i + 1] == '!')
  }

  // ---------------------------------------------------------------- replacing what lies between

  /** Text that ends in `>` and text that starts with `<` fence in what is between them: no mark
      reaches across a fence, so every occurrence lies in one of the three parts. */
  lemma Fenced(p: string, x: string, q: string, m: string, i: nat)
    requires MarkShape(m) && p != "" && p[|p| - 1] == '>' && q != "" && q[0] == '<'
    requires Occurs(p + x + q, m, i)
    ensures || (i + |m| <= |p| && Occurs(p, m, i))
            || (|p| <= i && i + |m| <= |p| + |x| && Occurs(x, m, i - |p|))
            || (|p| + |x| <= i && Occurs(q, m, i - |p| - |x|))
  {
    var s := p + x + q;
    OccursChars(s, m, i);
    assert s[|p| - 1] == '>' && s[|p| + |x|] == '<';
    if i + |m| <= |p| {
      assert p[i..i + |m|] == s[i..i + |m|];
    } else if |p| + |x| <= i {
      assert q[i - |p| - |x|..i - |p| - |x| + |m|] == s[i..i + |m|];
    } else if |p| <= i && i + |m| <= |p| + |x| {
      var here, there := x[i - |p|..i - |p| + |m|], s[i..i + |m|];
      forall k | 0 <= k < |m| ensures here[k] == there[k] {
        assert s[i + k] == x[i - |p| + k];
      }
      assert here == there;
    }
  }

  lemma OccursChars(s: string, m: string, i: nat)
    requires Occurs(s, m, i)
    ensures forall k :: i <= k < i + |m| ==> s[k] == m[k - i]
  {
    forall k | i <= k < i + |m| ensures s[k] == m[k - i] {
      assert s[i..i + |m|][k - i] == s[k];
    }
  }

  lemma Placed(p: string, x: string, q: string, m: string)
    ensures forall i: nat :: Occurs(p, m, i) ==> Occurs(p + x + q, m, i)
    ensures forall i: nat :: Occurs(q, m, i) ==> Occurs(p + x + q, m, i + |p| + |x|)
  {
    var s := p + x + q;
    forall i: nat | Occurs(p, m, i) ensures Occurs(s, m, i) {
      assert s[i..i + |m|] == p[i..i + |m|];
    }
    forall i: nat | Occurs(q, m, i) ensures Occurs(s, m, i + |p| + |x|) {
      assert s[i + |p| + |x|..i + |p| + |x| + |m|] == q[i..i + |m|];
    }
  }

  lemma MarklessHasNone(x: string, m: string)
    requires Markless(x) && MarkShape(m)
    ensures Missing(x, m)
  {
    forall j: nat | Occurs(x, m, j) ensures false {
      OccursChars(x, m, j);
    }
  }

  lemma MarklessIsUnmarked(x: string, tags: set<string>)
    requires Markless(x) && forall t :: t in tags ==> Tag(t)
    ensures Unmarked(x, tags)
  {
    forall t | t in tags ensures FreeOf(x, t) {
      MarksShaped(t);
      MarklessHasNone(x, Begin(t));
      MarklessHasNone(x, End(t));
    }
  }

  /** Putting text without the mark between fences moves first occurrences but makes none: one before the
      text stays, one after it shifts, and a mark that was missing is still missing. */
  lemma Replaced(p: string, old': string, x: string, q: string, m: string)
    requires MarkShape(m) && p != "" && p[|p| - 1] == '>' && q != "" && q[0] == '<' && Missing(x, m)
    ensures forall i: nat :: FirstAt(p + old' + q, m, i) && i < |p| ==> FirstAt(p + x + q, m, i)
    ensures forall i: nat :: FirstAt(p + old' + q, m, i) && i >= |p| + |old'| ==>
      FirstAt(p + x + q, m, i - |old'| + |x|)
    ensures Missing(p + old' + q, m) ==> Missing(p + x + q, m)
  {
    var s, s' := p + old' + q, p + x + q;
    Placed(p, x, q, m);
    forall i: nat | FirstAt(s, m, i) && i < |p| ensures FirstAt(s', m, i) {
      Fenced(p, old', q, m, i);
      forall j | 0 <= j < i ensures !Occurs(s', m, j) {
        if Occurs(s', m, j) { var k := Origin(p, old', x, q, m, j); }
      }
    }
    forall i: nat | FirstAt(s, m, i) && i >= |p| + |old'| ensures FirstAt(s', m, i - |old'| + |x|) {
      Fenced(p, old', q, m, i);
      forall j | 0 <= j < i - |old'| + |x| ensures !Occurs(s', m, j) {
        if Occurs(s', m, j) { var k := Origin(p, old', x, q, m, j); }
      }
    }
    if Missing(s, m) {
      forall j: nat ensures !Occurs(s', m, j) {
        if Occurs(s', m, j) { var k := Origin(p, old', x, q, m, j); }
      }
    }
  }

  /** Every mark in the new text was a mark of the old one. */
  lemma Origin(p: string, old': string, x: string, q: string, m: string, j: nat) returns (k: nat)
    requires MarkShape(m) && p != "" && p[|p| - 1] == '>' && q != "" && q[0] == '<' && Missing(x, m)
    requires Occurs(p + x + q, m, j)
    ensures k == (if j < |p| then j else j - |x| + |old'|) && Occurs(p + old' + q, m, k)
    ensures j < |p| ==> j + |m| <= |p|
    ensures j >= |p| ==> j >= |p| + |x|
  {
    Fenced(p, x, q, m, j);
    Placed(p, old', q, m);
    k := if j < |p| then j else j - |x| + |old'|;
    if j >= |p| { assert Occurs(q, m, j - |p| - |x|); }
  }

  // ---------------------------------------------------------------- blocks

  function B(s: string, t: string): nat { Index(s, Begin(t)) }
  function E(s: string, t: string): nat { Index(s, End(t)) }

  /** One of the two marks is not there, so the block is left alone. */
  predicate Absent(s: string, t: string) {
    B(s, t) == |s| || E(s, t) == |s|
  }

  /** Both marks are there and the end mark comes after the begin mark. */
  predicate Ordered(s: string, t: string) {
    B(s, t) < |s| && E(s, t) < |s| && B(s, t) + 18 <= E(s, t)
  }

  function Inside(s: string, t: string): string
    requires Ordered(s, t)
  {
    s[B(s, t) + 18..E(s, t)]
  }

  /** Strip a block and put `text` in its place. The end mark is looked for from the start, so one
      that comes too early makes the length negative and everything after the begin mark goes. */
  function Refreshed(s: string, t: string, text: string): string
    requires Tag(t)
  {
    if Absent(s, t) then s
    else
      var pos := B(s, t) + 18;
      assert pos <= |s| by { MarkLengths(t); }
      s[..pos] + text + if E(s, t) < pos then "" else s[E(s, t)..]
  }

  class GString {
    var str: string

    constructor (s: string)
      ensures str == s
    {
      str := s;
    }

    /** g_string_erase: a negative length erases to the end. */
    method Erase(pos: nat, len: int)
      requires pos <= |str| && pos + len <= |str|
      modifies this
      ensures str == if len < 0 then old(str)[..pos] else old(str)[..pos] + old(str)[pos + len..]
    {
      str := if len < 0 then str[..pos] else str[..pos] + str[pos + len..];
    }

    method Insert(pos: nat, text: string)
      requires pos <= |str|
      modifies this
      ensures str == old(str)[..pos] + text + old(str)[pos..]
    {
      str := str[..pos] + text + str[pos..];
    }

    /** strip_block: zero when a mark is missing, else the place right after the begin mark. */
    method StripBlock(t: string) returns (pos: nat)
      requires Tag(t)
      modifies this
      ensures str == Refreshed(old(str), t, "")
      ensures pos == if Absent(old(str), t) then 0 else B(old(str), t) + 18
      ensures Absent(old(str), t) ==> str == old(str)
      ensures Ordered(old(str), t) ==> str == old(str)[..pos] + old(str)[E(old(str), t)..]
      ensures !Absent(old(str), t) && !Ordered(old(str), t) ==> str == old(str)[..pos]
      ensures pos <= |str| && str[..pos] == old(str)[..if pos <= |old(str)| then pos else 0]
    {
      MarkLengths(t);
      var ptr := Strstr(str, Begin(t));
      if ptr == |str| { return 0; }
      pos := ptr + 18;
      var ptr2 := Strstr(str, End(t));
      if ptr2 == |str| { return 0; }
      Erase(pos, ptr2 - pos);
    }

    /** Strips a block and, when there was one, inserts the text in its place. */
    method Put(t: string, text: string)
      requires Tag(t)
      modifies this
      ensures str == Refreshed(old(str), t, text)
    {
      MarkLengths(t);
      var pos := StripBlock(t);
      if pos > 0 {
        Insert(pos, text);
      }
    }
  }

  lemma MarkLengths(t: string)
    ensures |Begin(t)| == 15 + |t| && |End(t)| == 13 + |t|
  {
  }

  // ---------------------------------------------------------------- refreshing keeps a page tidy

  /** Two blocks that neither overlap nor nest. */
  predicate Apart(s: string, t: string, u: string) {
    E(s, t) + 16 <= B(s, u) || E(s, u) + 16 <= B(s, t)
  }

  /** Every block is left alone or in order, and no two of them overlap. */
  ghost predicate Tidy(s: string, tags: set<string>) {
    && (forall t :: t in tags ==> Tag(t) && (Absent(s, t) || Ordered(s, t)))
    && (forall t, u :: t in tags && u in tags && t != u && Ordered(s, t) && Ordered(s, u) ==> Apart(s, t, u))
  }

  /** The page around the inside of block `t`. */
  lemma Around(s: string, t: string)
    requires Tag(t) && Ordered(s, t)
    ensures var p, q := s[..B(s, t) + 18], s[E(s, t)..];
      && s == p + Inside(s, t) + q && p != "" && p[|p| - 1] == '>' && q != "" && q[0] == '<'
      && (forall text :: Refreshed(s, t, text) == p + text + q)
  {
    hide Index, Begin, End;
    MarksShaped(t);
    IndexIsFirst(s, Begin(t));
    IndexIsFirst(s, End(t));
    OccursChars(s, Begin(t), B(s, t));
    OccursChars(s, End(t), E(s, t));
    var b, e := B(s, t), E(s, t);
    assert s[b + 17] == Begin(t)[17] && s[e] == End(t)[0];
    assert s == s[..b + 18] + s[b + 18..e] + s[e..];
  }

  /** How one mark fares when block `t` is refreshed. */
  lemma MarkAfter(s: string, t: string, text: string, m: string)
    requires Tag(t) && Ordered(s, t) && Missing(text, m) && MarkShape(m)
    ensures var s' := Refreshed(s, t, text);
      && |s'| == |s| - |Inside(s, t)| + |text|
      && (Index(s, m) == |s| ==> Index(s', m) == |s'|)
      && (Index(s, m) < B(s, t) + 18 ==> Index(s', m) == Index(s, m))
      && (E(s, t) <= Index(s, m) < |s| ==> Index(s', m) == Index(s, m) - |Inside(s, t)| + |text|)
  {
    hide Index, Begin, End;
    var p, q, s' := s[..B(s, t) + 18], s[E(s, t)..], Refreshed(s, t, text);
    Around(s, t);
    Replaced(p, Inside(s, t), text, q, m);
    IndexIsFirst(s, m);
    IndexIsFirst(s', m);
    var i := Index(s, m);
    if i < B(s, t) + 18 { FirstIsIndex(s', m, i); }
    else if E(s, t) <= i < |s| { FirstIsIndex(s', m, i - |Inside(s, t)| + |text|); }
  }

  /** The refreshed block holds the text. */
  lemma OwnBlockAfter(s: string, t: string, text: string)
    requires Tag(t) && Ordered(s, t) && FreeOf(text, t)
    ensures var s' := Refreshed(s, t, text);
      && Ordered(s', t) && B(s', t) == B(s, t) && E(s', t) == B(s, t) + 18 + |text| && Inside(s', t) == text
      && s'[..B(s', t) + 18] == s[..B(s, t) + 18] && s'[E(s', t)..] == s[E(s, t)..]
  {
    MarksShaped(t);
    Around(s, t);
    MarkAfter(s, t, text, Begin(t));
    MarkAfter(s, t, text, End(t));
  }

  /** Where the marks of another block are afterwards. */
  lemma OtherMarksAfter(s: string, t: string, text: string, u: string)
    requires Tag(t) && Tag(u) && Ordered(s, t) && FreeOf(text, u)
    ensures var s' := Refreshed(s, t, text); var d := |text| - |Inside(s, t)|;
      && |s'| == |s| + d && (Absent(s, u) ==> Absent(s', u))
      && (Ordered(s, u) && Apart(s, t, u) ==>
            && Ordered(s', u)
            && (if E(s, u) + 16 <= B(s, t) then B(s', u) == B(s, u) && E(s', u) == E(s, u)
                else B(s', u) == B(s, u) + d && E(s', u) == E(s, u) + d))
  {
    hide Index, Begin, End, Refreshed, Missing;
    MarksShaped(u);
    MarkAfter(s, t, text, Begin(u));
    MarkAfter(s, t, text, End(u));
  }

  /** Another block stays as it is, moved along if it comes later. */
  lemma OtherBlockAfter(s: string, t: string, text: string, u: string)
    requires Tag(t) && Tag(u) && Ordered(s, t) && FreeOf(text, u)
    ensures var s' := Refreshed(s, t, text); var d := |text| - |Inside(s, t)|;
      && (Absent(s, u) ==> Absent(s', u))
      && (Ordered(s, u) && Apart(s, t, u) ==>
            && Ordered(s', u) && Inside(s', u) == Inside(s, u)
            && (if E(s, u) + 16 <= B(s, t) then B(s', u) == B(s, u) && E(s', u) == E(s, u)
                else B(s', u) == B(s, u) + d && E(s', u) == E(s, u) + d))
  {
    hide Index, Begin, End, Refreshed, FreeOf;
    OtherMarksAfter(s, t, text, u);
    if Ordered(s, u) && Apart(s, t, u) { OtherInsideAfter(s, t, text, u); }
  }

  lemma OtherInsideAfter(s: string, t: string, text: string, u: string)
    requires Tag(t) && Tag(u) && Ordered(s, t) && FreeOf(text, u) && Ordered(s, u) && Apart(s, t, u)
    ensures Ordered(Refreshed(s, t, text), u) && Inside(Refreshed(s, t, text), u) == Inside(s, u)
  {
    hide Index, Begin, End, Refreshed, FreeOf;
    OtherMarksAfter(s, t, text, u);
    Around(s, t);
    var p, old', q := s[..B(s, t) + 18], Inside(s, t), s[E(s, t)..];
    var from, to := B(s, u) + 18, E(s, u);
    if E(s, u) + 16 <= B(s, t) {
      SliceBefore(p, old', q, from, to);
      SliceBefore(p, text, q, from, to);
    } else {
      SliceAfter(p, old', q, from - |p| - |old'|, to - |p| - |old'|);
      SliceAfter(p, text, q, from - |p| - |old'|, to - |p| - |old'|);
    }
  }

  lemma SliceBefore(p: string, x: string, q: string, from: nat, to: nat)
    requires from <= to <= |p|
    ensures (p + x + q)[from..to] == p[from..to]
  {
  }

  lemma SliceAfter(p: string, x: string, q: string, from: nat, to: nat)
    requires from <= to <= |q|
    ensures (p + x + q)[|p| + |x| + from..|p| + |x| + to] == q[from..to]
  {
  }

  lemma ApartAfter(s: string, t: string, text: string, u: string, v: string)
    requires Tag(t) && Tag(u) && Tag(v) && Ordered(s, t) && Apart(s, u, v)
    requires FreeOf(text, t) && FreeOf(text, u) && FreeOf(text, v)
    requires u != t ==> Ordered(s, u) && Apart(s, t, u)
    requires v != t ==> Ordered(s, v) && Apart(s, t, v)
    requires u != v
    ensures Apart(Refreshed(s, t, text), u, v)
  {
    hide Index, Begin, End, Refreshed;
    OwnBlockAfter(s, t, text);
    if u != t { OtherBlockAfter(s, t, text, u); }
    if v != t { OtherBlockAfter(s, t, text, v); }
  }

  lemma TidyAfter(s: string, t: string, text: string, tags: set<string>)
    requires Tidy(s, tags) && t in tags && Unmarked(text, tags)
    ensures Tidy(Refreshed(s, t, text), tags)
  {
    hide Index, Begin, End;
    if Ordered(s, t) {
      var s' := Refreshed(s, t, text);
      OwnBlockAfter(s, t, text);
      forall u | u in tags && u != t ensures Absent(s', u) || (Ordered(s', u) && Ordered(s, u)) {
        OtherBlockAfter(s, t, text, u);
        assert Ordered(s, u) ==> Apart(s, t, u);
      }
      forall u, v | u in tags && v in tags && u != v && Ordered(s', u) && Ordered(s', v)
        ensures Apart(s', u, v)
      {
        StillThere(s, t, text, u);
        StillThere(s, t, text, v);
        assert Apart(s, u, v);
        ApartAfter(s, t, text, u, v);
      }
    }
  }

  /** A block that is in order after a refresh was so before. */
  lemma StillThere(s: string, t: string, text: string, u: string)
    requires Tag(t) && Tag(u) && Ordered(s, t) && FreeOf(text, u)
    requires Absent(s, u) || Ordered(s, u)
    ensures Ordered(Refreshed(s, t, text), u) ==> Ordered(s, u)
  {
    hide Index, Begin, End, Inside, Refreshed;
    if u != t { OtherBlockAfter(s, t, text, u); }
  }

  // ---------------------------------------------------------------- refreshing a whole page

  datatype Field = Field(tag: string, text: string)

  predicate Tagged(fields: seq<Field>) {
    forall i :: 0 <= i < |fields| ==> Tag(fields[i].tag)
  }

  function RefreshAll(s: string, fields: seq<Field>): string
    requires Tagged(fields)
  {
    if fields == [] then s else
      var n := |fields| - 1;
      Refreshed(RefreshAll(s, fields[..n]), fields[n].tag, fields[n].text)
  }

  /** The field is already as refreshing it would leave it. */
  predicate Settled(s: string, f: Field) {
    Absent(s, f.tag) || (Ordered(s, f.tag) && Inside(s, f.tag) == f.text)
  }

  ghost predicate GoodFields(fields: seq<Field>, tags: set<string>) {
    && (forall i :: 0 <= i < |fields| ==>
          Tag(fields[i].tag) && fields[i].tag in tags && Unmarked(fields[i].text, tags))
    && (forall i, j :: 0 <= i < j < |fields| ==> fields[i].tag != fields[j].tag)
  }

  lemma SettledStays(s: string, f: Field)
    requires Tag(f.tag) && Settled(s, f)
    ensures Refreshed(s, f.tag, f.text) == s
  {
    if Ordered(s, f.tag) { Around(s, f.tag); }
  }

  /** Block `u` of the first page is in the second with the same inside, or in neither. */
  predicate SameBlock(s: string, s': string, u: string) {
    if Ordered(s, u) then Ordered(s', u) && Inside(s', u) == Inside(s, u) else Absent(s', u)
  }

  lemma FieldStep(s: string, f: Field, tags: set<string>)
    requires Tidy(s, tags) && f.tag in tags && Unmarked(f.text, tags)
    ensures var s' := Refreshed(s, f.tag, f.text);
      && Tidy(s', tags) && Settled(s', f) && (Absent(s', f.tag) <==> Absent(s, f.tag))
      && forall u :: u in tags && u != f.tag ==> SameBlock(s, s', u)
  {
    hide Index, Begin, End;
    TidyAfter(s, f.tag, f.text, tags);
    if Ordered(s, f.tag) {
      OwnBlockAfter(s, f.tag, f.text);
      forall u | u in tags && u != f.tag ensures SameBlock(s, Refreshed(s, f.tag, f.text), u) {
        OtherBlockAfter(s, f.tag, f.text, u);
        assert Ordered(s, u) ==> Apart(s, f.tag, u);
      }
    }
  }

  /** After a refresh the page is tidy, every field is settled, and the blocks of no field are
      untouched. */
  lemma {:induction false} RefreshSettles(s: string, fields: seq<Field>, tags: set<string>)
    requires Tidy(s, tags) && GoodFields(fields, tags)
    ensures var r := RefreshAll(s, fields);
      && Tidy(r, tags)
      && (forall i :: 0 <= i < |fields| ==>
            Settled(r, fields[i]) && (Absent(r, fields[i].tag) <==> Absent(s, fields[i].tag)))
      && (forall u :: u in tags && (forall i :: 0 <= i < |fields| ==> fields[i].tag != u) ==> SameBlock(s, r, u))
  {
    hide Index, Begin, End, Refreshed, Tidy;
    if fields != [] {
      var n := |fields| - 1;
      var f, mid := fields[n], RefreshAll(s, fields[..n]);
      RefreshSettles(s, fields[..n], tags);
      FieldStep(mid, f, tags);
      var r := RefreshAll(s, fields);
      assert r == Refreshed(mid, f.tag, f.text);
      forall i | 0 <= i < n
        ensures Settled(r, fields[i]) && (Absent(r, fields[i].tag) <==> Absent(s, fields[i].tag))
      {
        assert fields[..n][i] == fields[i];
        assert SameBlock(mid, r, fields[i].tag);
        TidyTag(mid, fields[i].tag, tags);
      }
      forall i | 0 <= i < n ensures fields[i].tag != f.tag {}
      assert Absent(mid, f.tag) <==> Absent(s, f.tag) by {
        TidyTag(s, f.tag, tags);
        forall i | 0 <= i < n ensures fields[..n][i].tag != f.tag { assert fields[..n][i] == fields[i]; }
        assert SameBlock(s, mid, f.tag);
      }
      forall u | u in tags && (forall i :: 0 <= i < |fields| ==> fields[i].tag != u) ensures SameBlock(s, r, u) {
        forall i | 0 <= i < n ensures fields[..n][i].tag != u { assert fields[..n][i] == fields[i]; }
        assert u != f.tag;
        assert SameBlock(s, mid, u) && SameBlock(mid, r, u);
      }
    } else {
      forall u | u in tags ensures SameBlock(s, s, u) { TidyTag(s, u, tags); }
    }
  }

  lemma TidyTag(s: string, u: string, tags: set<string>)
    requires Tidy(s, tags) && u in tags
    ensures Absent(s, u) || Ordered(s, u)
  {
  }

  lemma {:induction false} SettledRefresh(s: string, fields: seq<Field>)
    requires Tagged(fields) && forall i :: 0 <= i < |fields| ==> Settled(s, fields[i])
    ensures RefreshAll(s, fields) == s
  {
    if fields != [] {
      var n := |fields| - 1;
      forall i | 0 <= i < n ensures Tag(fields[..n][i].tag) && Settled(s, fields[..n][i]) {
        assert fields[..n][i] == fields[i];
      }
      SettledRefresh(s, fields[..n]);
      SettledStays(s, fields[n]);
    }
  }

  /** Refreshing a tidy page twice is refreshing it once. */
  lemma RefreshIdempotent(s: string, fields: seq<Field>, tags: set<string>)
    requires Tidy(s, tags) && GoodFields(fields, tags)
    ensures RefreshAll(RefreshAll(s, fields), fields) == RefreshAll(s, fields)
  {
    RefreshSettles(s, fields, tags);
    SettledRefresh(RefreshAll(s, fields), fields);
  }

  // ---------------------------------------------------------------- escaped text

  /** g_markup_escape_text, as far as the five special characters go. */
  function EscapeMarkup(s: string): (r: string)
    ensures forall i :: 0 <= i < |r| ==> r[i] != '<' && r[i] != '>'
  {
    if s == "" then "" else
      (match s[0]
       case '&' => "&amp;"
       case '<' => "&lt;"
       case '>' => "&gt;"
       case '\'' => "&#39;"
       case '"' => "&quot;"
       case c => [c]) + EscapeMarkup(s[1..])
  }

  lemma EscapeEmpty(s: string)
    ensures EscapeMarkup(s) == "" <==> s == ""
  {
  }

  predicate StartsAs(s: string, e: string) {
    |s| >= |e| && forall i :: 0 <= i < |e| ==> s[i] == e[i]
  }

  /** The character an entity at the start of the text stands for, and how long the entity is. */
  function Entity(s: string): (char, nat) {
    if StartsAs(s, "&amp;") then ('&', 5)
    else if StartsAs(s, "&lt;") then ('<', 4)
    else if StartsAs(s, "&gt;") then ('>', 4)
    else if StartsAs(s, "&#39;") then ('\'', 5)
    else if StartsAs(s, "&quot;") then ('"', 6)
    else (if s == "" then ' ' else s[0], 1)
  }

  /** How a browser reads escaped text. */
  function ReadMarkup(s: string): string {
    if s == "" then "" else [Entity(s).0] + ReadMarkup(s[if Entity(s).1 <= |s| then Entity(s).1 else 1..])
  }

  /** Escaped text is read as the text. */
  lemma {:induction false} MarkupRoundTrip(s: string)
    ensures ReadMarkup(EscapeMarkup(s)) == s
  {
    if s != "" {
      var rest := EscapeMarkup(s[1..]);
      MarkupRoundTrip(s[1..]);
      EntityRead(s[0], rest);
    }
  }

  lemma EntityRead(c: char, rest: string)
    ensures var e := match c
              case '&' => "&amp;" case '<' => "&lt;" case '>' => "&gt;" case '\'' => "&#39;" case '"' => "&quot;"
              case _ => [c];
      Entity(e + rest) == (c, |e|) && (e + rest)[|e|..] == rest
  {
    match c
    case '&' => StartsWith("&amp;", rest);
    case '<' => StartsWith("&lt;", rest);
    case '>' => StartsWith("&gt;", rest);
    case '\'' => StartsWith("&#39;", rest);
    case '"' => StartsWith("&quot;", rest);
    case _ => assert ([c] + rest)[0] == c;
  }

  lemma StartsWith(e: string, rest: string)
    ensures (e + rest)[|e|..] == rest && StartsAs(e + rest, e) && (|e| > 1 ==> (e + rest)[1] == e[1])
  {
  }

  /** Categories in their order with bars between them. */
  lemma {:induction false} CategoriesJoined(a: seq<string>, b: seq<string>)
    requires a != [] && b != []
    ensures JoinCategories(a + b) == JoinCategories(a) + " | " + JoinCategories(b)
    ensures |b| == 1 ==> JoinCategories(b) == EscapeMarkup(b[0])
  {
    if |a| == 1 {
      assert (a + b)[1..] == b;
    } else {
      CategoriesJoined(a[1..], b);
      assert (a + b)[1..] == a[1..] + b;
    }
  }

  function JoinCategories(categories: seq<string>): (r: string)
    ensures forall i :: 0 <= i < |r| ==> r[i] != '<'
  {
    if categories == [] then ""
    else if |categories| == 1 then EscapeMarkup(categories[0])
    else EscapeMarkup(categories[0]) + " | " + JoinCategories(categories[1..])
  }

  /** Text without an opening angle, between two texts in which no bang follows one. */
  lemma MarklessAround(a: string, x: string, b: string)
    requires Markless(a) && Markless(b) && (a == "" || a[|a| - 1] != '<') && forall i :: 0 <= i < |x| ==> x[i] != '<'
    ensures Markless(a + x + b)
  {
  }

  function TitleText(title: string): string { "\n  <title>" + EscapeMarkup(title) + "</title>\n  " }
  function HeadingText(title: string): string { "<span class=\"flowtitle\">" + EscapeMarkup(title) + "</span>" }
  function DescriptionText(d: string): string { "\n            " + EscapeMarkup(d) + "\n            " }

  /** Whatever a title, a description or a category says, what is inserted for it holds no mark. */
  lemma EscapedTextIsMarkless(title: string, description: string, categories: seq<string>)
    ensures Markless(TitleText(title)) && Markless(HeadingText(title))
    ensures Markless(DescriptionText(description)) && Markless(JoinCategories(categories))
  {
    MarklessAround("\n  <title>", EscapeMarkup(title), "</title>\n  ");
    MarklessAround("<span class=\"flowtitle\">", EscapeMarkup(title), "</span>");
    MarklessAround("\n            ", EscapeMarkup(description), "\n            ");
  }

  /** Inserting text without a mark never makes one, not even together with what stands around it: every
      mark of the new page was a mark of the old one. */
  lemma InsertionMakesNoMark(s: string, t: string, text: string, m: string, j: nat)
    requires Tag(t) && MarkShape(m) && Ordered(s, t) && Missing(text, m)
    requires Occurs(Refreshed(s, t, text), m, j)
    ensures var k := if j < B(s, t) + 18 then j else j - |text| + |Inside(s, t)|;
      k >= 0 && Occurs(s, m, k)
  {
    hide Index, Begin, End, Refreshed, Missing;
    Around(s, t);
    var k := Origin(s[..B(s, t) + 18], Inside(s, t), text, s[E(s, t)..], m, j);
  }

  // ---------------------------------------------------------------- the fields of a help page

  const HELP_TAGS := {"ttl", "tt2", "des", "cat", "dtd", "par", "mpr", "ver"}

  /** An empty title is passed over. */
  function TitleFields(title: string): seq<Field> {
    if EscapeMarkup(title) != "" then [Field("ttl", TitleText(title)), Field("tt2", HeadingText(title))] else []
  }

  function DescriptionFields(d: string): seq<Field> {
    if EscapeMarkup(d) != "" then [Field("des", DescriptionText(d))] else []
  }

  function ListFields(categories: seq<string>, dtd: string): seq<Field> {
    [Field("cat", JoinCategories(categories)), Field("dtd", dtd)]
  }

  /** A menu's help loses its parameter sections. */
  function VersionFields(version: string, isMenu: bool): seq<Field> {
    (if isMenu then [Field("par", ""), Field("mpr", "")] else []) + [Field("ver", version)]
  }

  /** What help_subst_fields refreshes, in its order. */
  function HelpFields(title: string, description: string, categories: seq<string>, dtd: string, version: string,
                      isMenu: bool): seq<Field> {
    TitleFields(title) +
    (DescriptionFields(description) + (ListFields(categories, dtd) + VersionFields(version, isMenu)))
  }

  ghost predicate TagsWithin(fields: seq<Field>, tags: set<string>) {
    forall i :: 0 <= i < |fields| ==> fields[i].tag in tags
  }

  lemma GoodConcat(a: seq<Field>, b: seq<Field>, tags: set<string>, mine: set<string>, theirs: set<string>)
    requires GoodFields(a, tags) && GoodFields(b, tags)
    requires TagsWithin(a, mine) && TagsWithin(b, theirs) && mine !! theirs
    ensures GoodFields(a + b, tags) && TagsWithin(a + b, mine + theirs)
  {
  }

  lemma TitleFieldsGood(title: string)
    ensures GoodFields(TitleFields(title), HELP_TAGS) && TagsWithin(TitleFields(title), {"ttl", "tt2"})
  {
    hide TitleText, HeadingText, EscapeMarkup;
    EscapedTextIsMarkless(title, "", []);
    MarklessIsUnmarked(TitleText(title), HELP_TAGS);
    MarklessIsUnmarked(HeadingText(title), HELP_TAGS);
  }

  lemma OtherFieldsGood(description: string, categories: seq<string>, dtd: string)
    requires Unmarked(dtd, HELP_TAGS)
    ensures GoodFields(DescriptionFields(description), HELP_TAGS) && TagsWithin(DescriptionFields(description), {"des"})
    ensures GoodFields(ListFields(categories, dtd), HELP_TAGS)
    ensures TagsWithin(ListFields(categories, dtd), {"cat", "dtd"})
  {
    hide DescriptionText, JoinCategories, EscapeMarkup;
    EscapedTextIsMarkless("", description, categories);
    MarklessIsUnmarked(DescriptionText(description), HELP_TAGS);
    MarklessIsUnmarked(JoinCategories(categories), HELP_TAGS);
  }

  lemma VersionFieldsGood(version: string, isMenu: bool)
    requires Unmarked(version, HELP_TAGS)
    ensures GoodFields(VersionFields(version, isMenu), HELP_TAGS)
    ensures TagsWithin(VersionFields(version, isMenu), {"par", "mpr", "ver"})
  {
    hide Unmarked;
    NothingIsUnmarked();
  }

  lemma NothingIsUnmarked()
    ensures Unmarked("", HELP_TAGS)
  {
    MarklessIsUnmarked("", HELP_TAGS);
  }

  lemma HelpFieldsGood(title: string, description: string, categories: seq<string>, dtd: string, version: string,
                       isMenu: bool)
    requires Unmarked(dtd, HELP_TAGS) && Unmarked(version, HELP_TAGS)
    ensures GoodFields(HelpFields(title, description, categories, dtd, version, isMenu), HELP_TAGS)
  {
    hide TitleFields, DescriptionFields, ListFields, VersionFields, GoodFields, TagsWithin;
    TitleFieldsGood(title);
    OtherFieldsGood(description, categories, dtd);
    VersionFieldsGood(version, isMenu);
    var l, v := ListFields(categories, dtd), VersionFields(version, isMenu);
    GoodConcat(l, v, HELP_TAGS, {"cat", "dtd"}, {"par", "mpr", "ver"});
    GoodConcat(DescriptionFields(description), l + v, HELP_TAGS, {"des"}, {"cat", "dtd"} + {"par", "mpr", "ver"});
    GoodConcat(TitleFields(title), DescriptionFields(description) + (l + v), HELP_TAGS,
      {"ttl", "tt2"}, {"des"} + ({"cat", "dtd"} + {"par", "mpr", "ver"}));
  }

  /** Refreshing a help page twice with the same program or menu data is refreshing it once. */
  lemma HelpRefreshIdempotent(s: string, title: string, description: string, categories: seq<string>, dtd: string,
                              version: string, isMenu: bool)
    requires Tidy(s, HELP_TAGS) && Unmarked(dtd, HELP_TAGS) && Unmarked(version, HELP_TAGS)
    ensures var fields := HelpFields(title, description, categories, dtd, version, isMenu);
      GoodFields(fields, HELP_TAGS) && RefreshAll(RefreshAll(s, fields), fields) == RefreshAll(s, fields)
  {
    hide HelpFields;
    HelpFieldsGood(title, description, categories, dtd, version, isMenu);
    RefreshIdempotent(s, HelpFields(title, description, categories, dtd, version, isMenu), HELP_TAGS);
  }

  /** A block that was there holds the new text, or what it held when there is none; one that was not
      is not. */
  predicate BlockIs(s: string, r: string, tag: string, text: Option<string>) {
    if Absent(s, tag) then Absent(r, tag)
    else Ordered(r, tag) && (text.Some? || Ordered(s, tag)) &&
         Inside(r, tag) == if text.Some? then text.value else Inside(s, tag)
  }

  lemma FieldLands(s: string, fields: seq<Field>, tags: set<string>, tag: string, text: Option<string>)
    requires Tidy(s, tags) && GoodFields(fields, tags) && tag in tags
    requires FieldIs(fields, tag, text)
    ensures Tagged(fields) && BlockIs(s, RefreshAll(s, fields), tag, text)
  {
    AreTagged(fields, tags);
    RefreshSettles(s, fields, tags);
    TidyTag(s, tag, tags);
    hide Index, Begin, End, Refreshed, Tidy, GoodFields, RefreshAll;
    if text.Some? {
      var i :| 0 <= i < |fields| && fields[i] == Field(tag, text.value);
    } else {
      assert SameBlock(s, RefreshAll(s, fields), tag);
    }
  }

  lemma AreTagged(fields: seq<Field>, tags: set<string>)
    requires GoodFields(fields, tags)
    ensures Tagged(fields)
  {
  }

  predicate FieldIs(fields: seq<Field>, tag: string, text: Option<string>) {
    if text.Some? then Field(tag, text.value) in fields else forall i :: 0 <= i < |fields| ==> fields[i].tag != tag
  }

  function Unless(empty: bool, text: string): Option<string> { if empty then None else Some(text) }

  lemma HelpFieldsAre(title: string, description: string, categories: seq<string>, dtd: string, version: string,
                      isMenu: bool)
    ensures var fields := HelpFields(title, description, categories, dtd, version, isMenu);
      && FieldIs(fields, "ttl", Unless(title == "", "\n  <title>" + EscapeMarkup(title) + "</title>\n  "))
      && FieldIs(fields, "tt2", Unless(title == "", "<span class=\"flowtitle\">" + EscapeMarkup(title) + "</span>"))
      && FieldIs(fields, "des",
           Unless(description == "", "\n            " + EscapeMarkup(description) + "\n            "))
      && FieldIs(fields, "cat", Some(JoinCategories(categories)))
      && FieldIs(fields, "dtd", Some(dtd)) && FieldIs(fields, "ver", Some(version))
      && FieldIs(fields, "par", Unless(!isMenu, "")) && FieldIs(fields, "mpr", Unless(!isMenu, ""))
  {
    hide FieldIs, TagsWithin, GoodFields, EscapeMarkup, JoinCategories;
    TitleFieldsAre(title);
    DescriptionFieldsAre(description);
    ListFieldsAre(categories, dtd);
    VersionFieldsAre(version, isMenu);
    var t, d := TitleFields(title), DescriptionFields(description);
    var l, v := ListFields(categories, dtd), VersionFields(version, isMenu);
    hide TitleFields, DescriptionFields, ListFields, VersionFields, Unless;
    forall tag: string, text: Option<string>
      ensures FieldIs(t + (d + (l + v)), tag, text) <==>
        if text.Some? then
          FieldIs(t, tag, text) || FieldIs(d, tag, text) || FieldIs(l, tag, text) || FieldIs(v, tag, text)
        else FieldIs(t, tag, text) && FieldIs(d, tag, text) && FieldIs(l, tag, text) && FieldIs(v, tag, text)
    {
      FieldIsEither(l, v, tag, text);
      FieldIsEither(d, l + v, tag, text);
      FieldIsEither(t, d + (l + v), tag, text);
    }
  }

  lemma FieldIsEither(a: seq<Field>, b: seq<Field>, tag: string, text: Option<string>)
    ensures FieldIs(a + b, tag, text) <==>
      if text.Some? then FieldIs(a, tag, text) || FieldIs(b, tag, text)
      else FieldIs(a, tag, text) && FieldIs(b, tag, text)
  {
    assert forall i :: 0 <= i < |a| ==> (a + b)[i] == a[i];
    assert forall i :: 0 <= i < |b| ==> (a + b)[|a| + i] == b[i];
  }

  lemma TitleFieldsAre(title: string)
    ensures var fields := TitleFields(title);
      && FieldIs(fields, "ttl", Unless(title == "", "\n  <title>" + EscapeMarkup(title) + "</title>\n  "))
      && FieldIs(fields, "tt2", Unless(title == "", "<span class=\"flowtitle\">" + EscapeMarkup(title) + "</span>"))
      && forall tag :: tag !in {"ttl", "tt2"} ==> FieldIs(fields, tag, None)
  {
    EscapeEmpty(title);
    hide EscapeMarkup;
    var fields := TitleFields(title);
    if title != "" { assert fields[0] in fields && fields[1] in fields; }
  }

  lemma DescriptionFieldsAre(description: string)
    ensures var fields := DescriptionFields(description);
      && FieldIs(fields, "des",
           Unless(description == "", "\n            " + EscapeMarkup(description) + "\n            "))
      && forall tag :: tag != "des" ==> FieldIs(fields, tag, None)
  {
    EscapeEmpty(description);
    hide EscapeMarkup;
    var fields := DescriptionFields(description);
    if description != "" { assert fields[0] in fields; }
  }

  lemma ListFieldsAre(categories: seq<string>, dtd: string)
    ensures var fields := ListFields(categories, dtd);
      && FieldIs(fields, "cat", Some(JoinCategories(categories))) && FieldIs(fields, "dtd", Some(dtd))
      && forall tag :: tag !in {"cat", "dtd"} ==> FieldIs(fields, tag, None)
  {
    hide JoinCategories;
    var fields := ListFields(categories, dtd);
    assert fields[0] in fields && fields[1] in fields;
  }

  lemma VersionFieldsAre(version: string, isMenu: bool)
    ensures var fields := VersionFields(version, isMenu);
      && FieldIs(fields, "ver", Some(version))
      && FieldIs(fields, "par", Unless(!isMenu, "")) && FieldIs(fields, "mpr", Unless(!isMenu, ""))
      && forall tag :: tag !in {"par", "mpr", "ver"} ==> FieldIs(fields, tag, None)
  {
    var fields := VersionFields(version, isMenu);
    assert fields[|fields| - 1] in fields && (isMenu ==> fields[0] in fields && fields[1] in fields);
  }

  /** What every block of a page holds after a refresh: the title and description, escaped, unless
      they are empty; the categories; the two versions; and nothing in the parameter sections of a
      menu. */
  lemma HelpBlocks(s: string, title: string, description: string, categories: seq<string>, dtd: string, version: string,
                   isMenu: bool)
    requires Tidy(s, HELP_TAGS) && Unmarked(dtd, HELP_TAGS) && Unmarked(version, HELP_TAGS)
    ensures Tagged(HelpFields(title, description, categories, dtd, version, isMenu))
    ensures var r := RefreshAll(s, HelpFields(title, description, categories, dtd, version, isMenu));
      && BlockIs(s, r, "ttl", Unless(title == "", "\n  <title>" + EscapeMarkup(title) + "</title>\n  "))
      && BlockIs(s, r, "tt2", Unless(title == "", "<span class=\"flowtitle\">" + EscapeMarkup(title) + "</span>"))
      && BlockIs(s, r, "des",
           Unless(description == "", "\n            " + EscapeMarkup(description) + "\n            "))
      && BlockIs(s, r, "cat", Some(JoinCategories(categories)))
      && BlockIs(s, r, "dtd", Some(dtd)) && BlockIs(s, r, "ver", Some(version))
      && BlockIs(s, r, "par", Unless(!isMenu, "")) && BlockIs(s, r, "mpr", Unless(!isMenu, ""))
  {
    hide Tidy, GoodFields, RefreshAll, BlockIs, FieldIs, EscapeMarkup, JoinCategories, Unmarked, HelpFields, Unless;
    var fields := HelpFields(title, description, categories, dtd, version, isMenu);
    HelpFieldsGood(title, description, categories, dtd, version, isMenu);
    HelpFieldsAre(title, description, categories, dtd, version, isMenu);
    AreTagged(fields, HELP_TAGS);
    forall tag: string, text: Option<string> | tag in HELP_TAGS && FieldIs(fields, tag, text)
      ensures BlockIs(s, RefreshAll(s, fields), tag, text)
    {
      FieldLands(s, fields, HELP_TAGS, tag, text);
    }
  }

  lemma {:induction false} RefreshConcat(s: string, a: seq<Field>, b: seq<Field>)
    requires Tagged(a) && Tagged(b)
    ensures Tagged(a + b) && RefreshAll(s, a + b) == RefreshAll(RefreshAll(s, a), b)
    decreases |b|
  {
    hide Refreshed, Tag;
    if b == [] {
      assert a + b == a;
    } else {
      var n := |b| - 1;
      RefreshConcat(s, a, b[..n]);
      assert (a + b)[..|a| + n] == a + b[..n] && (a + b)[|a| + n] == b[n];
    }
  }

  lemma RefreshTwo(s: string, f: Field, g: Field)
    requires Tag(f.tag) && Tag(g.tag)
    ensures RefreshAll(s, [f]) == Refreshed(s, f.tag, f.text)
    ensures RefreshAll(s, [f, g]) == Refreshed(Refreshed(s, f.tag, f.text), g.tag, g.text)
  {
    assert [f][..0] == [] && [f, g][..1] == [f];
  }

  method SubstTitle(help: GString, title: string)
    modifies help
    ensures Tagged(TitleFields(title)) && help.str == RefreshAll(old(help.str), TitleFields(title))
  {
    hide TitleText, HeadingText, EscapeMarkup, RefreshAll, Refreshed;
    NoFields(help.str);
    if EscapeMarkup(title) != "" {
      RefreshTwo(help.str, Field("ttl", TitleText(title)), Field("tt2", HeadingText(title)));
      help.Put("ttl", TitleText(title));
      help.Put("tt2", HeadingText(title));
    }
  }

  method SubstDescription(help: GString, description: string)
    modifies help
    ensures Tagged(DescriptionFields(description))
    ensures help.str == RefreshAll(old(help.str), DescriptionFields(description))
  {
    hide DescriptionText, EscapeMarkup, RefreshAll, Refreshed;
    NoFields(help.str);
    if EscapeMarkup(description) != "" {
      var f := Field("des", DescriptionText(description));
      RefreshTwo(help.str, f, f);
      help.Put("des", DescriptionText(description));
    }
  }

  method SubstLists(help: GString, categories: seq<string>, dtd: string)
    modifies help
    ensures Tagged(ListFields(categories, dtd)) && help.str == RefreshAll(old(help.str), ListFields(categories, dtd))
  {
    hide JoinCategories, RefreshAll, Refreshed;
    RefreshTwo(help.str, Field("cat", JoinCategories(categories)), Field("dtd", dtd));
    help.Put("cat", JoinCategories(categories));
    help.Put("dtd", dtd);
  }

  method SubstVersion(help: GString, version: string, isMenu: bool)
    modifies help
    ensures Tagged(VersionFields(version, isMenu))
    ensures help.str == RefreshAll(old(help.str), VersionFields(version, isMenu))
  {
    hide RefreshAll, Refreshed;
    ghost var start := help.str;
    var ver := Field("ver", version);
    NoFields(start);
    if isMenu {
      var par, mpr := Field("par", ""), Field("mpr", "");
      RefreshTwo(start, par, mpr);
      help.Put("par", "");
      help.Put("mpr", "");
      RefreshConcat(start, [par, mpr], [ver]);
    } else {
      RefreshConcat(start, [], [ver]);
    }
    RefreshTwo(help.str, ver, ver);
    help.Put("ver", version);
  }

  lemma NoFields(s: string)
    ensures Tagged([]) && RefreshAll(s, []) == s
  {
  }

  /** help_subst_fields, as far as the stripped and refilled fields go. */
  method SubstFields(help: GString, title: string, description: string, categories: seq<string>, dtd: string,
                     version: string, isMenu: bool)
    modifies help
    ensures Tagged(HelpFields(title, description, categories, dtd, version, isMenu))
    ensures help.str == RefreshAll(old(help.str), HelpFields(title, description, categories, dtd, version, isMenu))
  {
    hide TitleFields, DescriptionFields, ListFields, VersionFields, RefreshAll;
    ghost var start := help.str;
    SubstTitle(help, title);
    SubstDescription(help, description);
    SubstLists(help, categories, dtd);
    SubstVersion(help, version, isMenu);
    ghost var l, v := ListFields(categories, dtd), VersionFields(version, isMenu);
    ghost var t, d := TitleFields(title), DescriptionFields(description);
    RefreshConcat(RefreshAll(RefreshAll(start, t), d), l, v);
    RefreshConcat(RefreshAll(start, t), d, l + v);
    RefreshConcat(start, t, d + (l + v));
  }
}
