/**
 Strings as the C library sees them: g_strsplit, the strcmp order, and joining.
 */
module Strings {

  datatype Option<T> = None | Some(value: T)

  // ---------------------------------------------------------------- g_strsplit

  /** The pieces of `s` between separators; always at least one. */
  function Pieces(s: string, sep: char): (r: seq<string>)
    ensures |r| >= 1
  {
    if s == "" then [""]
    else
      var rest := Pieces(s[1..], sep);
      if s[0] == sep then [""] + rest else [[s[0]] + rest[0]] + rest[1..]
  }

  /** g_strsplit with no limit: the empty string has no pieces at all. */
  function Split(s: string, sep: char): seq<string> {
    if s == "" then [] else Pieces(s, sep)
  }

  lemma {:induction false} PiecesCount(s: string, sep: char)
    ensures |Pieces(s, sep)| >= 2 <==> sep in s
  {
    if s != "" {
      PiecesCount(s[1..], sep);
      assert s == [s[0]] + s[1..];
    }
  }

  function Glued(pieces: seq<string>, sep: char): string {
    if pieces == [] then "" else if |pieces| == 1 then pieces[0] else pieces[0] + ([sep] + Glued(pieces[1..], sep))
  }

  /** The pieces are what stands between the separators: without one themselves, and the text when put
      together again with separators. */
  lemma {:induction false} PiecesExactly(s: string, sep: char)
    ensures Glued(Pieces(s, sep), sep) == s && forall i :: 0 <= i < |Pieces(s, sep)| ==> sep !in Pieces(s, sep)[i]
    ensures s != "" ==> Split(s, sep) == Pieces(s, sep)
    ensures Split("", sep) == []
  {
    if s != "" {
      var rest := Pieces(s[1..], sep);
      PiecesExactly(s[1..], sep);
      assert s == [s[0]] + s[1..];
      hide Pieces;
      if s[0] == sep {
        assert "" + ([sep] + Glued(rest, sep)) == s;
      } else {
        GluedCons(s[0], rest, sep);
      }
    }
  }

  lemma GluedCons(c: char, pieces: seq<string>, sep: char)
    requires pieces != []
    ensures Glued([[c] + pieces[0]] + pieces[1..], sep) == [c] + Glued(pieces, sep)
  {
    if |pieces| > 1 {
      var rest := [sep] + Glued(pieces[1..], sep);
      assert ([c] + pieces[0]) + rest == [c] + (pieces[0] + rest);
    }
  }

  // ---------------------------------------------------------------- strcmp

  predicate Less(a: string, b: string) {
    if b == "" then false
    else if a == "" then true
    else if a[0] != b[0] then a[0] < b[0]
    else Less(a[1..], b[1..])
  }

  /** The shorter of two texts that agree, or the one with the smaller character where they first do not. */
  lemma {:induction false} LessMeaning(a: string, b: string)
    ensures Less(a, b) <==>
      a < b || exists k :: 0 <= k < |a| && k < |b| && a[..k] == b[..k] && a[k] < b[k]
  {
    if a != "" && b != "" {
      LessMeaning(a[1..], b[1..]);
      assert a < b <==> a[0] == b[0] && a[1..] < b[1..];
      forall k | 0 <= k < |a| && k < |b| && a[..k] == b[..k] && a[k] < b[k] ensures Less(a, b) {
        if k > 0 { assert a[1..][..k - 1] == a[..k][1..] && b[1..][..k - 1] == b[..k][1..]; }
      }
      if Less(a, b) && a[0] == b[0] && !(a[1..] < b[1..]) {
        var k :| 0 <= k < |a[1..]| && k < |b[1..]| && a[1..][..k] == b[1..][..k] && a[1..][k] < b[1..][k];
        assert a[..k + 1] == [a[0]] + a[1..][..k] && b[..k + 1] == [b[0]] + b[1..][..k];
      }
    }
  }

  lemma {:induction false} LessTransitive(a: string, b: string, c: string)
    requires Less(a, b) && Less(b, c)
    ensures Less(a, c)
  {
    if a != "" && b != "" && c != "" && a[0] == b[0] && b[0] == c[0] {
      LessTransitive(a[1..], b[1..], c[1..]);
    }
  }

  lemma {:induction false} LessIrreflexive(a: string)
    ensures !Less(a, a)
  {
    if a != "" { LessIrreflexive(a[1..]); }
  }

  lemma {:induction false} LessTotal(a: string, b: string)
    ensures a == b || Less(a, b) || Less(b, a)
  {
    if a != "" && b != "" && a[0] == b[0] {
      LessTotal(a[1..], b[1..]);
      assert a == [a[0]] + a[1..] && b == [b[0]] + b[1..];
    }
  }

  ghost predicate Ascending(l: seq<string>) {
    forall i, j :: 0 <= i < j < |l| ==> Less(l[i], l[j])
  }

  ghost predicate Descending(l: seq<string>) {
    forall i, j :: 0 <= i < j < |l| ==> Less(l[j], l[i])
  }

  function Members(l: seq<string>): set<string> {
    set x | x in l
  }

  /** A strictly descending list is determined by its members. */
  lemma {:induction false} DescendingUnique(a: seq<string>, b: seq<string>)
    requires Descending(a) && Descending(b) && Members(a) == Members(b)
    ensures a == b
  {
    if a == [] {
      if b != [] { SomeMember(b); }
    } else {
      assert a[0] in Members(b) && b != [];
      assert b[0] in Members(a);
      LargestFirst(a, b[0]);
      LargestFirst(b, a[0]);
      if a[0] != b[0] {
        LessTransitive(a[0], b[0], a[0]);
        LessIrreflexive(a[0]);
      }
      assert Members(a[1..]) == Members(b[1..]) by {
        TailMembers(a);
        TailMembers(b);
      }
      DescendingUnique(a[1..], b[1..]);
      assert a == [a[0]] + a[1..] && b == [b[0]] + b[1..];
    }
  }

  lemma SomeMember(l: seq<string>)
    requires l != []
    ensures Members(l) != {}
  {
    assert l[0] in Members(l);
  }

  lemma LargestFirst(l: seq<string>, x: string)
    requires Descending(l) && x in l
    ensures x == l[0] || Less(x, l[0])
  {
  }

  lemma TailMembers(l: seq<string>)
    requires Descending(l) && l != []
    ensures Members(l[1..]) == Members(l) - {l[0]}
  {
    forall i | 1 <= i < |l| ensures l[i] != l[0] {
      if l[i] == l[0] { LessIrreflexive(l[0]); }
    }
    assert l == [l[0]] + l[1..];
  }

  lemma AscendingCons(x: string, l: seq<string>)
    requires Ascending(l) && forall y :: y in l ==> Less(x, y)
    ensures Ascending([x] + l) && Members([x] + l) == {x} + Members(l)
  {
  }

  lemma AboveFirst(x: string, l: seq<string>)
    requires Ascending(l) && l != [] && Less(x, l[0])
    ensures forall y :: y in l ==> Less(x, y)
  {
    forall y | y in l ensures Less(x, y) {
      var i :| 0 <= i < |l| && l[i] == y;
      if i > 0 { LessTransitive(x, l[0], y); }
    }
  }

  lemma AscendingTail(l: seq<string>)
    requires Ascending(l) && l != []
    ensures Ascending(l[1..]) && Members(l) == {l[0]} + Members(l[1..]) && forall y :: y in l[1..] ==> Less(l[0], y)
  {
    assert l == [l[0]] + l[1..];
    forall y | y in l[1..] ensures Less(l[0], y) {
      var i :| 0 <= i < |l[1..]| && l[1..][i] == y;
      assert l[i + 1] == y;
    }
  }

  /** Insertion into a GTree keyed by strcmp: a key already there stays as it is. */
  function Insert(l: seq<string>, x: string): (r: seq<string>)
    requires Ascending(l)
    ensures Ascending(r) && Members(r) == Members(l) + {x}
  {
    if l == [] then [x]
    else if l[0] == x then l
    else if Less(x, l[0]) then
      AboveFirst(x, l);
      AscendingCons(x, l);
      [x] + l
    else
      AscendingTail(l);
      LessTotal(l[0], x);
      var r := Insert(l[1..], x);
      assert forall y :: y in r <==> y in Members(r);
      AscendingCons(l[0], r);
      [l[0]] + r
  }

  function Reverse<T>(l: seq<T>): (r: seq<T>)
    ensures |r| == |l| && forall i :: 0 <= i < |r| ==> r[i] == l[|l| - 1 - i]
  {
    if l == [] then [] else Reverse(l[1..]) + [l[0]]
  }

  lemma ReverseConcat<T>(a: seq<T>, b: seq<T>)
    ensures Reverse(a + b) == Reverse(b) + Reverse(a)
  {
  }

  lemma ReverseTail<T>(l: seq<T>, done: seq<T>)
    requires l != []
    ensures Reverse(l) + done == Reverse(l[1..]) + ([l[0]] + done)
  {
    hide Reverse;
    ReverseStep(l);
    Associative(Reverse(l[1..]), [l[0]], done);
  }

  lemma ReverseStep<T>(l: seq<T>)
    requires l != []
    ensures Reverse(l) == Reverse(l[1..]) + [l[0]]
  {
  }

  lemma Associative<T>(a: seq<T>, b: seq<T>, c: seq<T>)
    ensures (a + b) + c == a + (b + c)
  {
  }

  /** A list that was filled at its head is emptied from there into the last places of an array, the
      last place first. */
  method EmptyInto(list: seq<string>, a: array<string>, from: nat)
    requires from + |list| == a.Length
    modifies a
    ensures a[..] == old(a[..from]) + Reverse(list)
  {
    hide Reverse;
    var i, rest := |list| - 1, list;
    ghost var done: seq<string> := [];
    assert Reverse(list) + done == Reverse(list);
    while i >= 0
      invariant -1 <= i < |list| && |rest| == i + 1 && done == a[from + i + 1..]
      invariant Reverse(rest) + done == Reverse(list)
      invariant a[..from] == old(a[..from])
    {
      ReverseTail(rest, done);
      a[from + i] := rest[0];
      assert a[from + i + 1..] == done;
      assert a[from + i..] == [rest[0]] + done;
      done := [rest[0]] + done;
      rest := rest[1..];
      i := i - 1;
    }
    assert Reverse(rest) + done == done;
    assert a[..] == a[..from] + a[from..];
  }
}
