/**
 The configuration file reader (gebr/cmdline.c): every line becomes one argument of an argument
 vector, and `include` lines put another file's arguments in place.
 */
module ConfigFile {
  import opened Strings

  const LINE_SIZE: nat := 2048

  // ---------------------------------------------------------------- one line

  datatype Line = Skip | Argument(text: string) | Include(file: string) | IncludeNothing | Bad

  predicate Blank(c: char) { c == ' ' || c == '\t' || c == '\r' || c == '\n' }

  function DropBlanks(s: string): (r: string)
    ensures |r| <= |s| && (r != "" ==> !Blank(r[0]))
  {
    if s != "" && Blank(s[0]) then DropBlanks(s[1..]) else s
  }

  /** Where the option name ends: at a blank or an equals sign. */
  function NameEnd(s: string): (n: nat)
    ensures n <= |s|
    ensures n < |s| ==> Blank(s[n]) || s[n] == '='
    ensures forall i :: 0 <= i < n ==> !Blank(s[i]) && s[i] != '='
  {
    if s == "" || Blank(s[0]) || s[0] == '=' then 0 else 1 + NameEnd(s[1..])
  }

  predicate Quote(c: char) { c == '"' || c == '\'' }

  /** Where an unquoted argument ends. */
  function BareEnd(s: string): (n: nat)
    ensures n <= |s|
    ensures n < |s| ==> Blank(s[n]) || s[n] == '#' || Quote(s[n])
    ensures forall i :: 0 <= i < n ==> !Blank(s[i]) && s[i] != '#' && !Quote(s[i])
  {
    if s == "" || Blank(s[0]) || s[0] == '#' || Quote(s[0]) then 0 else 1 + BareEnd(s[1..])
  }

  /** strchr: the first place of `c`, or the length. */
  function Find(s: string, c: char): (n: nat)
    ensures n <= |s| && (n < |s| ==> s[n] == c)
    ensures forall i :: 0 <= i < n ==> s[i] != c
  {
    if s == "" || s[0] == c then 0 else 1 + Find(s[1..], c)
  }

  /** Nothing but blanks and a comment may follow the delimiter that ends an argument. */
  predicate CleanTail(after: string) {
    after == "" || after[0] == '#' ||
    var t := DropBlanks(after[1..]); t == "" || t[0] == '#'
  }

  function Assemble(fopt: string, farg: string, equal: bool): Line {
    if fopt == "include" then
      if farg != "" then Include(farg) else IncludeNothing
    else
      Argument((if |fopt| > 1 then "--" else "-") + fopt +
               (if |fopt| > 1 && (farg != "" || equal) then "=" else "") + farg)
  }

  function ParseArgument(fopt: string, rest: string, equal: bool): Line {
    if rest != "" && Quote(rest[0]) then
      var n := Find(rest[1..], rest[0]);
      if n == |rest[1..]| then Bad
      else if CleanTail(rest[1..][n..]) then Assemble(fopt, rest[1..][..n], equal) else Bad
    else
      var n := BareEnd(rest);
      if CleanTail(rest[n..]) then Assemble(fopt, rest[..n], equal) else Bad
  }

  function ParseLine(line: string): Line {
    var l := DropBlanks(line);
    if l == "" || l[0] == '#' then Skip
    else
      var n := NameEnd(l);
      if n == |l| then Assemble(l, "", false)
      else if l[n] == '=' then ParseArgument(l[..n], DropBlanks(l[n + 1..]), true)
      else
        var r := DropBlanks(l[n + 1..]);
        if r != "" && r[0] == '=' then ParseArgument(l[..n], DropBlanks(r[1..]), true)
        else ParseArgument(l[..n], r, false)
  }

  lemma ParseArgumentFits(fopt: string, rest: string, equal: bool)
    ensures var p := ParseArgument(fopt, rest, equal); p.Argument? ==> |p.text| <= |fopt| + |rest| + 3
  {
  }

  /** The assembled argument needs at most two characters more than its line had, so with the
      terminator it fits the buffer of LINE_SIZE + 4 for every line fgets can deliver. */
  lemma ArgumentFits(line: string)
    ensures ParseLine(line).Argument? ==> |ParseLine(line).text| <= |line| + 2
    ensures |line| <= LINE_SIZE - 1 && ParseLine(line).Argument? ==> |ParseLine(line).text| + 1 <= LINE_SIZE + 3 + 1
  {
    hide ParseArgument, DropBlanks, NameEnd;
    var l := DropBlanks(line);
    if l != "" && l[0] != '#' {
      var n := NameEnd(l);
      if n < |l| {
        var r := DropBlanks(l[n + 1..]);
        ParseArgumentFits(l[..n], r, l[n] == '=');
        if r != "" { ParseArgumentFits(l[..n], DropBlanks(r[1..]), true); }
      }
    }
  }

  // ---------------------------------------------------------------- fgets

  /** How much one fgets call takes: up to a newline, and never more than `max`. */
  function ChunkLen(text: string, max: nat): (n: nat)
    ensures n <= |text| && n <= max && (text != "" && max > 0 ==> n > 0)
    ensures forall i :: 0 <= i < n - 1 ==> text[i] != '\n'
    ensures n < |text| && n < max ==> n > 0 && text[n - 1] == '\n'
  {
    if text == "" || max == 0 then 0 else if text[0] == '\n' then 1 else 1 + ChunkLen(text[1..], max - 1)
  }

  function FirstLine(text: string): string { text[..ChunkLen(text, LINE_SIZE - 1)] }

  function OtherLines(text: string): (r: string)
    ensures text != "" ==> |r| < |text|
  {
    text[ChunkLen(text, LINE_SIZE - 1)..]
  }

  method Fgets(text: string) returns (line: string, rest: string)
    ensures line == FirstLine(text) && rest == OtherLines(text)
  {
    var n := 0;
    while n < |text| && n < LINE_SIZE - 1 && (n == 0 || text[n - 1] != '\n')
      invariant 0 <= n <= |text| && n <= LINE_SIZE - 1
      invariant ChunkLen(text, LINE_SIZE - 1) ==
        n + if n > 0 && text[n - 1] == '\n' then 0 else ChunkLen(text[n..], LINE_SIZE - 1 - n)
    {
      assert text[n..][1..] == text[n + 1..];
      n := n + 1;
    }
    line, rest := text[..n], text[n..];
  }

  // ---------------------------------------------------------------- whole files

  type Files = map<string, string>
  type Ranks = map<string, nat>

  /** Every file the text includes, if it is there, ranks below `bound`. */
  predicate IncludesBelow(fs: Files, rank: Ranks, text: string, bound: nat)
    decreases |text|
  {
    text == "" || (
      var l := ParseLine(FirstLine(text));
      (l.Include? && l.file in fs ==> l.file in rank && rank[l.file] < bound) &&
      IncludesBelow(fs, rank, OtherLines(text), bound))
  }

  /** Inclusion has no cycles, as witnessed by `rank`. */
  ghost predicate Acyclic(fs: Files, rank: Ranks) {
    forall f :: f in fs ==> f in rank && IncludesBelow(fs, rank, fs[f], rank[f])
  }

  /** What reading a file adds to the argument vector, and whether the read reports success. */
  ghost function ReadFile(fs: Files, rank: Ranks, name: string): (seq<string>, bool)
    requires Acyclic(fs, rank)
    decreases if name in rank then rank[name] + 1 else 0, 0
  {
    if name !in fs then ([], false) else ReadLines(fs, rank, fs[name], rank[name], true)
  }

  ghost function ReadLines(fs: Files, rank: Ranks, text: string, bound: nat, ok: bool): (seq<string>, bool)
    requires Acyclic(fs, rank) && IncludesBelow(fs, rank, text, bound)
    decreases bound, |text| + 1
  {
    if text == "" then ([], ok) else
      var line := ParseLine(FirstLine(text));
      if line.Bad? then ([], false) else
        var (args, r) := LineEffect(fs, rank, line, bound, ok);
        var (args', r') := ReadLines(fs, rank, OtherLines(text), bound, r);
        (args + args', r')
  }

  /** What a line that is not bad adds, and the status after it. */
  ghost function LineEffect(fs: Files, rank: Ranks, line: Line, bound: nat, ok: bool): (seq<string>, bool)
    requires Acyclic(fs, rank) && (line.Include? && line.file in fs ==> line.file in rank && rank[line.file] < bound)
    decreases bound, 1
  {
    match line
    case Argument(a) => ([a], ok)
    case Include(f) => if f in fs then ReadFile(fs, rank, f) else ([], false)
    case _ => ([], ok)
  }

  /** _cmdline_parser_configfile: arguments go to the head of a global list and are counted. */
  method ParseConfigFile(fs: Files, ghost rank: Ranks, name: string, list: seq<string>, argc: nat)
    returns (ok: bool, list': seq<string>, argc': nat)
    requires Acyclic(fs, rank)
    ensures ok == ReadFile(fs, rank, name).1
    ensures list' == Reverse(ReadFile(fs, rank, name).0) + list && argc' == argc + |ReadFile(fs, rank, name).0|
    decreases if name in rank then rank[name] + 1 else 0, 0
  {
    list', argc' := list, argc;
    if name !in fs {
      return false, list', argc';
    }
    ok := true;
    var text := fs[name];
    ghost var bound, target := rank[name], ReadFile(fs, rank, name);
    while text != ""
      invariant IncludesBelow(fs, rank, text, bound)
      invariant target.1 == ReadLines(fs, rank, text, bound, ok).1
      invariant Reverse(target.0) + list == Reverse(ReadLines(fs, rank, text, bound, ok).0) + list'
      invariant argc + |target.0| == argc' + |ReadLines(fs, rank, text, bound, ok).0|
      decreases |text|
    {
      var chunk, rest := Fgets(text);
      var line := ParseLine(chunk);
      if line.Bad? {
        return false, list', argc';
      }
      ghost var args := LineEffect(fs, rank, line, bound, ok).0;
      ghost var before, r := list', LineEffect(fs, rank, line, bound, ok).1;
      ok, list', argc' := TakeLine(fs, rank, line, bound, ok, list', argc');
      PushMany(args, ReadLines(fs, rank, rest, bound, r).0, before);
      text := rest;
    }
  }

  method TakeLine(fs: Files, ghost rank: Ranks, line: Line, ghost bound: nat, ok: bool, list: seq<string>, argc: nat)
    returns (ok': bool, list': seq<string>, argc': nat)
    requires Acyclic(fs, rank) && (line.Include? && line.file in fs ==> line.file in rank && rank[line.file] < bound)
    ensures ok' == LineEffect(fs, rank, line, bound, ok).1
    ensures list' == Reverse(LineEffect(fs, rank, line, bound, ok).0) + list
    ensures argc' == argc + |LineEffect(fs, rank, line, bound, ok).0|
    decreases bound, 1
  {
    ok', list', argc' := ok, list, argc;
    match line
    case Argument(a) =>
      list' := [a] + list;
      argc' := argc + 1;
    case Include(f) =>
      if f in fs {
        ok', list', argc' := ParseConfigFile(fs, rank, f, list, argc);
      } else {
        ok' := false;
      }
    case _ =>
  }

  lemma PushMany(xs: seq<string>, more: seq<string>, list: seq<string>)
    ensures Reverse(xs + more) + list == Reverse(more) + (Reverse(xs) + list)
  {
    ReverseConcat(xs, more);
  }

  /** cmdline_parser_config_file: the list is emptied from its head into an array, last argument
      first, after the program's own name. Nothing is returned when the read failed. */
  method BuildArgv(fs: Files, ghost rank: Ranks, name: string, program: string) returns (argv: Option<array<string>>)
    requires Acyclic(fs, rank)
    ensures argv.Some? <==> ReadFile(fs, rank, name).1
    ensures argv.Some? ==> argv.value[..] == [program] + ReadFile(fs, rank, name).0
  {
    hide ReadFile, Acyclic, Reverse;
    var ok, list, argc := ParseConfigFile(fs, rank, name, [program], 1);
    if !ok { return None; }
    ghost var args := ReadFile(fs, rank, name).0;
    ReverseConcat([program], args);
    ReverseOne(program);
    var a := new string[argc](_ => "");
    EmptyInto(list, a, 0);
    ReverseTwice([program] + args);
    assert a[..] == Reverse(list);
    argv := Some(a);
  }

  lemma ReverseOne(x: string)
    ensures Reverse([x]) == [x]
  {
  }

  lemma ReverseTwice(l: seq<string>)
    ensures Reverse(Reverse(l)) == l
  {
  }

  // ---------------------------------------------------------------- what is accepted

  /** The file named by the last include line, if any. */
  function LastInclude(text: string): Option<string>
    decreases |text|
  {
    if text == "" then None else
      var later := LastInclude(OtherLines(text));
      if later.Some? then later
      else match ParseLine(FirstLine(text)) case Include(f) => Some(f) case _ => None
  }

  predicate NoBadLine(text: string)
    decreases |text|
  {
    text == "" || (!ParseLine(FirstLine(text)).Bad? && NoBadLine(OtherLines(text)))
  }

  /** A file is accepted when it exists, none of its own lines is bad, and the file it includes
      last is accepted: what happens in any other included file is forgotten. */
  ghost predicate Accepted(fs: Files, rank: Ranks, name: string)
    requires Acyclic(fs, rank)
    decreases if name in rank then rank[name] else 0
  {
    && name in fs && NoBadLine(fs[name])
    && match LastInclude(fs[name])
       case None => true
       case Some(f) => f in fs && (LastIncludeBelow(fs, rank, fs[name], rank[name]); Accepted(fs, rank, f))
  }

  lemma {:induction false} LastIncludeBelow(fs: Files, rank: Ranks, text: string, bound: nat)
    requires IncludesBelow(fs, rank, text, bound)
    ensures var l := LastInclude(text); l.Some? && l.value in fs ==> l.value in rank && rank[l.value] < bound
    decreases |text|
  {
    if text != "" { LastIncludeBelow(fs, rank, OtherLines(text), bound); }
  }

  /** The status returned by the reader is success exactly for accepted files. */
  lemma {:induction false} SuccessIffAccepted(fs: Files, rank: Ranks, name: string)
    requires Acyclic(fs, rank)
    ensures ReadFile(fs, rank, name).1 <==> Accepted(fs, rank, name)
    decreases if name in rank then rank[name] + 1 else 0, 0
  {
    if name in fs {
      LinesStatus(fs, rank, fs[name], rank[name], true);
    }
  }

  lemma {:induction false} LinesStatus(fs: Files, rank: Ranks, text: string, bound: nat, ok: bool)
    requires Acyclic(fs, rank) && IncludesBelow(fs, rank, text, bound)
    ensures ReadLines(fs, rank, text, bound, ok).1 <==>
      NoBadLine(text) && match LastInclude(text) case None => ok case Some(f) => f in fs && Accepted(fs, rank, f)
    decreases bound, |text| + 1
  {
    if text != "" {
      var line := ParseLine(FirstLine(text));
      if !line.Bad? {
        if line.Include? && line.file in fs { SuccessIffAccepted(fs, rank, line.file); }
        LinesStatus(fs, rank, OtherLines(text), bound, LineEffect(fs, rank, line, bound, ok).1);
      }
    }
  }

  // ---------------------------------------------------------------- sound files

  /** The lines of a text, each with its arguments or with the file it stands for. */
  function LinesOf(text: string): seq<Line>
    decreases |text|
  {
    if text == "" then [] else [ParseLine(FirstLine(text))] + LinesOf(OtherLines(text))
  }

  ghost predicate ListBelow(fs: Files, rank: Ranks, ls: seq<Line>, bound: nat) {
    forall i :: 0 <= i < |ls| && ls[i].Include? && ls[i].file in fs ==> ls[i].file in rank && rank[ls[i].file] < bound
  }

  lemma {:induction false} LinesBelow(fs: Files, rank: Ranks, text: string, bound: nat)
    requires IncludesBelow(fs, rank, text, bound)
    ensures ListBelow(fs, rank, LinesOf(text), bound)
    decreases |text|
  {
    if text != "" { LinesBelow(fs, rank, OtherLines(text), bound); }
  }

  /** The lines in order, an include replaced by the expansion of its file. */
  ghost function Expansion(fs: Files, rank: Ranks, ls: seq<Line>, bound: nat): seq<string>
    requires Acyclic(fs, rank) && ListBelow(fs, rank, ls, bound)
    decreases bound, |ls|
  {
    if ls == [] then [] else
      (match ls[0]
       case Argument(a) => [a]
       case Include(f) =>
         if f in fs then LinesBelow(fs, rank, fs[f], rank[f]); Expansion(fs, rank, LinesOf(fs[f]), rank[f]) else []
       case _ => []) + Expansion(fs, rank, ls[1..], bound)
  }

  /** No bad line and no missing file, all the way down. */
  ghost predicate Sound(fs: Files, rank: Ranks, name: string)
    requires Acyclic(fs, rank)
    decreases if name in rank then rank[name] else 0
  {
    name in fs && (LinesBelow(fs, rank, fs[name], rank[name]);
      forall i :: 0 <= i < |LinesOf(fs[name])| ==>
        var l := LinesOf(fs[name])[i];
        !l.Bad? && (l.Include? ==>
          l.file in fs && l.file in rank && rank[l.file] < rank[name] && Sound(fs, rank, l.file)))
  }

  /** A sound file reads successfully as its in-order expansion. */
  lemma {:induction false} SoundReadsExpansion(fs: Files, rank: Ranks, name: string)
    requires Acyclic(fs, rank) && Sound(fs, rank, name)
    ensures ListBelow(fs, rank, LinesOf(fs[name]), rank[name])
    ensures ReadFile(fs, rank, name) == (Expansion(fs, rank, LinesOf(fs[name]), rank[name]), true)
    decreases rank[name], 1, 0
  {
    LinesBelow(fs, rank, fs[name], rank[name]);
    SoundLines(fs, rank, fs[name], rank[name]);
  }

  ghost predicate SoundList(fs: Files, rank: Ranks, ls: seq<Line>, bound: nat)
    requires Acyclic(fs, rank)
  {
    forall i :: 0 <= i < |ls| ==>
      && !ls[i].Bad?
      && (ls[i].Include? ==>
            ls[i].file in fs && ls[i].file in rank && rank[ls[i].file] < bound && Sound(fs, rank, ls[i].file))
  }

  lemma {:induction false} SoundLines(fs: Files, rank: Ranks, text: string, bound: nat)
    requires Acyclic(fs, rank) && IncludesBelow(fs, rank, text, bound)
    requires SoundList(fs, rank, LinesOf(text), bound)
    ensures ListBelow(fs, rank, LinesOf(text), bound)
    ensures ReadLines(fs, rank, text, bound, true) == (Expansion(fs, rank, LinesOf(text), bound), true)
    decreases bound, 0, |text|
  {
    LinesBelow(fs, rank, text, bound);
    if text != "" {
      var l := LinesOf(text)[0];
      assert LinesOf(text)[1..] == LinesOf(OtherLines(text));
      if l.Include? { SoundReadsExpansion(fs, rank, l.file); }
      SoundLines(fs, rank, OtherLines(text), bound);
    }
  }

  // ---------------------------------------------------------------- reading given text

  lemma {:induction false} NameEndsAt(t: string, x: string)
    requires forall i :: 0 <= i < |t| ==> 'a' <= t[i] <= 'z'
    requires x == "" || Blank(x[0]) || x[0] == '='
    ensures NameEnd(t + x) == |t|
  {
    if t == "" {
      assert t + x == x;
    } else {
      NameEndsAt(t[1..], x);
      assert (t + x)[1..] == t[1..] + x;
    }
  }

  lemma {:induction false} ChunkRunsOver(body: string, x: string, max: nat)
    requires '\n' !in body && |body| <= max
    ensures ChunkLen(body + x, max) == |body| + ChunkLen(x, max - |body|)
  {
    if body == "" {
      assert body + x == x;
    } else {
      assert (body + x)[0] == body[0] && body[0] in body;
      assert (body + x)[1..] == body[1..] + x;
      assert forall c :: c in body[1..] ==> c in body;
      ChunkRunsOver(body[1..], x, max - 1);
    }
  }

  /** A line is taken with its newline when both fit, and without it when only the line does. */
  lemma TakesLine(body: string, x: string)
    requires '\n' !in body && |body| <= LINE_SIZE - 1
    ensures var text, fits := body + ("\n" + x), |body| < LINE_SIZE - 1;
      && FirstLine(text) == (if fits then body + "\n" else body)
      && OtherLines(text) == (if fits then x else "\n" + x)
  {
    var nl := "\n" + x;
    ChunkRunsOver(body, nl, LINE_SIZE - 1);
    assert ChunkLen(nl, LINE_SIZE - 1 - |body|) == if |body| < LINE_SIZE - 1 then 1 else 0;
    var text, n := body + nl, ChunkLen(body + nl, LINE_SIZE - 1);
    assert text[..|body|] == body && text[|body|..] == nl;
    assert text[..|body| + 1] == body + "\n" && text[|body| + 1..] == x;
  }

  /** An include line for a one-letter file. */
  lemma IncludeLine(c: char, nl: string)
    requires 'a' <= c <= 'z' && (nl == "" || nl == "\n")
    ensures ParseLine("include " + [c] + nl) == Include([c])
  {
    var rest := [c] + nl;
    var line := "include " + [c] + nl;
    assert line == "include" + ([' '] + rest);
    NameEndsAt("include", [' '] + rest);
    assert line[..7] == "include" && line[7] == ' ' && line[8..] == rest && line[0] == 'i';
    assert BareEnd(nl) == 0 && rest[1..] == nl;
    assert BareEnd(rest) == 1 && rest[..1] == [c];
    assert CleanTail(nl) by { if nl != "" { assert nl[1..] == ""; } }
  }

  /** A file of two lines, the first for a file that is missing and the second for an empty one, is
      accepted. */
  lemma SecondIncludeDecides(fs: Files, rank: Ranks, name: string, x: string, y: string)
    requires Acyclic(fs, rank) && name in fs && x !in fs && y in fs && fs[y] == "" && fs[name] != ""
    requires ParseLine(FirstLine(fs[name])) == Include(x) && OtherLines(fs[name]) != ""
    requires ParseLine(FirstLine(OtherLines(fs[name]))) == Include(y) && OtherLines(OtherLines(fs[name])) == ""
    ensures ReadFile(fs, rank, name) == ([], true) && !Sound(fs, rank, name)
  {
    hide ParseLine, FirstLine, OtherLines;
    var text, last, bound := fs[name], OtherLines(fs[name]), rank[name];
    assert IncludesBelow(fs, rank, text, bound) && IncludesBelow(fs, rank, last, bound);
    assert LinesOf(text)[0] == Include(x);
    assert ReadFile(fs, rank, y) == ([], true);
    assert LineEffect(fs, rank, Include(y), bound, false) == ([], true);
    assert ReadLines(fs, rank, "", bound, true) == ([], true);
    var none: seq<string> := [];
    assert none + none == none;
    assert ReadLines(fs, rank, last, bound, false) == (none, true);
    assert LineEffect(fs, rank, Include(x), bound, true) == (none, false);
    assert ReadLines(fs, rank, text, bound, true) == (none + none, true);
  }

  lemma IncludeForgotten(fs: Files, rank: Ranks)
    requires Acyclic(fs, rank) && "m" in fs && fs["m"] == "include x" + ("\n" + ("include y" + ("\n" + "")))
    requires "x" !in fs && "y" in fs && fs["y"] == ""
    ensures ReadFile(fs, rank, "m") == ([], true) && !Sound(fs, rank, "m")
  {
    var last := "include y" + ("\n" + "");
    TakesLine("include x", last);
    TakesLine("include y", "");
    IncludeLine('x', "\n");
    IncludeLine('y', "\n");
    assert "include " + ['x'] + "\n" == "include x" + "\n" && "include " + ['y'] + "\n" == "include y" + "\n";
    assert ['x'] == "x" && ['y'] == "y";
    hide ParseLine, FirstLine, OtherLines, ChunkLen, ReadFile, Sound;
    SecondIncludeDecides(fs, rank, "m", "x", "y");
  }
}
