/**
 The option record of the program (gebr/cmdline.c): dumping it as a configuration file, and getting
 a record back from such a file through the reader and the argument parser.

 A dumped record is a list of entries, one line each; the round trip is proved entry by entry and
 then for records.
 */
module Options {
  import opened Strings
  import opened ConfigFile
  import Tokens

  datatype Key = Name | Email | UserMenus | Data | Editor | Browser | Width | Height

  datatype Opt = Single(key: Key) | LogExpand | Server

  /** What was given, each value as the text it was given in; a missing key was not given. */
  datatype Record = Record(values: map<Key, string>, logExpand: bool, servers: seq<string>)

  const EMPTY := Record(map[], false, [])

  const KEYS := [Name, Email, UserMenus, Data, Editor, Browser, Width, Height]

  function NameOf(o: Opt): string {
    match o
    case Single(Name) => "name"
    case Single(Email) => "email"
    case Single(UserMenus) => "usermenus"
    case Single(Data) => "data"
    case Single(Editor) => "editor"
    case Single(Browser) => "browser"
    case Single(Width) => "width"
    case Single(Height) => "height"
    case LogExpand => "logexpand"
    case Server => "server"
  }

  function OptNamed(name: string): Option<Opt> {
    match name
    case "name" => Some(Single(Name))
    case "email" => Some(Single(Email))
    case "usermenus" => Some(Single(UserMenus))
    case "data" => Some(Single(Data))
    case "editor" => Some(Single(Editor))
    case "browser" => Some(Single(Browser))
    case "width" => Some(Single(Width))
    case "height" => Some(Single(Height))
    case "logexpand" => Some(LogExpand)
    case "server" => Some(Server)
    case _ => None
  }

  /** What the readers need of an option name. */
  predicate GoodName(t: string) {
    1 < |t| < 16 && t != "include" && forall i :: 0 <= i < |t| ==> 'a' <= t[i] <= 'z'
  }

  lemma NameRoundTrip(o: Opt)
    ensures OptNamed(NameOf(o)) == Some(o) && GoodName(NameOf(o))
  {
  }

  // ---------------------------------------------------------------- parsing an argument vector

  /** One option applied to the record: single options may come once, sizes must be numbers, and a
      server value may hold several servers. */
  function Apply(numeric: string -> bool, rec: Record, o: Opt, val: string): Option<Record> {
    match o
    case LogExpand => if rec.logExpand then None else Some(rec.(logExpand := true))
    case Server => Some(rec.(servers := rec.servers + Tokens.Tokens('=', val)))
    case Single(k) =>
      if k in rec.values then None
      else if (k == Width || k == Height) && !numeric(val) then None
      else Some(rec.(values := rec.values[k := val]))
  }

  /** One argument of the vector, given in full as `--name` or `--name=value`. */
  function ApplyArgument(numeric: string -> bool, rec: Record, arg: string): Option<Record> {
    if |arg| < 2 || arg[..2] != "--" then None
    else
      var body := arg[2..];
      var n := Find(body, '=');
      var opt := OptNamed(body[..n]);
      if opt.None? || (opt.value == LogExpand) != (n == |body|) then None
      else Apply(numeric, rec, opt.value, if n == |body| then "" else body[n + 1..])
  }

  function ParseArguments(numeric: string -> bool, rec: Record, args: seq<string>): Option<Record>
    decreases |args|
  {
    if args == [] then Some(rec) else
      match ApplyArgument(numeric, rec, args[0])
      case None => None
      case Some(r) => ParseArguments(numeric, r, args[1..])
  }

  /** What has been given stays as it was given. */
  lemma {:induction false} ParseKeeps(numeric: string -> bool, rec: Record, args: seq<string>)
    ensures var r := ParseArguments(numeric, rec, args);
      r.Some? ==> rec.servers <= r.value.servers &&
                  forall k :: k in rec.values ==> k in r.value.values && r.value.values[k] == rec.values[k]
    decreases |args|
  {
    if args != [] {
      var r := ApplyArgument(numeric, rec, args[0]);
      if r.Some? { ParseKeeps(numeric, r.value, args[1..]); }
    }
  }

  // ---------------------------------------------------------------- which arguments are taken

  /** The names on the command line. */
  lemma OptionNames()
    ensures NameOf(Single(Name)) == "name" && NameOf(Single(Email)) == "email" && NameOf(Single(Data)) == "data"
    ensures NameOf(Single(UserMenus)) == "usermenus" && NameOf(Single(Editor)) == "editor"
    ensures NameOf(Single(Browser)) == "browser" && NameOf(Single(Width)) == "width"
    ensures NameOf(Single(Height)) == "height" && NameOf(LogExpand) == "logexpand" && NameOf(Server) == "server"
  {
  }

  lemma NameHasNoSign(name: string, x: string)
    requires '=' !in name
    ensures Find(name + (['='] + x), '=') == |name| && Find(name, '=') == |name|
  {
    var body := name + (['='] + x);
    assert body[|name|] == '=' && forall i :: 0 <= i < |name| ==> body[i] == name[i] && name[i] in name;
  }

  /** An argument with a value: a single option is refused the second time and a size that is no
      number always; the servers in the value come after those there were; a flag takes no value. */
  lemma ValueTaken(numeric: string -> bool, rec: Record, o: Opt, val: string)
    ensures ApplyArgument(numeric, rec, "--" + NameOf(o) + "=" + val) ==
      match o
      case LogExpand => None
      case Server => Some(rec.(servers := rec.servers + Tokens.Tokens('=', val)))
      case Single(k) =>
        if k in rec.values || ((k == Width || k == Height) && !numeric(val)) then None
        else Some(Record(rec.values[k := val], rec.logExpand, rec.servers))
  {
    hide NameOf, OptNamed;
    var arg, body := "--" + NameOf(o) + "=" + val, NameOf(o) + (['='] + val);
    NameRoundTrip(o);
    NameHasNoSign(NameOf(o), val);
    assert arg == "--" + body && arg[..2] == "--" && arg[2..] == body;
    assert body[..|NameOf(o)|] == NameOf(o) && body[|NameOf(o)| + 1..] == val;
  }

  /** An argument without a value: only the flag goes without one, and only once. */
  lemma FlagTaken(numeric: string -> bool, rec: Record, o: Opt)
    ensures ApplyArgument(numeric, rec, "--" + NameOf(o)) ==
      if o == LogExpand && !rec.logExpand then Some(Record(rec.values, true, rec.servers)) else None
  {
    hide NameOf, OptNamed;
    var arg := "--" + NameOf(o);
    NameRoundTrip(o);
    NameHasNoSign(NameOf(o), "");
    assert arg[..2] == "--" && arg[2..] == NameOf(o) && NameOf(o)[..|NameOf(o)|] == NameOf(o);
  }

  /** Nothing else is taken. */
  lemma OnlyOptionsTaken(numeric: string -> bool, rec: Record, arg: string) returns (o: Opt, val: Option<string>)
    requires ApplyArgument(numeric, rec, arg).Some?
    ensures arg == "--" + (NameOf(o) + match val case None => "" case Some(v) => ['='] + v)
  {
    hide NameOf, OptNamed, Apply, Find;
    var body := arg[2..];
    var n := Find(body, '=');
    o := OptNamed(body[..n]).value;
    NameFound(body[..n]);
    assert arg == "--" + body;
    if n < |body| {
      val := Some(body[n + 1..]);
      assert body == body[..n] + (['='] + body[n + 1..]);
    } else {
      val := None;
      assert body == body[..n] + "";
    }
  }

  lemma NameFound(name: string)
    ensures OptNamed(name).Some? ==> NameOf(OptNamed(name).value) == name
  {
  }

  /** Several servers in one value, escaped and joined by commas, are all added. */
  lemma ServersTaken(numeric: string -> bool, rec: Record, servers: seq<string>)
    requires |servers| >= 1 && Tokens.Joinable('=', servers)
    ensures ApplyArgument(numeric, rec, "--" + NameOf(Server) + "=" + Tokens.Join(servers)) ==
      Some(rec.(servers := rec.servers + servers))
  {
    Tokens.JoinThenExtract('=', servers);
    hide ApplyArgument, NameOf, Tokens.Join, Tokens.Joinable, Tokens.Tokens;
    ValueTaken(numeric, rec, Server, Tokens.Join(servers));
  }

  // ---------------------------------------------------------------- dumping

  datatype Entry = Entry(opt: Opt, val: string)

  function SingleEntries(rec: Record, keys: seq<Key>): seq<Entry> {
    if keys == [] then [] else
      (if keys[0] in rec.values then [Entry(Single(keys[0]), rec.values[keys[0]])] else []) +
      SingleEntries(rec, keys[1..])
  }

  function ServerEntries(servers: seq<string>): seq<Entry> {
    if servers == [] then [] else [Entry(Server, servers[0])] + ServerEntries(servers[1..])
  }

  function Entries(rec: Record): seq<Entry> {
    SingleEntries(rec, KEYS) + (if rec.logExpand then [Entry(LogExpand, "")] else []) + ServerEntries(rec.servers)
  }

  /** write_into_file. */
  function LineFor(e: Entry): string {
    if e.opt == LogExpand then NameOf(e.opt) + "\n" else NameOf(e.opt) + "=\"" + e.val + "\"\n"
  }

  function LinesFor(es: seq<Entry>): (r: seq<string>)
    ensures |r| == |es| && forall i :: 0 <= i < |r| ==> r[i] == LineFor(es[i])
  {
    seq(|es|, i requires 0 <= i < |es| => LineFor(es[i]))
  }

  function Flat(xs: seq<string>): string {
    if xs == [] then "" else xs[0] + Flat(xs[1..])
  }

  function TextFor(es: seq<Entry>): string { Flat(LinesFor(es)) }

  lemma {:induction false} FlatSnoc(xs: seq<string>, x: string)
    ensures Flat(xs + [x]) == Flat(xs) + x
  {
    if xs == [] {
      assert [x][1..] == [];
    } else {
      FlatSnoc(xs[1..], x);
      assert (xs + [x])[1..] == xs[1..] + [x];
      assert xs[0] + (Flat(xs[1..]) + x) == (xs[0] + Flat(xs[1..])) + x;
    }
  }

  /** The order of a dump: the single options as the program lists them, the flag, the servers. */
  lemma DumpOrder(rec: Record)
    ensures Entries(rec) ==
      Given(rec, Name) + (Given(rec, Email) + (Given(rec, UserMenus) + (Given(rec, Data) + (Given(rec, Editor) +
      (Given(rec, Browser) + (Given(rec, Width) + Given(rec, Height))))))) +
      (if rec.logExpand then [Entry(LogExpand, "")] else []) + ServerEntries(rec.servers)
  {
    GivenFirst(rec, Width, [Height]);
    GivenFirst(rec, Browser, [Width, Height]);
    GivenFirst(rec, Editor, [Browser, Width, Height]);
    GivenFirst(rec, Data, [Editor, Browser, Width, Height]);
    GivenFirst(rec, UserMenus, [Data, Editor, Browser, Width, Height]);
    GivenFirst(rec, Email, [UserMenus, Data, Editor, Browser, Width, Height]);
    GivenFirst(rec, Name, [Email, UserMenus, Data, Editor, Browser, Width, Height]);
    GivenFirst(rec, Height, []);
  }

  lemma GivenFirst(rec: Record, k: Key, keys: seq<Key>)
    ensures SingleEntries(rec, [k] + keys) == Given(rec, k) + SingleEntries(rec, keys)
    ensures keys == [] ==> SingleEntries(rec, [k]) == Given(rec, k)
  {
    assert ([k] + keys)[1..] == keys;
    if keys == [] {
      assert [k] + keys == [k] && SingleEntries(rec, keys) == [];
      assert Given(rec, k) + [] == Given(rec, k);
    }
  }

  function Given(rec: Record, k: Key): seq<Entry> {
    if k in rec.values then [Entry(Single(k), rec.values[k])] else []
  }

  method WriteEntry(out: string, ghost done: seq<Entry>, e: Entry) returns (out': string)
    requires out == TextFor(done)
    ensures out' == TextFor(done + [e])
  {
    var line := LineFor(e);
    FlatSnoc(LinesFor(done), line);
    assert LinesFor(done + [e]) == LinesFor(done) + [line];
    out' := out + line;
  }

  /** cmdline_parser_dump: the options in a fixed order, the servers last. */
  method Dump(rec: Record) returns (out: string)
    ensures out == TextFor(Entries(rec))
  {
    ghost var done: seq<Entry>;
    out, done := DumpSingles(rec);
    if rec.logExpand {
      out := WriteEntry(out, done, Entry(LogExpand, ""));
      done := done + [Entry(LogExpand, "")];
    }
    out := DumpServers(rec.servers, out, done);
    assert Entries(rec) == done + ServerEntries(rec.servers);
  }

  lemma SingleStep(rec: Record, keys: seq<Key>, done: seq<Entry>)
    requires keys != []
    ensures done + SingleEntries(rec, keys) ==
      (if keys[0] in rec.values then done + [Entry(Single(keys[0]), rec.values[keys[0]])] else done) +
      SingleEntries(rec, keys[1..])
  {
    var rest := SingleEntries(rec, keys[1..]);
    if keys[0] in rec.values {
      Associative(done, [Entry(Single(keys[0]), rec.values[keys[0]])], rest);
    } else {
      assert [] + rest == rest;
    }
  }

  method DumpSingles(rec: Record) returns (out: string, ghost done: seq<Entry>)
    ensures done == SingleEntries(rec, KEYS) && out == TextFor(done)
  {
    out, done := NoText(), [];
    var keys := KEYS;
    hide SingleEntries, TextFor, KEYS;
    assert done + SingleEntries(rec, keys) == SingleEntries(rec, KEYS);
    while keys != []
      invariant out == TextFor(done) && SingleEntries(rec, KEYS) == done + SingleEntries(rec, keys)
      decreases |keys|
    {
      SingleStep(rec, keys, done);
      if keys[0] in rec.values {
        var e := Entry(Single(keys[0]), rec.values[keys[0]]);
        out := WriteEntry(out, done, e);
        done := done + [e];
      }
      keys := keys[1..];
    }
    NoSingles(rec);
    assert done + [] == done;
  }

  function NoText(): (r: string)
    ensures r == TextFor([])
  {
    ""
  }

  lemma NoSingles(rec: Record)
    ensures SingleEntries(rec, []) == []
  {
  }

  method DumpServers(servers: seq<string>, text: string, ghost before: seq<Entry>) returns (out: string)
    requires text == TextFor(before)
    ensures out == TextFor(before + ServerEntries(servers))
  {
    out := text;
    ghost var done := before;
    for j := 0 to |servers|
      invariant out == TextFor(done) && before + ServerEntries(servers) == done + ServerEntries(servers[j..])
    {
      assert servers[j..][1..] == servers[j + 1..];
      out := WriteEntry(out, done, Entry(Server, servers[j]));
      done := done + [Entry(Server, servers[j])];
    }
    assert servers[|servers|..] == [] && before + ServerEntries(servers) == done;
  }

  // ---------------------------------------------------------------- one dumped line

  /** The value fits one read and nothing in it ends the quotes or the line. */
  predicate Plain(e: Entry) {
    '"' !in e.val && '\n' !in e.val && |NameOf(e.opt)| + |e.val| + 3 <= LINE_SIZE - 1
  }

  function ArgumentFor(o: Opt, val: string): string {
    "--" + NameOf(o) + (if o == LogExpand then "" else "=" + val)
  }

  lemma AssembleGood(t: string, x: string)
    requires GoodName(t)
    ensures Assemble(t, x, true) == Argument("--" + t + "=" + x)
  {
  }

  lemma ParseAssigned(t: string, r: string)
    requires GoodName(t) && r != "" && !Blank(r[0])
    ensures ParseLine(t + (['='] + r)) == ParseArgument(t, r, true)
  {
    hide ParseArgument, NameEnd;
    var x := ['='] + r;
    var line := t + x;
    NameEndsAt(t, x);
    assert line[0] == t[0];
    assert line[..|t|] == t && line[|t|] == '=' && line[|t| + 1..] == r;
  }

  /** A line that opens a quoted value: what is inside depends only on the next quote. */
  lemma ParseQuoted(t: string, w: string)
    requires GoodName(t)
    ensures var n := Find(w, '"');
      ParseLine(t + (['='] + (['"'] + w))) ==
      if n < |w| && CleanTail(w[n..]) then Argument("--" + t + "=" + w[..n]) else Bad
  {
    var r := ['"'] + w;
    ParseAssigned(t, r);
    assert r[1..] == w;
    AssembleGood(t, w[..Find(w, '"')]);
  }

  lemma ParseFlag(t: string)
    requires GoodName(t)
    ensures ParseLine(t + "\n") == Argument("--" + t)
  {
    var line := t + "\n";
    NameEndsAt(t, "\n");
    assert line[..|t|] == t && line[|t| + 1..] == "";
  }

  // ---------------------------------------------------------------- reading one entry back

  /** A line without newlines inside is read whole; when it fills the buffer its newline is left
      for a read of its own, which is skipped. */
  lemma ReadWholeLine(fs: Files, rank: Ranks, body: string, x: string, bound: nat, ok: bool, a: string)
    requires ConfigFile.Acyclic(fs, rank) && '\n' !in body && 0 < |body| <= LINE_SIZE - 1
    requires ParseLine(body) == ParseLine(body + "\n") == Argument(a)
    requires IncludesBelow(fs, rank, body + ("\n" + x), bound)
    ensures IncludesBelow(fs, rank, x, bound)
    ensures var (args, r) := ReadLines(fs, rank, x, bound, ok);
      ReadLines(fs, rank, body + ("\n" + x), bound, ok) == ([a] + args, r)
  {
    hide ParseLine, FirstLine, OtherLines, ChunkLen;
    TakesLine(body, x);
    if |body| == LINE_SIZE - 1 { ReadNewline(fs, rank, x, bound, ok); }
  }

  /** A newline on its own is a line of its own, and is skipped. */
  lemma ReadNewline(fs: Files, rank: Ranks, x: string, bound: nat, ok: bool)
    requires ConfigFile.Acyclic(fs, rank) && IncludesBelow(fs, rank, "\n" + x, bound)
    ensures IncludesBelow(fs, rank, x, bound)
    ensures ReadLines(fs, rank, "\n" + x, bound, ok) == ReadLines(fs, rank, x, bound, ok)
  {
    TakesLine("", x);
    assert "" + ("\n" + x) == "\n" + x && "" + "\n" == "\n";
    assert ParseLine("\n") == Skip by { assert DropBlanks("\n") == ""; }
    hide ParseLine, FirstLine, OtherLines, ChunkLen;
    assert [] + ReadLines(fs, rank, x, bound, ok).0 == ReadLines(fs, rank, x, bound, ok).0;
  }

  function Body(e: Entry): string {
    if e.opt == LogExpand then NameOf(e.opt) else NameOf(e.opt) + (['='] + (['"'] + (e.val + ['"'])))
  }

  lemma LineForBody(e: Entry)
    ensures LineFor(e) == Body(e) + "\n"
  {
    assert "=\"" == ['='] + ['"'];
  }

  lemma NameHasNo(o: Opt, c: char)
    requires !('a' <= c <= 'z')
    ensures c !in NameOf(o)
  {
    NameRoundTrip(o);
  }

  lemma {:induction false} FindAt(s: string, c: char, x: string)
    requires c !in s && x != "" && x[0] == c
    ensures Find(s + x, c) == |s|
  {
    if s == "" {
      assert s + x == x;
    } else {
      assert s[0] in s && forall d :: d in s[1..] ==> d in s;
      assert (s + x)[1..] == s[1..] + x;
      FindAt(s[1..], c, x);
    }
  }

  lemma BodyParses(e: Entry, nl: string)
    requires '"' !in e.val && (nl == "" || nl == "\n")
    ensures ParseLine(Body(e) + nl) == Argument(ArgumentFor(e.opt, e.val))
  {
    var t := NameOf(e.opt);
    NameRoundTrip(e.opt);
    if e.opt == LogExpand {
      NameEndsAt(t, nl);
      assert t + "" == t;
      ParseFlag(t);
    } else {
      var w := e.val + (['"'] + nl);
      assert Body(e) + nl == t + (['='] + (['"'] + w));
      ParseQuoted(t, w);
      FindAt(e.val, '"', ['"'] + nl);
      assert w[..|e.val|] == e.val && w[|e.val|..] == ['"'] + nl;
      assert (['"'] + nl)[1..] == nl;
      assert "--" + t + "=" + e.val == ArgumentFor(e.opt, e.val);
    }
  }

  lemma BodyHasNoNewline(e: Entry)
    requires '\n' !in e.val || e.opt == LogExpand
    ensures '\n' !in Body(e)
  {
    NameHasNo(e.opt, '\n');
  }

  lemma EntryText(e: Entry, x: string)
    ensures LineFor(e) + x == Body(e) + ("\n" + x)
  {
    LineForBody(e);
  }

  lemma BodyFacts(e: Entry)
    requires if e.opt == LogExpand then e.val == "" else Plain(e)
    ensures '\n' !in Body(e) && 0 < |Body(e)| <= LINE_SIZE - 1
    ensures ParseLine(Body(e)) == ParseLine(Body(e) + "\n") == Argument(ArgumentFor(e.opt, e.val))
  {
    NameRoundTrip(e.opt);
    BodyHasNoNewline(e);
    BodyParses(e, "");
    BodyParses(e, "\n");
    assert Body(e) + "" == Body(e);
  }

  lemma GoodEntryReads(fs: Files, rank: Ranks, e: Entry, x: string, bound: nat, ok: bool)
    requires ConfigFile.Acyclic(fs, rank) && (if e.opt == LogExpand then e.val == "" else Plain(e))
    requires IncludesBelow(fs, rank, LineFor(e) + x, bound)
    ensures IncludesBelow(fs, rank, x, bound)
    ensures var (args, r) := ReadLines(fs, rank, x, bound, ok);
      ReadLines(fs, rank, LineFor(e) + x, bound, ok) == ([ArgumentFor(e.opt, e.val)] + args, r)
  {
    EntryText(e, x);
    BodyFacts(e);
    ReadWholeLine(fs, rank, Body(e), x, bound, ok, ArgumentFor(e.opt, e.val));
  }

  /** A value that is not plain makes the read fail or comes back cut short. */
  lemma BadEntryReads(fs: Files, rank: Ranks, e: Entry, x: string, bound: nat, ok: bool)
    returns (p: string, more: seq<string>)
    requires ConfigFile.Acyclic(fs, rank) && e.opt != LogExpand && !Plain(e)
    requires IncludesBelow(fs, rank, LineFor(e) + x, bound)
    ensures var (args, r) := ReadLines(fs, rank, LineFor(e) + x, bound, ok);
      r ==> |p| < |e.val| && args == [ArgumentFor(e.opt, p)] + more
  {
    var text := LineFor(e) + x;
    more := [];
    p := BadFirstLine(e, x);
    if !ParseLine(FirstLine(text)).Bad? {
      assert text != "" by { LineForBody(e); }
      more := ReadLines(fs, rank, OtherLines(text), bound, ok).0;
    }
  }

  lemma BadFirstLine(e: Entry, x: string) returns (p: string)
    requires e.opt != LogExpand && !Plain(e)
    ensures var l := ParseLine(FirstLine(LineFor(e) + x));
      l == Bad || (|p| < |e.val| && l == Argument(ArgumentFor(e.opt, p)))
  {
    p := "";
    var inside := e.val + (['"'] + ("\n" + x));
    NameRoundTrip(e.opt);
    var w := OpenedLine(e, x);
    ParseQuoted(NameOf(e.opt), w);
    var n := Find(w, '"');
    if n < |w| && CleanTail(w[n..]) {
      p := w[..n];
      if n >= |e.val| { CutPastValue(e, x, |w|, n); }
      assert "--" + NameOf(e.opt) + "=" + p == ArgumentFor(e.opt, p);
    }
  }

  /** The first read of an entry opens the quotes and goes on inside them. */
  lemma OpenedLine(e: Entry, x: string) returns (w: string)
    requires e.opt != LogExpand
    ensures var inside := e.val + (['"'] + ("\n" + x));
      && |NameOf(e.opt)| + 2 <= LINE_SIZE - 1
      && w == inside[..ChunkLen(inside, LINE_SIZE - 1 - (|NameOf(e.opt)| + 2))]
    ensures FirstLine(LineFor(e) + x) == NameOf(e.opt) + (['='] + (['"'] + w))
  {
    var t := NameOf(e.opt);
    var inside := e.val + (['"'] + ("\n" + x));
    NameRoundTrip(e.opt);
    NameHasNo(e.opt, '\n');
    EntryText(e, x);
    OpenShape(t, e.val, x);
    var open := t + (['='] + ['"']);
    ChunkRunsOver(open, inside, LINE_SIZE - 1);
    var c := ChunkLen(inside, LINE_SIZE - 1 - |open|);
    w := inside[..c];
    OpenTake(t, inside, c);
  }

  lemma OpenShape(t: string, v: string, x: string)
    ensures (t + (['='] + (['"'] + (v + ['"'])))) + ("\n" + x) == (t + (['='] + ['"'])) + (v + (['"'] + ("\n" + x)))
  {
  }

  lemma OpenTake(t: string, inside: string, c: nat)
    requires c <= |inside|
    ensures ((t + (['='] + ['"'])) + inside)[..|t| + 2 + c] == t + (['='] + (['"'] + inside[..c]))
  {
  }

  lemma CutPastValue(e: Entry, x: string, c: nat, n: nat)
    requires e.opt != LogExpand && |NameOf(e.opt)| + 2 <= LINE_SIZE - 1
    requires var inside := e.val + (['"'] + ("\n" + x));
      c == ChunkLen(inside, LINE_SIZE - 1 - (|NameOf(e.opt)| + 2)) && n < c && n == Find(inside[..c], '"')
    requires n >= |e.val|
    ensures Plain(e)
  {
    var inside := e.val + (['"'] + ("\n" + x));
    forall i | 0 <= i < |e.val| ensures e.val[i] != '"' && e.val[i] != '\n' {
      assert inside[..c][i] == e.val[i] && inside[i] == e.val[i];
    }
  }

  // ---------------------------------------------------------------- reading a whole dump back

  lemma ApplyArgumentFor(numeric: string -> bool, rec: Record, o: Opt, val: string)
    requires o == LogExpand ==> val == ""
    ensures ApplyArgument(numeric, rec, ArgumentFor(o, val)) == Apply(numeric, rec, o, val)
  {
    var t := NameOf(o);
    NameRoundTrip(o);
    NameHasNo(o, '=');
    if o == LogExpand {
      SplitFlag(t);
    } else {
      SplitAssigned(t, val);
    }
  }

  lemma SplitFlag(t: string)
    requires '=' !in t
    ensures var arg := "--" + t + "";
      arg[..2] == "--" && Find(arg[2..], '=') == |t| == |arg[2..]| && arg[2..][..|t|] == t
  {
    var arg := "--" + t + "";
    assert arg[2..] == t;
    FindMissing(t, '=');
  }

  lemma SplitAssigned(t: string, val: string)
    requires '=' !in t
    ensures var arg := "--" + t + ("=" + val);
      arg[..2] == "--" && Find(arg[2..], '=') == |t| < |arg[2..]| && arg[2..][..|t|] == t && arg[2..][|t| + 1..] == val
  {
    var arg := "--" + t + ("=" + val);
    assert arg[2..] == t + (['='] + val);
    FindAt(t, '=', ['='] + val);
  }

  lemma {:induction false} FindMissing(s: string, c: char)
    requires c !in s
    ensures Find(s, c) == |s|
  {
    if s != "" {
      assert s[0] in s && forall d :: d in s[1..] ==> d in s;
      FindMissing(s[1..], c);
    }
  }

  predicate Sized(k: Key) { k == Width || k == Height }

  /** The entry comes back as it was written. */
  predicate GoodEntry(numeric: string -> bool, e: Entry) {
    match e.opt
    case LogExpand => true
    case Server => Plain(e) && ',' !in e.val
    case Single(k) => Plain(e) && (Sized(k) ==> numeric(e.val))
  }

  function Wanted(rec: Record, e: Entry): Record {
    match e.opt
    case LogExpand => rec.(logExpand := true)
    case Server => rec.(servers := rec.servers + [e.val])
    case Single(k) => rec.(values := rec.values[k := e.val])
  }

  function WantedAll(rec: Record, es: seq<Entry>): Record
    decreases |es|
  {
    if es == [] then rec else WantedAll(Wanted(rec, es[0]), es[1..])
  }

  /** No entry gives again what is given already, servers apart. */
  predicate FreshFor(rec: Record, es: seq<Entry>)
    decreases |es|
  {
    es == [] || (
      (match es[0].opt
       case LogExpand => !rec.logExpand && es[0].val == ""
       case Server => true
       case Single(k) => k !in rec.values) &&
      FreshFor(Wanted(rec, es[0]), es[1..]))
  }

  lemma {:induction false} WantedKeeps(rec: Record, es: seq<Entry>)
    requires FreshFor(rec, es)
    ensures rec.servers <= WantedAll(rec, es).servers
    ensures forall k :: k in rec.values ==>
      k in WantedAll(rec, es).values && WantedAll(rec, es).values[k] == rec.values[k]
    decreases |es|
  {
    if es != [] { WantedKeeps(Wanted(rec, es[0]), es[1..]); }
  }

  /** Two records that go on from different values for the same entry end up different. */
  lemma DifferentValues(numeric: string -> bool, rec: Record, e: Entry, val: string, args: seq<string>, es: seq<Entry>)
    requires e.opt != LogExpand && FreshFor(rec, [e] + es)
    requires e.opt.Single? ==> val != e.val
    requires e.opt.Server? ==> Tokens.Tokens('=', val)[0] != e.val
    ensures var r := Apply(numeric, rec, e.opt, val);
      r.Some? ==> ParseArguments(numeric, r.value, args) != Some(WantedAll(rec, [e] + es))
  {
    var r := Apply(numeric, rec, e.opt, val);
    assert ([e] + es)[0] == e && ([e] + es)[1..] == es;
    var want := WantedAll(rec, [e] + es);
    WantedKeeps(Wanted(rec, e), es);
    if r.Some? {
      ParseKeeps(numeric, r.value, args);
      var fin := ParseArguments(numeric, r.value, args);
      if fin.Some? {
        if e.opt.Server? {
          var n := |rec.servers|;
          assert fin.value.servers[n] == r.value.servers[n] == Tokens.Tokens('=', val)[0];
          assert want.servers[n] == e.val;
        } else {
          assert want.values[e.opt.key] == e.val;
          assert fin.value.values[e.opt.key] == r.value.values[e.opt.key] == val;
        }
      }
    }
  }

  lemma TextForCons(es: seq<Entry>)
    requires es != []
    ensures TextFor(es) == LineFor(es[0]) + TextFor(es[1..])
  {
    assert LinesFor(es)[1..] == LinesFor(es[1..]);
  }

  ghost predicate ReadsBack(fs: Files, rank: Ranks, numeric: string -> bool, rec: Record, text: string, bound: nat,
                            want: Record)
    requires ConfigFile.Acyclic(fs, rank) && IncludesBelow(fs, rank, text, bound)
  {
    var (args, ok) := ReadLines(fs, rank, text, bound, true);
    ok && ParseArguments(numeric, rec, args) == Some(want)
  }

  ghost predicate AllGood(numeric: string -> bool, es: seq<Entry>) {
    forall i :: 0 <= i < |es| ==> GoodEntry(numeric, es[i])
  }

  lemma AllGoodCons(numeric: string -> bool, es: seq<Entry>)
    requires es != []
    ensures AllGood(numeric, es) <==> GoodEntry(numeric, es[0]) && AllGood(numeric, es[1..])
  {
    if GoodEntry(numeric, es[0]) && AllGood(numeric, es[1..]) {
      forall i | 0 <= i < |es| ensures GoodEntry(numeric, es[i]) {
        if i > 0 { assert es[i] == es[1..][i - 1]; }
      }
    }
  }

  /** The dumped entries read back as the record they describe exactly when all of them are good. */
  lemma {:induction false} EntriesReadBack(fs: Files, rank: Ranks, numeric: string -> bool, rec: Record,
                                           es: seq<Entry>, bound: nat)
    requires ConfigFile.Acyclic(fs, rank) && IncludesBelow(fs, rank, TextFor(es), bound) && FreshFor(rec, es)
    ensures ReadsBack(fs, rank, numeric, rec, TextFor(es), bound, WantedAll(rec, es)) <==> AllGood(numeric, es)
    decreases |es|
  {
    if es != [] {
      var e, x := es[0], TextFor(es[1..]);
      TextForCons(es);
      AllGoodCons(numeric, es);
      assert es == [e] + es[1..];
      if e.opt == LogExpand || Plain(e) {
        ReadableFirst(fs, rank, numeric, rec, e, es[1..], bound);
        if GoodEntry(numeric, e) {
          EntriesReadBack(fs, rank, numeric, Wanted(rec, e), es[1..], bound);
        }
      } else {
        UnreadableFirst(fs, rank, numeric, rec, e, es[1..], bound);
      }
    }
  }

  lemma ReadableFirst(fs: Files, rank: Ranks, numeric: string -> bool, rec: Record, e: Entry, es: seq<Entry>,
                      bound: nat)
    requires ConfigFile.Acyclic(fs, rank) && IncludesBelow(fs, rank, LineFor(e) + TextFor(es), bound)
    requires FreshFor(rec, [e] + es) && (e.opt == LogExpand || Plain(e))
    ensures IncludesBelow(fs, rank, TextFor(es), bound) && FreshFor(Wanted(rec, e), es)
    ensures ReadsBack(fs, rank, numeric, rec, LineFor(e) + TextFor(es), bound, WantedAll(rec, [e] + es)) <==>
      GoodEntry(numeric, e) &&
      ReadsBack(fs, rank, numeric, Wanted(rec, e), TextFor(es), bound, WantedAll(Wanted(rec, e), es))
  {
    var x := TextFor(es);
    assert ([e] + es)[0] == e && ([e] + es)[1..] == es;
    GoodEntryReads(fs, rank, e, x, bound, true);
    ApplyArgumentFor(numeric, rec, e.opt, e.val);
    var args := ReadLines(fs, rank, x, bound, true).0;
    assert ([ArgumentFor(e.opt, e.val)] + args)[1..] == args;
    Tokens.WholeToken('=', e.val);
    if e.opt.Server? && ',' in e.val {
      DifferentValues(numeric, rec, e, e.val, args, es);
    }
  }

  lemma UnreadableFirst(fs: Files, rank: Ranks, numeric: string -> bool, rec: Record, e: Entry, es: seq<Entry>,
                        bound: nat)
    requires ConfigFile.Acyclic(fs, rank) && IncludesBelow(fs, rank, LineFor(e) + TextFor(es), bound)
    requires FreshFor(rec, [e] + es) && e.opt != LogExpand && !Plain(e)
    ensures !ReadsBack(fs, rank, numeric, rec, LineFor(e) + TextFor(es), bound, WantedAll(rec, [e] + es))
  {
    var p, more := BadEntryReads(fs, rank, e, TextFor(es), bound, true);
    ApplyArgumentFor(numeric, rec, e.opt, p);
    assert ([ArgumentFor(e.opt, p)] + more)[1..] == more;
    Tokens.WholeToken('=', p);
    if |p| < |e.val| {
      DifferentValues(numeric, rec, e, p, more, es);
    }
  }

  // ---------------------------------------------------------------- records

  lemma {:induction false} WantedConcat(rec: Record, a: seq<Entry>, b: seq<Entry>)
    ensures WantedAll(rec, a + b) == WantedAll(WantedAll(rec, a), b)
    ensures FreshFor(rec, a + b) <==> FreshFor(rec, a) && FreshFor(WantedAll(rec, a), b)
    decreases |a|
  {
    if a == [] {
      assert a + b == b;
    } else {
      WantedConcat(Wanted(rec, a[0]), a[1..], b);
      assert (a + b)[1..] == a[1..] + b;
    }
  }

  lemma {:induction false} SinglesWanted(o: Record, rec: Record, keys: seq<Key>)
    requires forall i, j :: 0 <= i < j < |keys| ==> keys[i] != keys[j]
    requires forall k :: k in keys ==> k !in rec.values
    ensures var es := SingleEntries(o, keys); var w := WantedAll(rec, es);
      && FreshFor(rec, es) && w.logExpand == rec.logExpand && w.servers == rec.servers
      && (forall k :: k in w.values <==> k in rec.values || (k in keys && k in o.values))
      && (forall k :: k in w.values ==> w.values[k] == if k in rec.values then rec.values[k] else o.values[k])
    decreases |keys|
  {
    if keys != [] {
      var k0 := keys[0];
      assert keys == [k0] + keys[1..];
      assert k0 !in keys[1..];
      if k0 in o.values {
        SinglesWanted(o, Wanted(rec, Entry(Single(k0), o.values[k0])), keys[1..]);
        assert SingleEntries(o, keys)[1..] == SingleEntries(o, keys[1..]);
      } else {
        assert SingleEntries(o, keys) == SingleEntries(o, keys[1..]);
        SinglesWanted(o, rec, keys[1..]);
      }
    }
  }

  lemma {:induction false} ServersWanted(rec: Record, servers: seq<string>)
    ensures FreshFor(rec, ServerEntries(servers))
    ensures WantedAll(rec, ServerEntries(servers)) == rec.(servers := rec.servers + servers)
    decreases |servers|
  {
    if servers == [] {
      assert rec.servers + servers == rec.servers;
    } else {
      ServersWanted(rec.(servers := rec.servers + [servers[0]]), servers[1..]);
      assert (rec.servers + [servers[0]]) + servers[1..] == rec.servers + servers;
      assert ServerEntries(servers)[1..] == ServerEntries(servers[1..]);
    }
  }

  /** The dump lists the record, nothing more and nothing twice. */
  lemma EntriesDescribe(o: Record)
    ensures FreshFor(EMPTY, Entries(o)) && WantedAll(EMPTY, Entries(o)) == o
  {
    var singles := SingleEntries(o, KEYS);
    var flag := if o.logExpand then [Entry(LogExpand, "")] else [];
    SinglesWanted(o, EMPTY, KEYS);
    var r1 := WantedAll(EMPTY, singles);
    assert r1.values == o.values by { forall k: Key ensures k in KEYS { AllKeys(k); } }
    WantedConcat(EMPTY, singles, flag);
    assert o.logExpand ==> flag[1..] == [];
    var r2 := WantedAll(r1, flag);
    ServersWanted(r2, o.servers);
    assert [] + o.servers == o.servers;
    WantedConcat(EMPTY, singles + flag, ServerEntries(o.servers));
  }

  lemma AllKeys(k: Key)
    ensures k in KEYS
  {
    match k
    case Name => assert KEYS[0] == k;
    case Email => assert KEYS[1] == k;
    case UserMenus => assert KEYS[2] == k;
    case Data => assert KEYS[3] == k;
    case Editor => assert KEYS[4] == k;
    case Browser => assert KEYS[5] == k;
    case Width => assert KEYS[6] == k;
    case Height => assert KEYS[7] == k;
  }

  /** Every value is plain, sizes are numbers, and no server name holds a comma. */
  predicate GoodRecord(numeric: string -> bool, o: Record) {
    && (forall k :: k in o.values ==> GoodEntry(numeric, Entry(Single(k), o.values[k])))
    && (forall i :: 0 <= i < |o.servers| ==> GoodEntry(numeric, Entry(Server, o.servers[i])))
  }

  /** What the program does with an argument vector; the menu and data directories may be required. */
  function Load(numeric: string -> bool, checkRequired: bool, args: seq<string>): Option<Record> {
    match ParseArguments(numeric, EMPTY, args)
    case None => None
    case Some(r) => if checkRequired && !(UserMenus in r.values && Data in r.values) then None else Some(r)
  }

  /** Dumping a record and loading the file gives the record back exactly when the record is good
      (and holds the required directories if they are asked for). */
  lemma DumpLoadRoundTrip(fs: Files, rank: Ranks, name: string, numeric: string -> bool, checkRequired: bool, o: Record)
    requires ConfigFile.Acyclic(fs, rank) && name in fs && fs[name] == TextFor(Entries(o))
    ensures var (args, ok) := ReadFile(fs, rank, name);
      ok && Load(numeric, checkRequired, args) == Some(o) <==>
      GoodRecord(numeric, o) && (checkRequired ==> UserMenus in o.values && Data in o.values)
  {
    EntriesDescribe(o);
    EntriesReadBack(fs, rank, numeric, EMPTY, Entries(o), rank[name]);
    GoodEntries(numeric, o);
  }

  lemma GoodEntries(numeric: string -> bool, o: Record)
    ensures AllGood(numeric, Entries(o)) <==> GoodRecord(numeric, o)
  {
    var es := Entries(o);
    SinglesListed(o, KEYS);
    ServersListed(o.servers);
    if AllGood(numeric, es) {
      forall k | k in o.values ensures GoodEntry(numeric, Entry(Single(k), o.values[k])) {
        AllKeys(k);
        assert Entry(Single(k), o.values[k]) in es;
      }
      forall i | 0 <= i < |o.servers| ensures GoodEntry(numeric, Entry(Server, o.servers[i])) {
        assert Entry(Server, o.servers[i]) in es;
      }
    }
    if GoodRecord(numeric, o) {
      forall i | 0 <= i < |es| ensures GoodEntry(numeric, es[i]) {
        assert es[i] in es;
      }
    }
  }

  lemma {:induction false} SinglesListed(o: Record, keys: seq<Key>)
    ensures forall e :: e in SingleEntries(o, keys) <==>
      e.opt.Single? && e.opt.key in keys && e.opt.key in o.values && e.val == o.values[e.opt.key]
  {
    if keys != [] {
      SinglesListed(o, keys[1..]);
      assert keys == [keys[0]] + keys[1..];
    }
  }

  lemma {:induction false} ServersListed(servers: seq<string>)
    ensures forall e :: e in ServerEntries(servers) <==> e.opt.Server? && e.val in servers
  {
    if servers != [] {
      ServersListed(servers[1..]);
      assert servers == [servers[0]] + servers[1..];
    }
  }
}
