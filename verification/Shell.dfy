/** The command language of sh.c: tokens, the grammar its parser accepts, and canonical printing. */
module ShellModel {
  datatype Tok = Bar | Open | Close | Semi | Amp | Less | Greater | Append | Word(w: string)

  /** A command tree over words of type W: texts, or places in the input. */
  datatype Tree<W> =
    | Exec(args: seq<W>)
    | Redir(cmd: Tree<W>, file: W, out: bool)
    | Pipe(left: Tree<W>, right: Tree<W>)
    | List(left: Tree<W>, right: Tree<W>)
    | Back(cmd: Tree<W>)

  const MAXARGS: nat := 10

  // ---------------------------------------------------------------- tokens

  predicate IsSpace(c: char) { c == ' ' || c == '\t' || c == '\r' || c == '\n' || c == '\U{000B}' }
  predicate IsSymbol(c: char) { c == '<' || c == '|' || c == '>' || c == '&' || c == ';' || c == '(' || c == ')' }
  predicate IsWordChar(c: char) { !IsSpace(c) && !IsSymbol(c) }

  /** How many leading characters are white space. */
  ghost function Blanks(s: string): (n: nat)
    ensures n <= |s| && (forall k :: 0 <= k < n ==> IsSpace(s[k])) && (n < |s| ==> !IsSpace(s[n]))
  {
    if s != "" && IsSpace(s[0]) then 1 + Blanks(s[1..]) else 0
  }

  /** How many leading characters belong to a word. */
  ghost function WordLen(s: string): (n: nat)
    ensures n <= |s| && (forall k :: 0 <= k < n ==> IsWordChar(s[k])) && (n < |s| ==> !IsWordChar(s[n]))
  {
    if s != "" && IsWordChar(s[0]) then 1 + WordLen(s[1..]) else 0
  }

  /** The token at the head of s, which does not start with white space, and its length. */
  ghost function FirstTok(s: string): (r: (Tok, nat))
    requires s != "" && !IsSpace(s[0])
    ensures 0 < r.1 <= |s| && (r.0.Word? ==> r.0.w == s[..r.1])
  {
    if s[0] == '|' then (Bar, 1) else if s[0] == '(' then (Open, 1) else if s[0] == ')' then (Close, 1)
    else if s[0] == ';' then (Semi, 1) else if s[0] == '&' then (Amp, 1) else if s[0] == '<' then (Less, 1)
    else if s[0] == '>' then (if |s| > 1 && s[1] == '>' then (Append, 2) else (Greater, 1))
    else assert IsWordChar(s[0]); (Word(s[..WordLen(s)]), WordLen(s))
  }

  ghost function Lex(s: string): seq<Tok>
    decreases |s|
  {
    var t := s[Blanks(s)..];
    if t == "" then [] else
      var (tok, n) := FirstTok(t);
      [tok] + Lex(t[n..])
  }

  // ---------------------------------------------------------------- the grammar

  datatype Result = Ok(tree: Tree<string>, rest: seq<Tok>) | Fail

  ghost predicate Starts(ts: seq<Tok>, t: Tok) { ts != [] && ts[0] == t }
  ghost predicate StartsRedir(ts: seq<Tok>) { ts != [] && (ts[0].Less? || ts[0].Greater? || ts[0].Append?) }
  /** The next token ends a simple command. */
  ghost predicate Stops(ts: seq<Tok>) { ts == [] || ts[0].Bar? || ts[0].Close? || ts[0].Amp? || ts[0].Semi? }

  datatype Red = Red(file: string, out: bool)

  ghost function Wrap(t: Tree<string>, reds: seq<Red>): Tree<string>
    decreases |reds|
  {
    if reds == [] then t else Wrap(Redir(t, reds[0].file, reds[0].out), reds[1..])
  }

  /** parseredirs: the redirections at the head, or failure when a file name is missing. */
  ghost function ParseRedirs(ts: seq<Tok>): (r: (bool, seq<Red>, seq<Tok>))
    ensures |r.2| <= |ts| && (r.0 ==> !StartsRedir(r.2))
  {
    if !StartsRedir(ts) then (true, [], ts)
    else if |ts| < 2 || !ts[1].Word? then (false, [], ts)
    else
      var (ok, reds, rest) := ParseRedirs(ts[2..]);
      (ok, [Red(ts[1].w, !ts[0].Less?)] + reds, rest)
  }

  /** The loop of parseexec: words and redirections up to the end of the simple command. */
  ghost function ParseArgs(args: seq<string>, reds: seq<Red>, ts: seq<Tok>): (r: Result)
    ensures r.Ok? ==> |r.rest| <= |ts|
    decreases |ts|
  {
    if Stops(ts) then Ok(Wrap(Exec(args), reds), ts)
    else if !ts[0].Word? || |args| + 1 >= MAXARGS then Fail
    else
      var (ok, more, rest) := ParseRedirs(ts[1..]);
      if !ok then Fail else ParseArgs(args + [ts[0].w], reds + more, rest)
  }

  ghost function ParseExec(ts: seq<Tok>): (r: Result)
    ensures r.Ok? ==> |r.rest| <= |ts|
    decreases |ts|, 0
  {
    if Starts(ts, Open) then
      var b := ParseLine(ts[1..]);
      if b.Fail? || !Starts(b.rest, Close) then Fail else
        var (ok, reds, rest) := ParseRedirs(b.rest[1..]);
        if ok then Ok(Wrap(b.tree, reds), rest) else Fail
    else
      var (ok, reds, rest) := ParseRedirs(ts);
      if ok then ParseArgs([], reds, rest) else Fail
  }

  ghost function ParsePipe(ts: seq<Tok>): (r: Result)
    ensures r.Ok? ==> |r.rest| <= |ts|
    decreases |ts|, 1
  {
    var l := ParseExec(ts);
    if l.Fail? || !Starts(l.rest, Bar) then l else
      var r := ParsePipe(l.rest[1..]);
      if r.Fail? then Fail else Ok(Pipe(l.tree, r.tree), r.rest)
  }

  ghost function Backs(t: Tree<string>, ts: seq<Tok>): (r: Result)
    ensures r.Ok? && |r.rest| <= |ts| && !Starts(r.rest, Amp)
    decreases |ts|
  {
    if Starts(ts, Amp) then Backs(Back(t), ts[1..]) else Ok(t, ts)
  }

  ghost function ParseHead(ts: seq<Tok>): (r: Result)
    ensures r.Ok? ==> |r.rest| <= |ts|
    decreases |ts|, 2
  {
    var p := ParsePipe(ts);
    if p.Fail? then Fail else Backs(p.tree, p.rest)
  }

  ghost function ParseLine(ts: seq<Tok>): (r: Result)
    ensures r.Ok? ==> |r.rest| <= |ts|
    decreases |ts|, 3
  {
    var h := ParseHead(ts);
    if h.Fail? || !Starts(h.rest, Semi) then h else
      var r := ParseLine(h.rest[1..]);
      if r.Fail? then Fail else Ok(List(h.tree, r.tree), r.rest)
  }

  /** parsecmd: the whole input is one line. */
  ghost function ParseCmd(s: string): (r: Result)
    ensures r.Ok? ==> r.rest == []
  {
    var r := ParseLine(Lex(s));
    if r.Ok? && r.rest == [] then r else Fail
  }

  // ---------------------------------------------------------------- canonical printing

  /** How far up the grammar a tree is: simple command, pipe, background, list. */
  ghost function Rank(t: Tree<string>): nat { if t.List? then 3 else if t.Back? then 2 else if t.Pipe? then 1 else 0 }

  ghost function Words(args: seq<string>): (r: seq<Tok>)
    ensures |r| == |args| && forall i :: 0 <= i < |r| ==> r[i] == Word(args[i])
  {
    seq(|args|, i requires 0 <= i < |args| => Word(args[i]))
  }

  ghost function RedTok(out: bool): Tok { if out then Greater else Less }

  ghost function RedToks(reds: seq<Red>): seq<Tok> {
    if reds == [] then [] else [RedTok(reds[0].out), Word(reds[0].file)] + RedToks(reds[1..])
  }

  ghost function Body(t: Tree<string>): seq<Tok>
    decreases t, 0
  {
    match t
    case Exec(args) => Words(args)
    case Redir(c, f, o) => Print(c, 0) + [RedTok(o), Word(f)]
    case Pipe(l, r) => Print(l, 0) + [Bar] + Print(r, 1)
    case Back(c) => Print(c, 2) + [Amp]
    case List(l, r) => Print(l, 2) + [Semi] + Print(r, 3)
  }

  /** The tokens of t where the grammar admits trees up to this rank; others go in parentheses. */
  ghost function Print(t: Tree<string>, rank: nat): seq<Tok>
    decreases t, 1
  {
    if Rank(t) > rank then [Open] + Body(t) + [Close] else Body(t)
  }

  /** At most nine words in each simple command. */
  ghost predicate Small(t: Tree<string>) {
    match t
    case Exec(args) => |args| < MAXARGS
    case Redir(c, _, _) => Small(c)
    case Pipe(l, r) => Small(l) && Small(r)
    case Back(c) => Small(c)
    case List(l, r) => Small(l) && Small(r)
  }

  // ---------------------------------------------------------------- parsing what was printed

  lemma {:induction false} RedirsBack(reds: seq<Red>, rest: seq<Tok>)
    requires !StartsRedir(rest)
    ensures ParseRedirs(RedToks(reds) + rest) == (true, reds, rest)
    decreases |reds|
  {
    if reds == [] {
      assert RedToks(reds) + rest == rest;
    } else {
      var ts := RedToks(reds) + rest;
      RedToksTail(reds, rest);
      hide RedToks;
      RedirsBack(reds[1..], rest);
      assert [Red(reds[0].file, reds[0].out)] + reds[1..] == reds;
    }
  }

  lemma TwoAhead(x: Tok, y: Tok, a: seq<Tok>, rest: seq<Tok>)
    ensures ([x, y] + a + rest)[2..] == a + rest
  {
  }

  lemma {:induction false} RedToksTail(reds: seq<Red>, rest: seq<Tok>)
    requires reds != []
    ensures (var ts := RedToks(reds) + rest;
      |ts| >= 2 && ts[0] == RedTok(reds[0].out) && ts[1] == Word(reds[0].file) && ts[2..] == RedToks(reds[1..]) + rest)
  {
    TwoAhead(RedTok(reds[0].out), Word(reds[0].file), RedToks(reds[1..]), rest);
  }

  lemma WordsTail(args: seq<string>, more: seq<Tok>)
    requires args != []
    ensures (Words(args) + more)[0] == Word(args[0]) && (Words(args) + more)[1..] == Words(args[1..]) + more
    ensures |args| == 1 ==> (Words(args) + more)[1..] == more
    ensures |args| > 1 ==> (Words(args) + more)[1] == Word(args[1])
  {
    assert |args| == 1 ==> Words(args[1..]) == [];
  }

  /** Words, then redirections, then something that ends the simple command. */
  lemma {:induction false} ArgsBack(done: seq<string>, args: seq<string>, reds: seq<Red>, rest: seq<Tok>)
    requires |done| + |args| < MAXARGS && Stops(rest) && args != []
    ensures ParseArgs(done, [], Words(args) + (RedToks(reds) + rest)) == Ok(Wrap(Exec(done + args), reds), rest)
    decreases |args|
  {
    hide Words, RedToks, Wrap;
    var more := RedToks(reds) + rest;
    var ts := Words(args) + more;
    WordsTail(args, more);
    var next := done + [args[0]];
    var none: seq<Red> := [];
    if |args| == 1 {
      RedirsBack(reds, rest);
      assert next == done + args && none + reds == reds;
      hide ParseRedirs;
    } else {
      ArgsBack(next, args[1..], reds, rest);
      assert next + args[1..] == done + args && none + none == none;
      assert ParseRedirs(ts[1..]) == (true, [], ts[1..]);
      hide ParseRedirs;
    }
  }

  lemma SimpleBack(args: seq<string>, reds: seq<Red>, rest: seq<Tok>)
    requires |args| < MAXARGS && Stops(rest)
    ensures ParseExec(Words(args) + (RedToks(reds) + rest)) == Ok(Wrap(Exec(args), reds), rest)
  {
    var ts := Words(args) + (RedToks(reds) + rest);
    if args == [] {
      assert ts == RedToks(reds) + rest;
      RedirsBack(reds, rest);
      assert reds != [] ==> RedToks(reds) != [];
    } else {
      assert ts[0] == Word(args[0]);
      ArgsBack([], args, reds, rest);
      assert [] + args == args;
    }
  }

  lemma BlockBack(t: Tree<string>, body: seq<Tok>, reds: seq<Red>, rest: seq<Tok>)
    requires Stops(rest) && ParseLine(body + ([Close] + RedToks(reds) + rest)) == Ok(t, [Close] + RedToks(reds) + rest)
    ensures ParseExec([Open] + body + [Close] + RedToks(reds) + rest) == Ok(Wrap(t, reds), rest)
  {
    hide ParseLine;
    var ts := [Open] + body + [Close] + RedToks(reds) + rest;
    var after := [Close] + RedToks(reds) + rest;
    assert ts[0] == Open && ts[1..] == body + after;
    assert after[1..] == RedToks(reds) + rest;
    RedirsBack(reds, rest);
  }

  lemma OneMoreRed(ts: seq<Tok>, f: string, o: bool, reds: seq<Red>, rest: seq<Tok>)
    ensures ts + [RedTok(o), Word(f)] + RedToks(reds) + rest == ts + RedToks([Red(f, o)] + reds) + rest
  {
    var more := [Red(f, o)] + reds;
    assert more[1..] == reds;
  }

  lemma WrapMore(t: Tree<string>, f: string, o: bool, reds: seq<Red>)
    ensures Wrap(t, [Red(f, o)] + reds) == Wrap(Redir(t, f, o), reds)
  {
    var more := [Red(f, o)] + reds;
    assert more[1..] == reds;
  }

  /** A tree where the grammar wants a simple command or a block, with redirections after it. */
  lemma {:induction false} ExecBack(t: Tree<string>, reds: seq<Red>, rest: seq<Tok>)
    requires Small(t) && Stops(rest)
    ensures ParseExec(Print(t, 0) + RedToks(reds) + rest) == Ok(Wrap(t, reds), rest)
    decreases t, if Rank(t) > 0 then 6 else 2
  {
    hide ParseExec, ParseLine, RedToks, Wrap;
    match t {
      case Exec(args) =>
        SimpleBack(args, reds, rest);
        assert Words(args) + RedToks(reds) + rest == Words(args) + (RedToks(reds) + rest);
      case Redir(c, f, o) =>
        ExecBack(c, [Red(f, o)] + reds, rest);
        OneMoreRed(Print(c, 0), f, o, reds, rest);
        WrapMore(c, f, o, reds);
      case _ =>
        LineBack(t, [Close] + RedToks(reds) + rest);
        BlockBack(t, Body(t), reds, rest);
    }
  }

  lemma ParsesPipe(x: seq<Tok>, l: Tree<string>, y: seq<Tok>, r: Tree<string>, rest: seq<Tok>)
    requires ParseExec(x + ([Bar] + y)) == Ok(l, [Bar] + y) && ParsePipe(y) == Ok(r, rest)
    ensures ParsePipe(x + ([Bar] + y)) == Ok(Pipe(l, r), rest)
  {
    hide ParseExec;
    assert ([Bar] + y)[1..] == y;
  }

  lemma NoPipe(ts: seq<Tok>, t: Tree<string>, rest: seq<Tok>)
    requires ParseExec(ts) == Ok(t, rest) && !Starts(rest, Bar)
    ensures ParsePipe(ts) == Ok(t, rest)
  {
    hide ParseExec;
  }

  lemma {:induction false} PipeBack(t: Tree<string>, rest: seq<Tok>)
    requires Small(t) && Stops(rest) && !Starts(rest, Bar)
    ensures ParsePipe(Print(t, 1) + rest) == Ok(t, rest)
    decreases t, if Rank(t) > 1 then 7 else 3
  {
    hide ParseExec, ParsePipe;
    var none: seq<Red> := [];
    if t.Pipe? {
      var after := [Bar] + (Print(t.right, 1) + rest);
      ExecBack(t.left, none, after);
      assert Print(t.left, 0) + RedToks(none) + after == Print(t.left, 0) + after;
      PipeBack(t.right, rest);
      ParsesPipe(Print(t.left, 0), t.left, Print(t.right, 1) + rest, t.right, rest);
      assert Print(t, 1) + rest == Print(t.left, 0) + after;
    } else {
      assert Print(t, 1) + rest == Print(t, 0) + RedToks(none) + rest;
      ExecBack(t, none, rest);
      NoPipe(Print(t, 1) + rest, t, rest);
    }
  }

  ghost function Amps(n: nat): (r: seq<Tok>)
    ensures |r| == n && forall i :: 0 <= i < n ==> r[i] == Amp
  {
    seq(n, i => Amp)
  }

  ghost function Backed(t: Tree<string>, n: nat): Tree<string>
    decreases n
  {
    if n == 0 then t else Backed(Back(t), n - 1)
  }

  lemma {:induction false} AmpsBack(t: Tree<string>, n: nat, rest: seq<Tok>)
    requires !Starts(rest, Amp)
    ensures Backs(t, Amps(n) + rest) == Ok(Backed(t, n), rest)
    decreases n
  {
    var ts := Amps(n) + rest;
    if n == 0 {
      assert ts == rest;
    } else {
      assert ts[0] == Amp && ts[1..] == Amps(n - 1) + rest;
      AmpsBack(Back(t), n - 1, rest);
    }
  }

  lemma {:induction false} HeadBack(t: Tree<string>, n: nat, rest: seq<Tok>)
    requires Small(t) && Stops(rest) && !Starts(rest, Bar) && !Starts(rest, Amp)
    ensures ParseHead(Print(t, 2) + Amps(n) + rest) == Ok(Backed(t, n), rest)
    decreases t, if Rank(t) > 2 then 8 else 4
  {
    if t.Back? {
      assert Print(t, 2) + Amps(n) + rest == Print(t.cmd, 2) + Amps(n + 1) + rest;
      HeadBack(t.cmd, n + 1, rest);
    } else {
      var after := Amps(n) + rest;
      assert Print(t, 2) + Amps(n) + rest == Print(t, 1) + after;
      assert n > 0 ==> after[0] == Amp;
      assert n == 0 ==> after == rest;
      PipeBack(t, after);
      AmpsBack(t, n, rest);
    }
  }

  lemma {:induction false} LineBack(t: Tree<string>, rest: seq<Tok>)
    requires Small(t) && (rest == [] || Starts(rest, Close))
    ensures ParseLine(Body(t) + rest) == Ok(t, rest)
    decreases t, 5
  {
    if t.List? {
      var after := [Semi] + Print(t.right, 3) + rest;
      assert Body(t) + rest == Print(t.left, 2) + Amps(0) + after;
      HeadBack(t.left, 0, after);
      assert after[1..] == Print(t.right, 3) + rest;
      LineBack(t.right, rest);
    } else {
      assert Body(t) + rest == Print(t, 2) + Amps(0) + rest;
      HeadBack(t, 0, rest);
    }
  }

  // ---------------------------------------------------------------- characters

  ghost predicate GoodWord(w: string) { w != "" && forall i :: 0 <= i < |w| ==> IsWordChar(w[i]) }

  ghost predicate GoodToks(ts: seq<Tok>) { forall i :: 0 <= i < |ts| && ts[i].Word? ==> GoodWord(ts[i].w) }

  ghost function Spell(t: Tok): string {
    match t
    case Bar => "|" case Open => "(" case Close => ")" case Semi => ";" case Amp => "&"
    case Less => "<" case Greater => ">" case Append => ">>" case Word(w) => w
  }

  /** The tokens spelled out, a blank after each. */
  ghost function Text(ts: seq<Tok>): string { if ts == [] then "" else Spell(ts[0]) + " " + Text(ts[1..]) }

  lemma {:induction false} WordLenOf(w: string, rest: string)
    requires GoodWord(w)
    ensures WordLen(w + " " + rest) == |w|
  {
    var s := w + " " + rest;
    assert s[|w|] == ' ' && forall k :: 0 <= k < |w| ==> s[k] == w[k];
  }

  lemma FirstSpelled(t: Tok, rest: string)
    requires t.Word? ==> GoodWord(t.w)
    ensures (var s := Spell(t) + " " + rest; s != "" && Blanks(s) == 0 && FirstTok(s) == (t, |Spell(t)|))
  {
    var s := Spell(t) + " " + rest;
    if t.Word? {
      WordLenOf(t.w, rest);
      assert s[0] == t.w[0] && IsWordChar(t.w[0]);
      assert s[..|t.w|] == t.w;
    } else {
      assert s[0] == Spell(t)[0] && s[1] == (if t.Append? then '>' else ' ');
    }
  }

  lemma LexBlank(s: string)
    ensures Lex([' '] + s) == Lex(s)
  {
    assert ([' '] + s)[1..] == s;
    assert ([' '] + s)[Blanks([' '] + s)..] == s[Blanks(s)..];
  }

  lemma LexOne(t: Tok, rest: string)
    requires t.Word? ==> GoodWord(t.w)
    ensures Lex(Spell(t) + " " + rest) == [t] + Lex(rest)
  {
    hide Spell, FirstTok, Blanks;
    FirstSpelled(t, rest);
    var s := Spell(t) + " " + rest;
    assert s[0..] == s && s[|Spell(t)|..] == [' '] + rest;
    LexBlank(rest);
  }

  lemma {:induction false} LexBack(ts: seq<Tok>)
    requires GoodToks(ts)
    ensures Lex(Text(ts)) == ts
    decreases |ts|
  {
    hide Spell;
    if ts == [] {
      assert Text(ts) == "" && Lex("") == [];
    } else {
      hide Lex;
      LexOne(ts[0], Text(ts[1..]));
      LexBack(ts[1..]);
    }
  }

  /** Every word of the tree is a word of the shell. */
  ghost predicate Printable(t: Tree<string>) {
    match t
    case Exec(args) => forall i :: 0 <= i < |args| ==> GoodWord(args[i])
    case Redir(c, f, _) => Printable(c) && GoodWord(f)
    case Pipe(l, r) => Printable(l) && Printable(r)
    case Back(c) => Printable(c)
    case List(l, r) => Printable(l) && Printable(r)
  }

  lemma {:induction false} PrintsGood(t: Tree<string>, rank: nat)
    requires Printable(t)
    ensures GoodToks(Body(t)) && GoodToks(Print(t, rank))
    decreases t
  {
    match t {
      case Exec(args) =>
      case Redir(c, f, o) => PrintsGood(c, 0);
      case Pipe(l, r) => PrintsGood(l, 0); PrintsGood(r, 1);
      case Back(c) => PrintsGood(c, 2);
      case List(l, r) => PrintsGood(l, 2); PrintsGood(r, 3);
    }
  }

  /** Parsing the canonical text of a command tree gives the tree back. */
  lemma RoundTrip(t: Tree<string>)
    requires Small(t) && Printable(t)
    ensures ParseCmd(Text(Body(t))) == Ok(t, [])
  {
    PrintsGood(t, 3);
    LexBack(Body(t));
    LineBack(t, []);
    assert Body(t) + [] == Body(t);
  }

  // ---------------------------------------------------------------- every tree the parser makes

  lemma GoodRest(ts: seq<Tok>, k: nat)
    requires GoodToks(ts) && k <= |ts|
    ensures GoodToks(ts[k..])
  {
  }

  /** The words that gettoken cuts out are words. */
  lemma {:induction false} LexGood(s: string)
    ensures GoodToks(Lex(s))
    decreases |s|
  {
    var t := s[Blanks(s)..];
    if t != "" {
      var (tok, n) := FirstTok(t);
      LexGood(t[n..]);
    }
  }

  ghost predicate GoodReds(reds: seq<Red>) { forall i :: 0 <= i < |reds| ==> GoodWord(reds[i].file) }

  ghost predicate Fine(t: Tree<string>) { Small(t) && Printable(t) }

  lemma {:induction false} RedirsGood(ts: seq<Tok>)
    requires GoodToks(ts)
    ensures GoodReds(ParseRedirs(ts).1) && GoodToks(ParseRedirs(ts).2)
    decreases |ts|
  {
    if StartsRedir(ts) && |ts| >= 2 && ts[1].Word? {
      GoodRest(ts, 2);
      RedirsGood(ts[2..]);
    }
  }

  lemma {:induction false} WrapFine(t: Tree<string>, reds: seq<Red>)
    requires Fine(t) && GoodReds(reds)
    ensures Fine(Wrap(t, reds))
    decreases |reds|
  {
    if reds != [] { WrapFine(Redir(t, reds[0].file, reds[0].out), reds[1..]); }
  }

  lemma {:induction false} ArgsFine(args: seq<string>, reds: seq<Red>, ts: seq<Tok>)
    requires GoodToks(ts) && GoodReds(reds) && |args| < MAXARGS && forall i :: 0 <= i < |args| ==> GoodWord(args[i])
    ensures (var r := ParseArgs(args, reds, ts); r.Ok? ==> Fine(r.tree) && GoodToks(r.rest))
    decreases |ts|
  {
    if Stops(ts) {
      WrapFine(Exec(args), reds);
    } else if ts[0].Word? && |args| + 1 < MAXARGS {
      GoodRest(ts, 1);
      RedirsGood(ts[1..]);
      var (ok, more, rest) := ParseRedirs(ts[1..]);
      if ok { ArgsFine(args + [ts[0].w], reds + more, rest); }
    }
  }

  lemma {:induction false} BacksFine(t: Tree<string>, ts: seq<Tok>)
    requires Fine(t) && GoodToks(ts)
    ensures Fine(Backs(t, ts).tree) && GoodToks(Backs(t, ts).rest)
    decreases |ts|
  {
    if Starts(ts, Amp) {
      GoodRest(ts, 1);
      BacksFine(Back(t), ts[1..]);
    }
  }

  ghost predicate FineResult(r: Result) { r.Ok? ==> Fine(r.tree) && GoodToks(r.rest) }

  lemma {:induction false} ExecFine(ts: seq<Tok>)
    requires GoodToks(ts)
    ensures FineResult(ParseExec(ts))
    decreases |ts|, 0
  {
    hide Fine, GoodToks, GoodReds, Wrap, ParseRedirs, ParseArgs, ParseLine;
    if Starts(ts, Open) {
      GoodRest(ts, 1);
      LineFine(ts[1..]);
      var b := ParseLine(ts[1..]);
      if b.Ok? && Starts(b.rest, Close) {
        GoodRest(b.rest, 1);
        RedirsGood(b.rest[1..]);
        WrapFine(b.tree, ParseRedirs(b.rest[1..]).1);
      }
    } else {
      RedirsGood(ts);
      ArgsFine([], ParseRedirs(ts).1, ParseRedirs(ts).2);
    }
  }

  lemma {:induction false} PipeFine(ts: seq<Tok>)
    requires GoodToks(ts)
    ensures FineResult(ParsePipe(ts))
    decreases |ts|, 1
  {
    hide GoodToks, ParseExec;
    ExecFine(ts);
    var l := ParseExec(ts);
    if l.Ok? && Starts(l.rest, Bar) {
      GoodRest(l.rest, 1);
      PipeFine(l.rest[1..]);
    }
  }

  lemma {:induction false} HeadFine(ts: seq<Tok>)
    requires GoodToks(ts)
    ensures FineResult(ParseHead(ts))
    decreases |ts|, 2
  {
    hide GoodToks, ParsePipe, Backs, Fine;
    PipeFine(ts);
    var p := ParsePipe(ts);
    if p.Ok? { BacksFine(p.tree, p.rest); }
  }

  lemma {:induction false} LineFine(ts: seq<Tok>)
    requires GoodToks(ts)
    ensures FineResult(ParseLine(ts))
    decreases |ts|, 3
  {
    hide GoodToks, ParseHead;
    HeadFine(ts);
    var h := ParseHead(ts);
    if h.Ok? && Starts(h.rest, Semi) {
      GoodRest(h.rest, 1);
      LineFine(h.rest[1..]);
    }
  }

  ghost predicate IsParsed(t: Tree<string>) { exists s :: ParseCmd(s) == Ok(t, []) }

  /** The trees that parsecmd makes are exactly those with at most nine words per command, all of them words. */
  lemma ParserImage(t: Tree<string>)
    ensures IsParsed(t) <==> Small(t) && Printable(t)
  {
    if s :| ParseCmd(s) == Ok(t, []) {
      LexGood(s);
      LineFine(Lex(s));
    }
    if Small(t) && Printable(t) { RoundTrip(t); }
  }

  /** Ten words are too many, however they are arranged. */
  lemma {:induction false} TooManyArgs(done: seq<string>, args: seq<string>, rest: seq<Tok>)
    requires |done| < MAXARGS <= |done| + |args|
    ensures ParseArgs(done, [], Words(args) + rest) == Fail
    decreases |args|
  {
    var ts := Words(args) + rest;
    assert ts[0] == Word(args[0]);
    if |done| + 1 < MAXARGS {
      assert ts[1..] == Words(args[1..]) + rest && ts[1] == Word(args[1]);
      TooManyArgs(done + [args[0]], args[1..], rest);
      var none: seq<Red> := [];
      assert none + none == none;
    }
  }
}
