/** The parser of sh.c: a cursor over the characters, and nulterminate on the buffer. */
module ShellCode {
  import opened ShellModel

  /** A word of the input, as the two pointers the parser keeps. */
  datatype Span = Span(lo: nat, hi: nat)

  datatype SpanRed = SpanRed(file: Span, out: bool)

  // ---------------------------------------------------------------- words of the input

  /** w is a whole word: it ends where the word does. */
  ghost predicate WordAt(s: string, w: Span) {
    && w.lo < w.hi <= |s| && (forall k :: w.lo <= k < w.hi ==> IsWordChar(s[k]))
    && (w.hi < |s| ==> !IsWordChar(s[w.hi]))
  }

  ghost function TextOf(s: string, w: Span): string { if w.lo <= w.hi <= |s| then s[w.lo..w.hi] else "" }

  ghost function Texts(s: string, ws: seq<Span>): (r: seq<string>)
    ensures |r| == |ws| && forall i :: 0 <= i < |r| ==> r[i] == TextOf(s, ws[i])
  {
    seq(|ws|, i requires 0 <= i < |ws| => TextOf(s, ws[i]))
  }

  ghost function Reds(s: string, rs: seq<SpanRed>): (r: seq<Red>)
    ensures |r| == |rs| && forall i :: 0 <= i < |r| ==> r[i] == Red(TextOf(s, rs[i].file), rs[i].out)
  {
    seq(|rs|, i requires 0 <= i < |rs| => Red(TextOf(s, rs[i].file), rs[i].out))
  }

  /** The tree with the texts of its words. */
  ghost function TreeText(s: string, c: Tree<Span>): Tree<string> {
    match c
    case Exec(args) => Exec(Texts(s, args))
    case Redir(d, f, o) => Redir(TreeText(s, d), TextOf(s, f), o)
    case Pipe(l, r) => Pipe(TreeText(s, l), TreeText(s, r))
    case List(l, r) => List(TreeText(s, l), TreeText(s, r))
    case Back(d) => Back(TreeText(s, d))
  }

  ghost function Spans(c: Tree<Span>): set<Span> {
    match c
    case Exec(args) => set w | w in args
    case Redir(d, f, o) => Spans(d) + {f}
    case Pipe(l, r) => Spans(l) + Spans(r)
    case List(l, r) => Spans(l) + Spans(r)
    case Back(d) => Spans(d)
  }

  ghost predicate AllWords(s: string, c: Tree<Span>) { forall w :: w in Spans(c) ==> WordAt(s, w) }

  function WrapSpans(c: Tree<Span>, rs: seq<SpanRed>): Tree<Span>
    decreases |rs|
  {
    if rs == [] then c else WrapSpans(Redir(c, rs[0].file, rs[0].out), rs[1..])
  }

  lemma {:induction false} WrapText(s: string, c: Tree<Span>, rs: seq<SpanRed>)
    requires AllWords(s, c) && forall r :: r in rs ==> WordAt(s, r.file)
    ensures TreeText(s, WrapSpans(c, rs)) == Wrap(TreeText(s, c), Reds(s, rs)) && AllWords(s, WrapSpans(c, rs))
    decreases |rs|
  {
    if rs != [] {
      assert rs[0] in rs && forall r :: r in rs[1..] ==> r in rs;
      WrapText(s, Redir(c, rs[0].file, rs[0].out), rs[1..]);
      assert Reds(s, rs)[1..] == Reds(s, rs[1..]);
    }
  }

  // ---------------------------------------------------------------- tokens under the cursor

  lemma LexSkip(s: string, i: nat)
    requires i < |s| && IsSpace(s[i])
    ensures Lex(s[i..]) == Lex(s[i + 1..])
  {
    var t := s[i..];
    assert t[1..] == s[i + 1..];
    assert t[Blanks(t)..] == t[1..][Blanks(t[1..])..];
  }

  lemma FirstLen(s: string)
    requires s != "" && !IsSpace(s[0])
    ensures Blanks(s) == 0 && 0 < FirstTok(s).1 <= |s|
  {
  }

  lemma LexHead(s: string, i: nat)
    requires i < |s| && !IsSpace(s[i])
    ensures i < i + FirstTok(s[i..]).1 <= |s|
    ensures Lex(s[i..]) == [FirstTok(s[i..]).0] + Lex(s[i + FirstTok(s[i..]).1..])
  {
    hide FirstTok, Blanks;
    var t := s[i..];
    FirstLen(t);
    assert t[0..] == t && t[FirstTok(t).1..] == s[i + FirstTok(t).1..];
  }

  lemma LexEnd(s: string)
    ensures Lex(s[|s|..]) == []
  {
  }

  /** The white-space loops of gettoken and peek. */
  method Skip(s: string, i: nat) returns (j: nat)
    requires i <= |s|
    ensures i <= j <= |s| && Lex(s[j..]) == Lex(s[i..]) && (j < |s| ==> !IsSpace(s[j]))
  {
    hide Lex;
    j := i;
    while j < |s| && IsSpace(s[j])
      invariant i <= j <= |s| && Lex(s[j..]) == Lex(s[i..])
    {
      LexSkip(s, j);
      j := j + 1;
    }
  }

  /** The token that gettoken's answer stands for. */
  ghost function TokOf(tok: char, w: string): Tok {
    if tok == '|' then Bar else if tok == '(' then Open else if tok == ')' then Close else if tok == ';' then Semi
    else if tok == '&' then Amp else if tok == '<' then Less else if tok == '>' then Greater
    else if tok == '+' then Append
    else Word(w)
  }

  /** *s, which is NUL at the end of the string. */
  function At(s: string, i: nat): char { if i < |s| then s[i] else '\0' }

  ghost predicate NoNul(s: string) { forall i :: 0 <= i < |s| ==> s[i] != '\0' }

  method GetToken(s: string, i: nat) returns (tok: char, q: nat, eq: nat, j: nat)
    requires i <= |s| && NoNul(s)
    ensures tok == '\0' ==> Lex(s[i..]) == [] && j == |s|
    ensures tok != '\0' ==> i < j <= |s| && q < eq <= |s| && Lex(s[i..]) == [TokOf(tok, s[q..eq])] + Lex(s[j..])
    ensures tok in ['\0', '|', '(', ')', ';', '&', '<', '>', '+', 'a']
    ensures tok == 'a' ==> WordAt(s, Span(q, eq))
  {
    hide Lex, FirstTok;
    var k := Skip(s, i);
    q := k;
    tok := At(s, k);
    if tok == '\0' {
      LexEnd(s);
    } else {
      LexHead(s, k);
      HeadTok(s, k);
      if tok in ['|', '(', ')', ';', '&', '<'] {
        k := k + 1;
      } else if tok == '>' {
        k := k + 1;
        if At(s, k) == '>' {
          tok := '+';
          k := k + 1;
        }
      } else {
        tok := 'a';
        while k < |s| && !IsSpace(s[k]) && !IsSymbol(s[k])
          invariant q <= k <= |s| && forall m :: q <= m < k ==> IsWordChar(s[m])
        {
          k := k + 1;
        }
        WordEnd(s, q, k);
      }
    }
    eq := k;
    j := Skip(s, k);
  }

  /** What the first token is, by its first characters. */
  lemma HeadTok(s: string, k: nat)
    requires k < |s| && !IsSpace(s[k])
    ensures FirstTok(s[k..]) ==
      if s[k] == '>' then (if At(s, k + 1) == '>' then (Append, 2) else (Greater, 1))
      else if IsSymbol(s[k]) then (TokOf(s[k], ""), 1) else (Word(s[k..][..WordLen(s[k..])]), WordLen(s[k..]))
  {
    var t := s[k..];
    assert t[0] == s[k] && (|t| > 1 ==> t[1] == s[k + 1]);
  }

  lemma WordEnd(s: string, q: nat, k: nat)
    requires q < k <= |s| && (forall m :: q <= m < k ==> IsWordChar(s[m])) && (k < |s| ==> !IsWordChar(s[k]))
    ensures WordLen(s[q..]) == k - q && s[q..][..k - q] == s[q..k]
  {
    var t := s[q..];
    assert forall m :: 0 <= m < k - q ==> t[m] == s[q + m];
    assert k < |s| ==> t[k - q] == s[k];
  }

  /** peek: the cursor after white space, and whether one of toks is there. */
  method Peek(s: string, i: nat, toks: string) returns (hit: bool, j: nat)
    requires i <= |s| && NoNul(s)
    ensures i <= j <= |s| && Lex(s[j..]) == Lex(s[i..]) && (hit <==> j < |s| && s[j] in toks)
      && (j < |s| ==> !IsSpace(s[j]))
  {
    hide Lex;
    j := Skip(s, i);
    var c := At(s, j);
    hit := c != '\0' && c in toks;
  }

  // ---------------------------------------------------------------- the parser

  /** What a character under the cursor says about the next token. */
  lemma NextTok(s: string, j: nat)
    requires j <= |s| && (j < |s| ==> !IsSpace(s[j]))
    ensures Lex(s[j..]) == [] <==> j == |s|
    ensures Starts(Lex(s[j..]), Bar) <==> j < |s| && s[j] == '|'
    ensures Starts(Lex(s[j..]), Amp) <==> j < |s| && s[j] == '&'
    ensures Starts(Lex(s[j..]), Semi) <==> j < |s| && s[j] == ';'
    ensures Starts(Lex(s[j..]), Open) <==> j < |s| && s[j] == '('
    ensures Starts(Lex(s[j..]), Close) <==> j < |s| && s[j] == ')'
    ensures StartsRedir(Lex(s[j..])) <==> j < |s| && (s[j] == '<' || s[j] == '>')
  {
    hide Lex, FirstTok;
    if j < |s| {
      LexHead(s, j);
      HeadTok(s, j);
    } else {
      LexEnd(s);
    }
  }

  /** Parsing the redirections of ts has got as far as `now`, with these done. */
  ghost predicate RedirsSoFar(ts: seq<Tok>, done: seq<Red>, now: seq<Tok>) {
    var a, b := ShellModel.ParseRedirs(ts), ShellModel.ParseRedirs(now);
    a.0 == b.0 && a.1 == done + b.1 && a.2 == b.2
  }

  lemma RedirsMore(ts: seq<Tok>, done: seq<Red>, now: seq<Tok>, next: seq<Tok>)
    requires RedirsSoFar(ts, done, now) && StartsRedir(now) && |now| >= 2 && now[1].Word? && next == now[2..]
    ensures RedirsSoFar(ts, done + [Red(now[1].w, !now[0].Less?)], next)
  {
  }

  lemma RedirsStuck(ts: seq<Tok>, done: seq<Red>, now: seq<Tok>)
    requires RedirsSoFar(ts, done, now) && StartsRedir(now) && (|now| < 2 || !now[1].Word?)
    ensures !ShellModel.ParseRedirs(ts).0
  {
  }

  lemma RedirsStart(ts: seq<Tok>)
    ensures RedirsSoFar(ts, [], ts)
  {
  }

  lemma RedirsDone(ts: seq<Tok>, done: seq<Red>, now: seq<Tok>)
    requires RedirsSoFar(ts, done, now) && !StartsRedir(now)
    ensures ShellModel.ParseRedirs(ts) == (true, done, now)
  {
    var none: seq<Red> := [];
    assert done + none == done;
  }

  method ParseRedirs(s: string, i: nat) returns (ok: bool, rs: seq<SpanRed>, j: nat)
    requires i <= |s| && NoNul(s)
    ensures !ok ==> !ShellModel.ParseRedirs(Lex(s[i..])).0
    ensures ok ==> i <= j <= |s| && ShellModel.ParseRedirs(Lex(s[i..])) == (true, Reds(s, rs), Lex(s[j..]))
    ensures ok ==> (forall r :: r in rs ==> WordAt(s, r.file)) && (j < |s| ==> !IsSpace(s[j]))
  {
    hide Lex, RedirsSoFar, NoNul, WordAt;
    rs := [];
    ghost var ts := Lex(s[i..]);
    RedirsStart(ts);
    var hit;
    hit, j := Peek(s, i, "<>");
    NextTok(s, j);
    while hit
      invariant i <= j <= |s| && (hit <==> StartsRedir(Lex(s[j..]))) && (j < |s| ==> !IsSpace(s[j]))
      invariant forall r :: r in rs ==> WordAt(s, r.file)
      invariant RedirsSoFar(ts, Reds(s, rs), Lex(s[j..]))
      decreases |s| - j
    {
      ghost var now := Lex(s[j..]);
      var tok, q0, eq0, k := GetToken(s, j);
      var tok2, q, eq, m := GetToken(s, k);
      if tok2 != 'a' {
        RedirsStuck(ts, Reds(s, rs), now);
        return false, [], j;
      }
      ghost var done := Reds(s, rs);
      RedirsMore(ts, done, now, Lex(s[m..]));
      rs := rs + [SpanRed(Span(q, eq), tok != '<')];
      assert Reds(s, rs) == done + [Red(now[1].w, !now[0].Less?)];
      hit, j := Peek(s, m, "<>");
      NextTok(s, j);
    }
    RedirsDone(ts, Reds(s, rs), Lex(s[j..]));
    ok := true;
  }

  /** The method's answer is the grammar's: failure, or the same tree with the cursor at the same rest. */
  ghost predicate Agrees(s: string, i: nat, ok: bool, c: Tree<Span>, j: nat, r: Result) {
    if r.Fail? then !ok
    else ok && i <= j <= |s| && AllWords(s, c) && TreeText(s, c) == r.tree && Lex(s[j..]) == r.rest
  }

  /** The words of a simple command are read as far as `now`. */
  ghost predicate ArgsSoFar(s: string, ts: seq<Tok>, args: seq<Span>, rs: seq<SpanRed>, now: seq<Tok>) {
    && (forall w :: w in args ==> WordAt(s, w)) && (forall r :: r in rs ==> WordAt(s, r.file))
    && !Starts(ts, Open) && ShellModel.ParseExec(ts) == ParseArgs(Texts(s, args), Reds(s, rs), now) && |args| < MAXARGS
  }

  lemma ArgsStart(s: string, ts: seq<Tok>, rs: seq<SpanRed>, now: seq<Tok>)
    requires !Starts(ts, Open) && ShellModel.ParseRedirs(ts) == (true, Reds(s, rs), now) && forall r :: r in rs ==>
      WordAt(s, r.file)
    ensures ArgsSoFar(s, ts, [], rs, now)
  {
    hide ShellModel.ParseRedirs;
    assert Texts(s, []) == [];
  }

  lemma ArgsMore(s: string, ts: seq<Tok>, args: seq<Span>, rs: seq<SpanRed>, now: seq<Tok>, w: Span,
          more: seq<SpanRed>, next: seq<Tok>)
    requires ArgsSoFar(s, ts, args, rs, now) && !Stops(now) && now[0] == Word(TextOf(s, w)) && WordAt(s, w)
      && |args| + 1 < MAXARGS
    requires ShellModel.ParseRedirs(now[1..]) == (true, Reds(s, more), next) && forall r :: r in more ==>
      WordAt(s, r.file)
    ensures ArgsSoFar(s, ts, args + [w], rs + more, next)
  {
    hide ShellModel.ParseRedirs, ShellModel.ParseExec, WordAt;
    assert Texts(s, args + [w]) == Texts(s, args) + [TextOf(s, w)];
    assert Reds(s, rs + more) == Reds(s, rs) + Reds(s, more);
  }

  lemma ArgsStuck(s: string, ts: seq<Tok>, args: seq<Span>, rs: seq<SpanRed>, now: seq<Tok>)
    requires ArgsSoFar(s, ts, args, rs, now) && !Stops(now)
    requires !now[0].Word? || |args| + 1 >= MAXARGS || !ShellModel.ParseRedirs(now[1..]).0
    ensures ShellModel.ParseExec(ts) == Fail
  {
    hide ShellModel.ParseRedirs, ShellModel.ParseExec, WordAt;
  }

  lemma ArgsDone(s: string, i: nat, ts: seq<Tok>, args: seq<Span>, rs: seq<SpanRed>, j: nat)
    requires i <= j <= |s| && ArgsSoFar(s, ts, args, rs, Lex(s[j..])) && Stops(Lex(s[j..]))
    ensures Agrees(s, i, true, WrapSpans(Exec(args), rs), j, ShellModel.ParseExec(ts))
  {
    hide Lex, ShellModel.ParseExec, WordAt;
    WrapText(s, Exec(args), rs);
  }

  lemma NoRedirs(ts: seq<Tok>)
    requires !Starts(ts, Open) && !ShellModel.ParseRedirs(ts).0
    ensures ShellModel.ParseExec(ts) == Fail
  {
  }

  /** The part of parseexec for a simple command. */
  method ParseSimple(s: string, i: nat) returns (ok: bool, c: Tree<Span>, j: nat)
    requires i <= |s| && NoNul(s) && !Starts(Lex(s[i..]), Open)
    ensures Agrees(s, i, ok, c, j, ShellModel.ParseExec(Lex(s[i..])))
  {
    hide Lex, ArgsSoFar, ShellModel.ParseExec, NoNul, WordAt, TreeText;
    c, j := Exec([]), i;
    ghost var ts := Lex(s[i..]);
    var args: seq<Span> := [];
    var rs;
    ok, rs, j := ParseRedirs(s, i);
    if !ok {
      NoRedirs(ts);
      return;
    }
    ArgsStart(s, ts, rs, Lex(s[j..]));
    var hit;
    hit, j := Peek(s, j, "|)&;");
    NextTok(s, j);
    while !hit
      invariant i <= j <= |s| && (hit || j == |s| <==> Stops(Lex(s[j..]))) && |args| < MAXARGS
      invariant ArgsSoFar(s, ts, args, rs, Lex(s[j..]))
      decreases |s| - j
    {
      ghost var now := Lex(s[j..]);
      var tok, q, eq, k := GetToken(s, j);
      if tok == '\0' { break; }
      if tok != 'a' {
        ArgsStuck(s, ts, args, rs, now);
        return false, c, j;
      }
      if |args| + 1 >= MAXARGS {
        ArgsStuck(s, ts, args, rs, now);
        return false, c, j;
      }
      var more;
      ok, more, k := ParseRedirs(s, k);
      if !ok {
        ArgsStuck(s, ts, args, rs, now);
        return;
      }
      ArgsMore(s, ts, args, rs, now, Span(q, eq), more, Lex(s[k..]));
      args, rs := args + [Span(q, eq)], rs + more;
      hit, j := Peek(s, k, "|)&;");
      NextTok(s, j);
    }
    ArgsDone(s, i, ts, args, rs, j);
    c, ok := WrapSpans(Exec(args), rs), true;
  }

  lemma BlockAgrees(s: string, i: nat, k: nat, m: nat, b: Tree<Span>, rs: seq<SpanRed>, j: nat)
    requires i <= k <= m <= j <= |s| && Starts(Lex(s[i..]), Open) && Lex(s[i..])[1..] == Lex(s[k..])
    requires Starts(Lex(s[m..]), Close) && AllWords(s, b) && forall r :: r in rs ==> WordAt(s, r.file)
    requires ShellModel.ParseLine(Lex(s[k..])) == Ok(TreeText(s, b), Lex(s[m..]))
    requires ShellModel.ParseRedirs(Lex(s[m..])[1..]) == (true, Reds(s, rs), Lex(s[j..]))
    ensures Agrees(s, i, true, WrapSpans(b, rs), j, ShellModel.ParseExec(Lex(s[i..])))
  {
    hide Lex, WordAt, ShellModel.ParseRedirs, ShellModel.ParseLine;
    WrapText(s, b, rs);
  }

  lemma BlockFails(s: string, i: nat, k: nat)
    requires i <= k <= |s| && Starts(Lex(s[i..]), Open) && Lex(s[i..])[1..] == Lex(s[k..])
    requires (var r := ShellModel.ParseLine(Lex(s[k..]));
      r.Fail? || !Starts(r.rest, Close) || !ShellModel.ParseRedirs(r.rest[1..]).0)
    ensures ShellModel.ParseExec(Lex(s[i..])) == Fail
  {
    hide Lex, ShellModel.ParseRedirs, ShellModel.ParseLine;
  }

  method ParseBlock(s: string, i: nat) returns (ok: bool, c: Tree<Span>, j: nat)
    requires i <= |s| && NoNul(s) && Starts(Lex(s[i..]), Open)
    ensures Agrees(s, i, ok, c, j, ShellModel.ParseExec(Lex(s[i..])))
    decreases |s| - i, 0
  {
    hide Lex, ShellModel.ParseExec, ShellModel.ParseLine, NoNul, WordAt, TreeText, AllWords;
    var tok, q, eq, k := GetToken(s, i);
    ok, c, j := ParseLine(s, k);
    if !ok {
      BlockFails(s, i, k);
      return;
    }
    var b, hit := c, false;
    hit, j := Peek(s, j, ")");
    NextTok(s, j);
    if !hit {
      BlockFails(s, i, k);
      return false, c, j;
    }
    ghost var m := j;
    tok, q, eq, j := GetToken(s, j);
    assert Lex(s[m..])[1..] == Lex(s[j..]);
    var rs;
    ok, rs, j := ParseRedirs(s, j);
    if !ok {
      BlockFails(s, i, k);
      return;
    }
    BlockAgrees(s, i, k, m, b, rs, j);
    c := WrapSpans(b, rs);
  }

  method ParseExec(s: string, i: nat) returns (ok: bool, c: Tree<Span>, j: nat)
    requires i <= |s| && NoNul(s)
    ensures Agrees(s, i, ok, c, j, ShellModel.ParseExec(Lex(s[i..])))
    decreases |s| - i, 1
  {
    hide Lex, ShellModel.ParseExec, NoNul, AllWords, TreeText;
    var hit, k := Peek(s, i, "(");
    NextTok(s, k);
    if hit {
      ok, c, j := ParseBlock(s, k);
    } else {
      ok, c, j := ParseSimple(s, k);
    }
  }

  method ParsePipe(s: string, i: nat) returns (ok: bool, c: Tree<Span>, j: nat)
    requires i <= |s| && NoNul(s)
    ensures Agrees(s, i, ok, c, j, ShellModel.ParsePipe(Lex(s[i..])))
    decreases |s| - i, 2
  {
    hide Lex, ShellModel.ParseExec, NoNul;
    ok, c, j := ParseExec(s, i);
    if !ok { return; }
    var hit;
    hit, j := Peek(s, j, "|");
    NextTok(s, j);
    if hit {
      var tok, q, eq, k := GetToken(s, j);
      assert Lex(s[j..])[1..] == Lex(s[k..]);
      var r;
      ok, r, j := ParsePipe(s, k);
      c := Pipe(c, r);
    }
  }

  method ParseLine(s: string, i: nat) returns (ok: bool, c: Tree<Span>, j: nat)
    requires i <= |s| && NoNul(s)
    ensures Agrees(s, i, ok, c, j, ShellModel.ParseLine(Lex(s[i..])))
    decreases |s| - i, 3
  {
    hide Lex, ShellModel.ParsePipe, NoNul;
    ok, c, j := ParsePipe(s, i);
    if !ok { return; }
    ghost var head := ParseHead(Lex(s[i..]));
    var hit;
    hit, j := Peek(s, j, "&");
    NextTok(s, j);
    while hit
      invariant i <= j <= |s| && AllWords(s, c) && (hit <==> Starts(Lex(s[j..]), Amp))
      invariant Backs(TreeText(s, c), Lex(s[j..])) == head
      decreases |s| - j
    {
      var tok, q, eq, k := GetToken(s, j);
      assert Lex(s[j..])[1..] == Lex(s[k..]);
      c := Back(c);
      hit, j := Peek(s, k, "&");
      NextTok(s, j);
    }
    assert head == Ok(TreeText(s, c), Lex(s[j..]));
    hit, j := Peek(s, j, ";");
    NextTok(s, j);
    if hit {
      var tok, q, eq, k := GetToken(s, j);
      assert Lex(s[j..])[1..] == Lex(s[k..]);
      var r;
      ok, r, j := ParseLine(s, k);
      c := List(c, r);
    }
  }

  // ---------------------------------------------------------------- nulterminate

  ghost predicate EndsAt(c: Tree<Span>, k: nat) { exists w :: w in Spans(c) && w.hi == k }

  /** The characters after storing NUL at the end of every word of the tree. */
  ghost function Cut(b: seq<char>, c: Tree<Span>): (r: seq<char>)
    ensures |r| == |b| && forall k :: 0 <= k < |b| ==> r[k] == if EndsAt(c, k) then '\0' else b[k]
  {
    seq(|b|, k requires 0 <= k < |b| => if EndsAt(c, k) then '\0' else b[k])
  }

  lemma CutTwice(b: seq<char>, l: Tree<Span>, r: Tree<Span>, c: Tree<Span>)
    requires Spans(c) == Spans(l) + Spans(r)
    ensures Cut(Cut(b, l), r) == Cut(b, c)
  {
    forall k: nat ensures EndsAt(c, k) <==> EndsAt(l, k) || EndsAt(r, k) {}
  }

  method Nulterminate(buf: array<char>, c: Tree<Span>)
    requires forall w :: w in Spans(c) ==> w.hi < buf.Length
    modifies buf
    ensures buf[..] == Cut(old(buf[..]), c)
    decreases c
  {
    match c {
      case Exec(args) =>
        var i := 0;
        while i < |args|
          invariant i <= |args| && forall k :: 0 <= k < buf.Length ==>
            buf[k] == if EndsAt(Exec(args[..i]), k) then '\0' else old(buf[k])
        {
          assert args[i] in Spans(c);
          OneMore(args, i);
          buf[args[i].hi] := '\0';
          i := i + 1;
        }
        assert args[..i] == args;
      case Redir(d, f, o) =>
        Nulterminate(buf, d);
        buf[f.hi] := '\0';
        OneEnd(d, f, o);
      case Pipe(l, r) =>
        Nulterminate(buf, l);
        Nulterminate(buf, r);
        CutTwice(old(buf[..]), l, r, c);
      case List(l, r) =>
        Nulterminate(buf, l);
        Nulterminate(buf, r);
        CutTwice(old(buf[..]), l, r, c);
      case Back(d) =>
        Nulterminate(buf, d);
        forall k: nat ensures EndsAt(c, k) <==> EndsAt(d, k) {}
    }
  }

  lemma OneMore(args: seq<Span>, i: nat)
    requires i < |args|
    ensures forall k: nat :: EndsAt(Exec(args[..i + 1]), k) <==> EndsAt(Exec(args[..i]), k) || k == args[i].hi
  {
    assert args[..i + 1] == args[..i] + [args[i]];
    forall k: nat ensures EndsAt(Exec(args[..i + 1]), k) <==> EndsAt(Exec(args[..i]), k) || k == args[i].hi {
      if k == args[i].hi { assert args[i] in Spans(Exec(args[..i + 1])); }
      if EndsAt(Exec(args[..i]), k) {
        var w :| w in Spans(Exec(args[..i])) && w.hi == k;
        assert w in Spans(Exec(args[..i + 1]));
      }
    }
  }

  lemma OneEnd(d: Tree<Span>, f: Span, o: bool)
    ensures forall k: nat :: EndsAt(Redir(d, f, o), k) <==> EndsAt(d, k) || k == f.hi
  {
    forall k: nat ensures EndsAt(Redir(d, f, o), k) <==> EndsAt(d, k) || k == f.hi {
      if k == f.hi { assert f in Spans(Redir(d, f, o)); }
      if EndsAt(d, k) {
        var w :| w in Spans(d) && w.hi == k;
        assert w in Spans(Redir(d, f, o));
      }
    }
  }

  /** The C string at index i: up to the first NUL. */
  ghost function CString(b: seq<char>, i: nat): string
    decreases |b| - i
  {
    if i < |b| && b[i] != '\0' then [b[i]] + CString(b, i + 1) else ""
  }

  lemma {:induction false} CStringIs(b: seq<char>, lo: nat, hi: nat)
    requires lo <= hi < |b| && b[hi] == '\0' && forall k :: lo <= k < hi ==> b[k] != '\0'
    ensures CString(b, lo) == b[lo..hi]
    decreases hi - lo
  {
    if lo < hi { CStringIs(b, lo + 1, hi); }
  }

  /** No word is cut short by the end of another, so after nulterminate each reads back whole. */
  lemma ReadsBack(s: string, c: Tree<Span>, w: Span)
    requires NoNul(s) && AllWords(s, c) && w in Spans(c)
    ensures CString(Cut(s + ['\0'], c), w.lo) == TextOf(s, w)
  {
    var b := Cut(s + ['\0'], c);
    assert EndsAt(c, w.hi) && WordAt(s, w);
    forall v | v in Spans(c) ensures !(w.lo <= v.hi < w.hi) { assert WordAt(s, v); }
    forall k | w.lo <= k < w.hi ensures b[k] == s[k] {}
    CStringIs(b, w.lo, w.hi);
  }

  /** parsecmd: the grammar's tree, and every word of it readable as a C string in the buffer. */
  method ParseCmd(buf: array<char>) returns (ok: bool, c: Tree<Span>)
    requires buf.Length > 0 && buf[buf.Length - 1] == '\0' && NoNul(buf[..buf.Length - 1])
    modifies buf
    ensures ok <==> ShellModel.ParseCmd(old(buf[..buf.Length - 1])).Ok?
    ensures ok ==> TreeText(old(buf[..buf.Length - 1]), c) == ShellModel.ParseCmd(old(buf[..buf.Length - 1])).tree
    ensures ok ==> forall w :: w in Spans(c) ==> CString(buf[..], w.lo) == TextOf(old(buf[..buf.Length - 1]), w)
    ensures !ok ==> buf[..] == old(buf[..])
  {
    hide Lex, ShellModel.ParseLine, WordAt, TreeText;
    var s := buf[..buf.Length - 1];
    var j;
    ok, c, j := ParseLine(s, 0);
    assert s[0..] == s;
    if !ok { return; }
    var hit;
    hit, j := Peek(s, j, "");
    NextTok(s, j);
    if j != |s| { return false, c; }
    forall w | w in Spans(c) ensures w.hi < buf.Length && CString(Cut(s + ['\0'], c), w.lo) == TextOf(s, w) {
      SpanFits(s, c, w);
      ReadsBack(s, c, w);
    }
    assert buf[..] == s + ['\0'];
    Nulterminate(buf, c);
  }

  lemma SpanFits(s: string, c: Tree<Span>, w: Span)
    requires AllWords(s, c) && w in Spans(c)
    ensures w.lo < w.hi <= |s|
  {
  }
}
