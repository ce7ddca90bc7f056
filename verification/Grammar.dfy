/** The grammar of command lines written out as derivations, and the parser of sh.c measured against it. */
module ShellGrammar {
  import opened ShellModel

  /** A word, or a redirection with its operator and file. */
  datatype Item = Arg(w: string) | Into(op: Tok, file: string)

  /** line ::= pipe '&'* | pipe '&'* ';' line */
  datatype LineD = Last(pipe: PipeD, amps: nat) | Then(pipe: PipeD, amps: nat, rest: LineD)
  /** pipe ::= cmd | cmd '|' pipe */
  datatype PipeD = One(cmd: CmdD) | Join(cmd: CmdD, rest: PipeD)
  /** cmd ::= (word | redirection)* | '(' line ')' redirection* */
  datatype CmdD = Simple(items: seq<Item>) | Block(line: LineD, reds: seq<Item>)

  // ---------------------------------------------------------------- what a derivation spells

  ghost function ItemToks(i: Item): seq<Tok> { if i.Arg? then [Word(i.w)] else [i.op, Word(i.file)] }

  ghost function ItemsToks(items: seq<Item>): seq<Tok> {
    if items == [] then [] else ItemToks(items[0]) + ItemsToks(items[1..])
  }

  ghost function Amps(n: nat): seq<Tok> { if n == 0 then [] else [Amp] + Amps(n - 1) }

  ghost function CmdToks(c: CmdD): seq<Tok> {
    match c
    case Simple(items) => ItemsToks(items)
    case Block(l, reds) => [Open] + (LineToks(l) + ([Close] + ItemsToks(reds)))
  }

  ghost function PipeToks(p: PipeD): seq<Tok> {
    match p
    case One(c) => CmdToks(c)
    case Join(c, r) => CmdToks(c) + ([Bar] + PipeToks(r))
  }

  ghost function LineToks(l: LineD): seq<Tok> {
    match l
    case Last(p, n) => PipeToks(p) + Amps(n)
    case Then(p, n, r) => PipeToks(p) + (Amps(n) + ([Semi] + LineToks(r)))
  }

  // ---------------------------------------------------------------- the tree it stands for

  ghost function ArgsOf(items: seq<Item>): seq<string> {
    if items == [] then [] else (if items[0].Arg? then [items[0].w] else []) + ArgsOf(items[1..])
  }

  ghost function RedsOf(items: seq<Item>): seq<Red> {
    if items == [] then []
    else (if items[0].Into? then [Red(items[0].file, !items[0].op.Less?)] else []) + RedsOf(items[1..])
  }

  ghost function BackTree(t: Tree<string>, n: nat): Tree<string>
    decreases n
  {
    if n == 0 then t else BackTree(Back(t), n - 1)
  }

  ghost function CmdTree(c: CmdD): Tree<string> {
    match c
    case Simple(items) => Wrap(Exec(ArgsOf(items)), RedsOf(items))
    case Block(l, reds) => Wrap(LineTree(l), RedsOf(reds))
  }

  ghost function PipeTree(p: PipeD): Tree<string> {
    match p
    case One(c) => CmdTree(c)
    case Join(c, r) => Pipe(CmdTree(c), PipeTree(r))
  }

  ghost function LineTree(l: LineD): Tree<string> {
    match l
    case Last(p, n) => BackTree(PipeTree(p), n)
    case Then(p, n, r) => List(BackTree(PipeTree(p), n), LineTree(r))
  }

  // ---------------------------------------------------------------- which derivations count

  ghost predicate ItemOk(i: Item) { i.Into? ==> i.op.Less? || i.op.Greater? || i.op.Append? }
  ghost predicate ItemsOk(items: seq<Item>) { forall i :: i in items ==> ItemOk(i) }
  ghost predicate OnlyReds(items: seq<Item>) { forall i :: i in items ==> i.Into? }

  /** At most nine words in each simple command; redirections only behind a block. */
  ghost predicate CmdOk(c: CmdD) {
    match c
    case Simple(items) => ItemsOk(items) && |ArgsOf(items)| < MAXARGS
    case Block(l, reds) => LineOk(l) && ItemsOk(reds) && OnlyReds(reds)
  }

  ghost predicate PipeOk(p: PipeD) {
    match p
    case One(c) => CmdOk(c)
    case Join(c, r) => CmdOk(c) && PipeOk(r)
  }

  ghost predicate LineOk(l: LineD) {
    match l
    case Last(p, _) => PipeOk(p)
    case Then(p, _, r) => PipeOk(p) && LineOk(r)
  }

  // ---------------------------------------------------------------- every derivation is parsed

  /** The number of redirections at the head. */
  ghost function Lead(items: seq<Item>): (k: nat)
    ensures k <= |items| && OnlyReds(items[..k]) && (k < |items| ==> items[k].Arg?)
  {
    if items == [] || items[0].Arg? then 0 else
      var k := Lead(items[1..]);
      assert items[..k + 1] == [items[0]] + items[1..][..k];
      k + 1
  }

  /** Behind its first item a list of items goes on with the others. */
  lemma FirstItem(items: seq<Item>, rest: seq<Tok>)
    requires items != [] && ItemsOk(items)
    ensures ItemOk(items[0]) && ItemsOk(items[1..])
    ensures ItemsToks(items) + rest == ItemToks(items[0]) + (ItemsToks(items[1..]) + rest)
  {
    assert items[0] in items && forall i :: i in items[1..] ==> i in items;
    var x, y := ItemToks(items[0]), ItemsToks(items[1..]);
    hide ItemToks;
    assert (x + y) + rest == x + (y + rest);
  }

  /** One turn of parseredirs. */
  lemma RedsOne(op: Tok, file: string, us: seq<Tok>)
    requires op.Less? || op.Greater? || op.Append?
    ensures ParseRedirs([op, Word(file)] + us) ==
      (var r := ParseRedirs(us); (r.0, [Red(file, !op.Less?)] + r.1, r.2))
  {
    assert ([op, Word(file)] + us)[2..] == us;
  }

  lemma LeadOne(items: seq<Item>)
    requires items != [] && items[0].Into?
    ensures (var k, j := Lead(items), Lead(items[1..]);
      && items[k..] == items[1..][j..]
      && RedsOf(items[..k]) == [Red(items[0].file, !items[0].op.Less?)] + RedsOf(items[1..][..j]))
  {
    var k, j := Lead(items), Lead(items[1..]);
    assert items[1..][j..] == items[k..] && items[..k][1..] == items[1..][..j];
  }

  lemma LeadNone(items: seq<Item>)
    requires items == [] || items[0].Arg?
    ensures Lead(items) == 0 && items[..0] == [] && items[0..] == items && RedsOf([]) == []
  {
  }

  lemma NotRedir(items: seq<Item>, rest: seq<Tok>)
    requires (items == [] || items[0].Arg?) && !StartsRedir(rest)
    ensures ParseRedirs(ItemsToks(items) + rest) == (true, [], ItemsToks(items) + rest)
  {
    if items == [] { assert ItemsToks(items) + rest == rest; }
  }

  lemma {:induction false} RedsParse(items: seq<Item>, rest: seq<Tok>)
    requires ItemsOk(items) && !StartsRedir(rest)
    ensures (var k := Lead(items);
      ParseRedirs(ItemsToks(items) + rest) == (true, RedsOf(items[..k]), ItemsToks(items[k..]) + rest))
    decreases |items|
  {
    hide ItemsToks, ItemsOk, RedsOf, Lead, ParseRedirs, StartsRedir;
    if items == [] || items[0].Arg? {
      NotRedir(items, rest);
      LeadNone(items);
    } else {
      FirstItem(items, rest);
      RedsParse(items[1..], rest);
      RedsOne(items[0].op, items[0].file, ItemsToks(items[1..]) + rest);
      LeadOne(items);
    }
  }

  lemma {:induction false} ArgsSplit(items: seq<Item>, k: nat)
    requires k <= |items|
    ensures ArgsOf(items) == ArgsOf(items[..k]) + ArgsOf(items[k..])
  {
    if k == 0 {
      assert items[..0] == [] && items[0..] == items;
    } else {
      ArgsSplit(items[1..], k - 1);
      assert items[..k][1..] == items[1..][..k - 1] && items[1..][k - 1..] == items[k..];
    }
  }

  lemma {:induction false} RedsSplit(items: seq<Item>, k: nat)
    requires k <= |items|
    ensures RedsOf(items) == RedsOf(items[..k]) + RedsOf(items[k..])
  {
    if k == 0 {
      assert items[..0] == [] && items[0..] == items;
    } else {
      RedsSplit(items[1..], k - 1);
      assert items[..k][1..] == items[1..][..k - 1] && items[1..][k - 1..] == items[k..];
    }
  }

  /** The items at the head and the rest, which begins with a word. */
  lemma LeadSplit(items: seq<Item>)
    requires ItemsOk(items)
    ensures (var k := Lead(items);
      && ArgsOf(items[k..]) == ArgsOf(items) && RedsOf(items) == RedsOf(items[..k]) + RedsOf(items[k..])
      && ItemsOk(items[k..]) && (items[k..] != [] ==> items[k..][0].Arg?))
  {
    var k := Lead(items);
    assert forall i :: i in items[k..] ==> i in items;
    ArgsSplit(items, k);
    RedsSplit(items, k);
    NoArgs(items[..k]);
  }

  lemma {:induction false} NoArgs(items: seq<Item>)
    requires OnlyReds(items)
    ensures ArgsOf(items) == [] && |RedsOf(items)| == |items| && Lead(items) == |items|
  {
    if items != [] {
      assert items[0] in items && forall i :: i in items[1..] ==> i in items;
      NoArgs(items[1..]);
    }
  }

  /** One turn of parseexec's loop. */
  lemma ArgsOne(args: seq<string>, reds: seq<Red>, ts: seq<Tok>, more: seq<Red>, us: seq<Tok>)
    requires ts != [] && ts[0].Word? && |args| + 1 < MAXARGS && ParseRedirs(ts[1..]) == (true, more, us)
    ensures ParseArgs(args, reds, ts) == ParseArgs(args + [ts[0].w], reds + more, us)
  {
    hide ParseRedirs;
  }

  lemma ArgsEnd(args: seq<string>, reds: seq<Red>, rest: seq<Tok>)
    requires Stops(rest)
    ensures ParseArgs(args, reds, ItemsToks([]) + rest) ==
      Ok(Wrap(Exec(args + ArgsOf([])), reds + RedsOf([])), rest)
  {
    assert ItemsToks([]) + rest == rest && args + [] == args && reds + [] == reds;
  }

  lemma HeadItem(items: seq<Item>, rest: seq<Tok>)
    requires items != [] && items[0].Arg? && ItemsOk(items)
    ensures (var ts := ItemsToks(items) + rest;
      ts != [] && ts[0] == Word(items[0].w) && ts[1..] == ItemsToks(items[1..]) + rest)
    ensures ArgsOf(items) == [items[0].w] + ArgsOf(items[1..]) && RedsOf(items) == RedsOf(items[1..])
    ensures ItemsOk(items[1..])
  {
    FirstItem(items, rest);
    hide ItemsToks, ItemsOk;
  }

  lemma {:induction false} ArgsParse(args: seq<string>, reds: seq<Red>, items: seq<Item>, rest: seq<Tok>)
    requires ItemsOk(items) && (items != [] ==> items[0].Arg?) && Stops(rest) && |args| + |ArgsOf(items)| < MAXARGS
    ensures ParseArgs(args, reds, ItemsToks(items) + rest) ==
      Ok(Wrap(Exec(args + ArgsOf(items)), reds + RedsOf(items)), rest)
    decreases |items|
  {
    hide Lead, ItemsOk, ParseRedirs, ItemsToks, ParseArgs, ArgsOf, RedsOf, Wrap;
    if items == [] {
      ArgsEnd(args, reds, rest);
    } else {
      var ts, w, tail := ItemsToks(items) + rest, items[0].w, items[1..];
      HeadItem(items, rest);
      RedsParse(tail, rest);
      LeadSplit(tail);
      var k := Lead(tail);
      ArgsOne(args, reds, ts, RedsOf(tail[..k]), ItemsToks(tail[k..]) + rest);
      ArgsParse(args + [w], reds + RedsOf(tail[..k]), tail[k..], rest);
      assert (args + [w]) + ArgsOf(tail[k..]) == args + ArgsOf(items);
      assert (reds + RedsOf(tail[..k])) + RedsOf(tail[k..]) == reds + RedsOf(items);
    }
  }

  lemma SimpleParse(items: seq<Item>, rest: seq<Tok>)
    requires ItemsOk(items) && |ArgsOf(items)| < MAXARGS && Stops(rest)
    ensures ParseExec(ItemsToks(items) + rest) == Ok(Wrap(Exec(ArgsOf(items)), RedsOf(items)), rest)
  {
    var ts := ItemsToks(items) + rest;
    assert !Starts(ts, Open) by {
      if items != [] { assert items[0] in items && ItemOk(items[0]); }
    }
    RedsParse(items, rest);
    LeadSplit(items);
    var k := Lead(items);
    ArgsParse([], RedsOf(items[..k]), items[k..], rest);
    assert [] + ArgsOf(items[k..]) == ArgsOf(items);
  }

  lemma {:induction false} CmdParse(c: CmdD, rest: seq<Tok>)
    requires CmdOk(c) && Stops(rest)
    ensures ParseExec(CmdToks(c) + rest) == Ok(CmdTree(c), rest)
    decreases c, 0
  {
    match c {
      case Simple(items) => SimpleParse(items, rest);
      case Block(l, reds) =>
        hide ParseLine, LineToks, LineTree, ItemsToks;
        var more := [Close] + (ItemsToks(reds) + rest);
        LineParse(l, more);
        RedsParse(reds, rest);
        NoArgs(reds);
        BlockParse(l, reds, rest);
    }
  }

  /** parseblock, once what is inside and what follows are known. */
  lemma OpenParse(us: seq<Tok>, t: Tree<string>, vs: seq<Tok>, reds: seq<Red>, rest: seq<Tok>)
    requires ParseLine(us) == Ok(t, [Close] + vs) && ParseRedirs(vs) == (true, reds, rest)
    ensures ParseExec([Open] + us) == Ok(Wrap(t, reds), rest)
  {
    hide ParseLine, ParseRedirs;
    assert ([Open] + us)[1..] == us && ([Close] + vs)[1..] == vs;
  }

  lemma BlockToks(a: seq<Tok>, b: seq<Tok>, rest: seq<Tok>)
    ensures ([Open] + (a + ([Close] + b))) + rest == [Open] + (a + ([Close] + (b + rest)))
  {
  }

  lemma BlockParse(l: LineD, reds: seq<Item>, rest: seq<Tok>)
    requires Lead(reds) == |reds|
    requires (var more := [Close] + (ItemsToks(reds) + rest); ParseLine(LineToks(l) + more) == Ok(LineTree(l), more))
    requires (var k := Lead(reds);
      ParseRedirs(ItemsToks(reds) + rest) == (true, RedsOf(reds[..k]), ItemsToks(reds[k..]) + rest))
    ensures ParseExec(CmdToks(Block(l, reds)) + rest) == Ok(CmdTree(Block(l, reds)), rest)
  {
    assert ItemsToks([]) + rest == rest;
    hide ParseLine, ParseExec, LineToks, LineTree, ItemsToks, ParseRedirs, RedsOf, Lead, Wrap;
    assert reds[..|reds|] == reds && reds[|reds|..] == [];
    BlockToks(LineToks(l), ItemsToks(reds), rest);
    OpenParse(LineToks(l) + ([Close] + (ItemsToks(reds) + rest)), LineTree(l), ItemsToks(reds) + rest, RedsOf(reds),
        rest);
  }

  lemma {:induction false} PipeParse(p: PipeD, rest: seq<Tok>)
    requires PipeOk(p) && Stops(rest) && !Starts(rest, Bar)
    ensures ParsePipe(PipeToks(p) + rest) == Ok(PipeTree(p), rest)
    decreases p, 1
  {
    hide ParseExec, CmdToks, CmdTree;
    match p {
      case One(c) => CmdParse(c, rest);
      case Join(c, r) =>
        var more := [Bar] + (PipeToks(r) + rest);
        assert PipeToks(p) + rest == CmdToks(c) + more && more[1..] == PipeToks(r) + rest;
        CmdParse(c, more);
        PipeParse(r, rest);
    }
  }

  lemma {:induction false} AmpsParse(t: Tree<string>, n: nat, rest: seq<Tok>)
    requires !Starts(rest, Amp)
    ensures Backs(t, Amps(n) + rest) == Ok(BackTree(t, n), rest)
    decreases n
  {
    if n == 0 {
      assert Amps(n) + rest == rest;
    } else {
      assert (Amps(n) + rest)[1..] == Amps(n - 1) + rest;
      AmpsParse(Back(t), n - 1, rest);
    }
  }

  lemma HeadParse(p: PipeD, n: nat, rest: seq<Tok>)
    requires PipeOk(p) && Stops(rest) && !Starts(rest, Bar) && !Starts(rest, Amp)
    ensures ParseHead(PipeToks(p) + (Amps(n) + rest)) == Ok(BackTree(PipeTree(p), n), rest)
    decreases p, 2
  {
    hide ParsePipe, PipeToks, PipeTree;
    var more := Amps(n) + rest;
    assert if n == 0 then more == rest else more[0] == Amp;
    PipeParse(p, more);
    AmpsParse(PipeTree(p), n, rest);
  }

  lemma {:induction false} LineParse(l: LineD, rest: seq<Tok>)
    requires LineOk(l) && (rest == [] || Starts(rest, Close))
    ensures ParseLine(LineToks(l) + rest) == Ok(LineTree(l), rest)
    decreases l, 3
  {
    hide ParseHead, PipeToks, PipeTree;
    match l {
      case Last(p, n) =>
        assert LineToks(l) + rest == PipeToks(p) + (Amps(n) + rest);
        HeadParse(p, n, rest);
      case Then(p, n, r) =>
        var more := [Semi] + (LineToks(r) + rest);
        assert LineToks(l) + rest == PipeToks(p) + (Amps(n) + more) && more[1..] == LineToks(r) + rest;
        HeadParse(p, n, more);
        LineParse(r, rest);
    }
  }

  // ---------------------------------------------------------------- everything parsed has a derivation

  lemma {:induction false} RedsDerive(ts: seq<Tok>) returns (items: seq<Item>)
    requires ParseRedirs(ts).0
    ensures ItemsOk(items) && OnlyReds(items) && RedsOf(items) == ParseRedirs(ts).1
    ensures ItemsToks(items) + ParseRedirs(ts).2 == ts
    decreases |ts|
  {
    items := [];
    if StartsRedir(ts) {
      var more := RedsDerive(ts[2..]);
      var i := Into(ts[0], ts[1].w);
      items := [i] + more;
      assert items[1..] == more && ts == [ts[0], ts[1]] + ts[2..];
    }
  }

  lemma ItemsAdd(a: seq<Item>, b: seq<Item>)
    requires ItemsOk(a) && ItemsOk(b)
    ensures ItemsOk(a + b) && ArgsOf(a + b) == ArgsOf(a) + ArgsOf(b) && RedsOf(a + b) == RedsOf(a) + RedsOf(b)
  {
    assert (a + b)[..|a|] == a && (a + b)[|a|..] == b;
    ArgsSplit(a + b, |a|);
    RedsSplit(a + b, |a|);
  }

  lemma {:induction false} ToksAdd(a: seq<Item>, b: seq<Item>)
    ensures ItemsToks(a + b) == ItemsToks(a) + ItemsToks(b)
    decreases |a|
  {
    if a == [] {
      assert a + b == b;
    } else {
      hide ItemToks;
      ToksAdd(a[1..], b);
      assert (a + b)[1..] == a[1..] + b;
      assert ItemToks(a[0]) + (ItemsToks(a[1..]) + ItemsToks(b)) == (ItemToks(a[0]) + ItemsToks(a[1..])) + ItemsToks(b);
    }
  }

  /** A word and the redirections behind it. */
  lemma WordThen(w: string, reds: seq<Item>, more: seq<Item>) returns (items: seq<Item>)
    requires ItemsOk(reds) && OnlyReds(reds) && ItemsOk(more)
    ensures ItemsOk(items) && ItemsToks(items) == [Word(w)] + (ItemsToks(reds) + ItemsToks(more))
    ensures ArgsOf(items) == [w] + ArgsOf(more) && RedsOf(items) == RedsOf(reds) + RedsOf(more)
  {
    ItemsAdd(reds, more);
    ToksAdd(reds, more);
    NoArgs(reds);
    items := [Arg(w)] + (reds + more);
    assert items[1..] == reds + more;
  }

  lemma NothingDerives(args: seq<string>, reds: seq<Red>, ts: seq<Tok>)
    requires Stops(ts)
    ensures ItemsOk([]) && ItemsToks([]) + ts == ts && ArgsOf([]) == []
    ensures ParseArgs(args, reds, ts) == Ok(Wrap(Exec(args + ArgsOf([])), reds + RedsOf([])), ts)
  {
    assert args + [] == args && reds + [] == reds;
  }

  lemma ArgsUnfold(args: seq<string>, reds: seq<Red>, ts: seq<Tok>)
    requires ParseArgs(args, reds, ts).Ok? && !Stops(ts)
    ensures ts[0].Word? && |args| + 1 < MAXARGS && ParseRedirs(ts[1..]).0
    ensures (var us := ParseRedirs(ts[1..]);
      && |us.2| < |ts|
      && ParseArgs(args, reds, ts) == ParseArgs(args + [ts[0].w], reds + us.1, us.2))
  {
    hide ParseRedirs;
  }

  lemma {:induction false} ArgsDerive(args: seq<string>, reds: seq<Red>, ts: seq<Tok>) returns (items: seq<Item>)
    requires ParseArgs(args, reds, ts).Ok? && |args| < MAXARGS
    ensures ItemsOk(items) && |args| + |ArgsOf(items)| < MAXARGS
    ensures ItemsToks(items) + ParseArgs(args, reds, ts).rest == ts
    ensures ParseArgs(args, reds, ts).tree == Wrap(Exec(args + ArgsOf(items)), reds + RedsOf(items))
    decreases |ts|
  {
    hide ParseArgs, ParseRedirs, ItemsOk, OnlyReds, ItemsToks, ArgsOf, RedsOf, Wrap;
    if Stops(ts) {
      items := [];
      NothingDerives(args, reds, ts);
    } else {
      ArgsUnfold(args, reds, ts);
      var w, us := ts[0].w, ParseRedirs(ts[1..]);
      var behind := RedsDerive(ts[1..]);
      var more := ArgsDerive(args + [w], reds + us.1, us.2);
      items := WordThen(w, behind, more);
      var rest := ParseArgs(args, reds, ts).rest;
      assert ([Word(w)] + (ItemsToks(behind) + ItemsToks(more))) + rest ==
        [Word(w)] + (ItemsToks(behind) + (ItemsToks(more) + rest));
      assert ts == [Word(w)] + ts[1..];
      assert args + ([w] + ArgsOf(more)) == (args + [w]) + ArgsOf(more);
      assert reds + (us.1 + RedsOf(more)) == (reds + us.1) + RedsOf(more);
    }
  }

  lemma {:induction false} CmdDerive(ts: seq<Tok>) returns (c: CmdD)
    requires ParseExec(ts).Ok?
    ensures CmdOk(c) && CmdToks(c) + ParseExec(ts).rest == ts && CmdTree(c) == ParseExec(ts).tree
    decreases |ts|, 0
  {
    if Starts(ts, Open) {
      var b := ParseLine(ts[1..]);
      var l := LineDerive(ts[1..]);
      var reds := RedsDerive(b.rest[1..]);
      c := Block(l, reds);
      BlockDerives(ts, l, reds);
    } else {
      var lead := RedsDerive(ts);
      var us := ParseRedirs(ts);
      var more := ArgsDerive([], us.1, us.2);
      c := Simple(lead + more);
      ItemsAdd(lead, more);
      ToksAdd(lead, more);
      NoArgs(lead);
      SimpleDerives(ts, lead, more);
    }
  }

  lemma BlockDerives(ts: seq<Tok>, l: LineD, reds: seq<Item>)
    requires Starts(ts, Open) && ParseExec(ts).Ok? && LineOk(l) && ItemsOk(reds) && OnlyReds(reds)
    requires LineToks(l) + ParseLine(ts[1..]).rest == ts[1..] && LineTree(l) == ParseLine(ts[1..]).tree
    requires ParseLine(ts[1..]).rest != []
    requires ItemsToks(reds) + ParseRedirs(ParseLine(ts[1..]).rest[1..]).2 == ParseLine(ts[1..]).rest[1..]
    requires RedsOf(reds) == ParseRedirs(ParseLine(ts[1..]).rest[1..]).1
    ensures CmdOk(Block(l, reds)) && CmdToks(Block(l, reds)) + ParseExec(ts).rest == ts
    ensures CmdTree(Block(l, reds)) == ParseExec(ts).tree
  {
    hide ParseLine, ParseRedirs, LineToks, ItemsToks;
    var b := ParseLine(ts[1..]).rest;
    assert b == [Close] + b[1..] && ts == [Open] + ts[1..];
  }

  lemma SimpleDerives(ts: seq<Tok>, lead: seq<Item>, more: seq<Item>)
    requires !Starts(ts, Open) && ParseExec(ts).Ok? && ItemsOk(lead + more)
    requires ItemsToks(lead + more) == ItemsToks(lead) + ItemsToks(more)
    requires ArgsOf(lead + more) == [] + ArgsOf(more) && RedsOf(lead + more) == RedsOf(lead) + RedsOf(more)
    requires RedsOf(lead) == ParseRedirs(ts).1 && ItemsToks(lead) + ParseRedirs(ts).2 == ts
    requires |ArgsOf(more)| < MAXARGS
    requires ItemsToks(more) + ParseArgs([], ParseRedirs(ts).1, ParseRedirs(ts).2).rest == ParseRedirs(ts).2
    requires ParseArgs([], ParseRedirs(ts).1, ParseRedirs(ts).2).tree ==
      Wrap(Exec([] + ArgsOf(more)), ParseRedirs(ts).1 + RedsOf(more))
    ensures CmdOk(Simple(lead + more)) && CmdToks(Simple(lead + more)) + ParseExec(ts).rest == ts
    ensures CmdTree(Simple(lead + more)) == ParseExec(ts).tree
  {
    hide ParseArgs, ParseRedirs, ItemsToks, ArgsOf, RedsOf, ItemsOk;
  }

  lemma {:induction false} PipeDerive(ts: seq<Tok>) returns (p: PipeD)
    requires ParsePipe(ts).Ok?
    ensures PipeOk(p) && PipeToks(p) + ParsePipe(ts).rest == ts && PipeTree(p) == ParsePipe(ts).tree
    decreases |ts|, 1
  {
    hide ParseExec, CmdOk, CmdToks, CmdTree;
    var l := ParseExec(ts);
    var c := CmdDerive(ts);
    if Starts(l.rest, Bar) {
      var r := PipeDerive(l.rest[1..]);
      p := Join(c, r);
      assert l.rest == [Bar] + l.rest[1..];
    } else {
      p := One(c);
    }
  }

  lemma {:induction false} AmpsDerive(t: Tree<string>, ts: seq<Tok>) returns (n: nat)
    ensures Amps(n) + Backs(t, ts).rest == ts && BackTree(t, n) == Backs(t, ts).tree
    decreases |ts|
  {
    n := 0;
    if Starts(ts, Amp) {
      var m := AmpsDerive(Back(t), ts[1..]);
      n := m + 1;
      assert ts == [Amp] + ts[1..];
    }
  }

  lemma {:induction false} LineDerive(ts: seq<Tok>) returns (l: LineD)
    requires ParseLine(ts).Ok?
    ensures LineOk(l) && LineToks(l) + ParseLine(ts).rest == ts && LineTree(l) == ParseLine(ts).tree
    decreases |ts|, 2
  {
    hide ParsePipe, PipeOk, PipeToks, PipeTree, Amps, BackTree, Backs;
    var h := ParsePipe(ts);
    var p := PipeDerive(ts);
    var n := AmpsDerive(h.tree, h.rest);
    var us := Backs(h.tree, h.rest).rest;
    if Starts(us, Semi) {
      var r := LineDerive(us[1..]);
      l := Then(p, n, r);
      assert us == [Semi] + us[1..];
    } else {
      l := Last(p, n);
    }
  }

  // ---------------------------------------------------------------- the parser decides the grammar

  /** d derives the tokens of the input, and stands for t. */
  ghost predicate Derives(d: LineD, s: string, t: Tree<string>) {
    LineOk(d) && LineToks(d) == Lex(s) && LineTree(d) == t
  }

  /** parsecmd yields t if and only if the input has a derivation that stands for t. */
  lemma GrammarExact(s: string, t: Tree<string>)
    ensures ParseCmd(s) == Ok(t, []) <==> exists d :: Derives(d, s, t)
  {
    hide Lex, ParseLine, LineOk, LineToks, LineTree;
    if ParseCmd(s) == Ok(t, []) {
      var d := LineDerive(Lex(s));
      assert LineToks(d) + [] == LineToks(d);
      assert Derives(d, s, t);
    }
    if d :| Derives(d, s, t) {
      LineParse(d, []);
      assert LineToks(d) + [] == LineToks(d);
    }
  }

  /** So it fails exactly on the inputs without one, and an input never has two readings. */
  lemma OneReading(s: string, d: LineD, e: LineD, t: Tree<string>, u: Tree<string>)
    requires Derives(d, s, t) && Derives(e, s, u)
    ensures t == u
  {
    GrammarExact(s, t);
    GrammarExact(s, u);
  }
}
