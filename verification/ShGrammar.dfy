/** The shell's language, as a grammar over tokens, and that user/sh.c parses exactly it: with any white space between
    the tokens, parentheses wherever they may stand, and redirections between words. */
module ShGrammar {
  import opened Sh

  // ----- Tokens -----

  /** A word, a symbol, or >>. `Nothing` is the end of the line. */
  datatype Tok = W(text: string) | O(c: char) | Append | Nothing

  function TokOf(s: string, t: Token): Tok {
    match t.kind
    case Word => W(Text(s, Span(t.q, t.eq)))
    case Sym(c) => O(c)
    case Plus => Append
    case End => Nothing
  }

  function TokAt(s: string, i: nat): Tok
    requires i <= |s|
  {
    TokOf(s, GetToken(s, i))
  }

  /** From i on the line reads ts; the token after them is at j. */
  ghost predicate Reads(s: string, i: nat, ts: seq<Tok>, j: nat)
    requires i <= |s|
    decreases |ts|
  {
    if ts == [] then j == SkipSpace(s, i) else TokAt(s, i) == ts[0] && Reads(s, GetToken(s, i).next, ts[1..], j)
  }

  // ----- The grammar -----

  /** A redirection: < file, > file or >> file. */
  datatype R = R(mode: Mode, file: string)

  /** A word and the redirections after it. */
  datatype Item = Item(word: string, rs: seq<R>)

  /** Pipelines separated by ; each with any number of & after it. */
  datatype Line = Last(p: Pipes, amps: nat) | Then(p: Pipes, amps: nat, rest: Line)

  /** Units separated by | */
  datatype Pipes = One(u: Unit) | Piped(u: Unit, rest: Pipes)

  /** A line in parentheses, or words, with redirections. */
  datatype Unit = Block(l: Line, rs: seq<R>) | Words(rs: seq<R>, items: seq<Item>)

  function OpTok(m: Mode): Tok {
    match m case In => O('<') case Out => O('>') case OutAppend => Append
  }

  function RToks(rs: seq<R>): seq<Tok> {
    if rs == [] then [] else [OpTok(rs[0].mode), W(rs[0].file)] + RToks(rs[1..])
  }

  function ItemToks(items: seq<Item>): seq<Tok> {
    if items == [] then [] else [W(items[0].word)] + RToks(items[0].rs) + ItemToks(items[1..])
  }

  function Amps(n: nat): seq<Tok> {
    if n == 0 then [] else [O('&')] + Amps(n - 1)
  }

  function LineToks(l: Line): seq<Tok> {
    match l
    case Last(p, n) => PipeToks(p) + Amps(n)
    case Then(p, n, rest) => PipeToks(p) + Amps(n) + [O(';')] + LineToks(rest)
  }

  function PipeToks(p: Pipes): seq<Tok> {
    match p
    case One(u) => UnitToks(u)
    case Piped(u, rest) => UnitToks(u) + [O('|')] + PipeToks(rest)
  }

  function UnitToks(u: Unit): seq<Tok> {
    match u
    case Block(l, rs) => [O('(')] + LineToks(l) + [O(')')] + RToks(rs)
    case Words(rs, items) => RToks(rs) + ItemToks(items)
  }

  /** No command has MAXARGS words or more. */
  predicate ShortLine(l: Line) {
    match l
    case Last(p, _) => ShortPipes(p)
    case Then(p, _, rest) => ShortPipes(p) && ShortLine(rest)
  }

  predicate ShortPipes(p: Pipes) {
    match p
    case One(u) => ShortUnit(u)
    case Piped(u, rest) => ShortUnit(u) && ShortPipes(rest)
  }

  predicate ShortUnit(u: Unit) {
    match u
    case Block(l, _) => ShortLine(l)
    case Words(_, items) => |items| < MAXARGS
  }

  // ----- What a line means -----

  /** Redirections wrap outwards in the order in which they stand. */
  function Wrapped(c: Cmd<string>, rs: seq<R>): Cmd<string> {
    if rs == [] then c else Redir(Wrapped(c, rs[..|rs| - 1]), rs[|rs| - 1].file, rs[|rs| - 1].mode)
  }

  function AllWords(items: seq<Item>): seq<string> {
    if items == [] then [] else [items[0].word] + AllWords(items[1..])
  }

  function AllRs(items: seq<Item>): seq<R> {
    if items == [] then [] else items[0].rs + AllRs(items[1..])
  }

  function Backs(c: Cmd<string>, n: nat): Cmd<string>
    decreases n
  {
    if n == 0 then c else Backs(Back(c), n - 1)
  }

  function LineTree(l: Line): Cmd<string> {
    match l
    case Last(p, n) => Backs(PipeTree(p), n)
    case Then(p, n, rest) => List(Backs(PipeTree(p), n), LineTree(rest))
  }

  function PipeTree(p: Pipes): Cmd<string> {
    match p
    case One(u) => UnitTree(u)
    case Piped(u, rest) => Pipe(UnitTree(u), PipeTree(rest))
  }

  function UnitTree(u: Unit): Cmd<string> {
    match u
    case Block(l, rs) => Wrapped(LineTree(l), rs)
    case Words(rs, items) => Wrapped(Exec(AllWords(items)), rs + AllRs(items))
  }

  // ----- Reading -----

  lemma SkipTwice(s: string, i: nat)
    requires i <= |s|
    ensures SkipSpace(s, SkipSpace(s, i)) == SkipSpace(s, i)
  {
  }

  // White space before a token does not matter, and the cursor stands at a token after one.
  lemma TokenSkips(s: string, i: nat)
    requires i <= |s|
    ensures GetToken(s, SkipSpace(s, i)) == GetToken(s, i)
    ensures SkipSpace(s, GetToken(s, i).next) == GetToken(s, i).next
  {
    SkipTwice(s, i);
  }

  lemma {:induction false} ReadsEnd(s: string, i: nat, ts: seq<Tok>, j: nat)
    requires i <= |s| && Reads(s, i, ts, j)
    ensures i <= j <= |s| && SkipSpace(s, j) == j
    decreases |ts|
  {
    hide GetToken;
    if ts == [] {
      SkipTwice(s, i);
    } else {
      ReadsEnd(s, GetToken(s, i).next, ts[1..], j);
    }
  }

  lemma ReadsSkip(s: string, i: nat, ts: seq<Tok>, j: nat)
    requires i <= |s|
    ensures Reads(s, SkipSpace(s, i), ts, j) <==> Reads(s, i, ts, j)
  {
    SkipTwice(s, i);
    TokenSkips(s, i);
  }

  lemma {:induction false} ReadsSplit(s: string, i: nat, a: seq<Tok>, b: seq<Tok>, j: nat) returns (k: nat)
    requires i <= |s| && Reads(s, i, a + b, j)
    ensures k <= |s| && Reads(s, i, a, k) && Reads(s, k, b, j) && SkipSpace(s, k) == k
    decreases |a|
  {
    hide GetToken;
    if a == [] {
      assert a + b == b;
      k := SkipSpace(s, i);
      ReadsSkip(s, i, b, j);
      SkipTwice(s, i);
    } else {
      assert (a + b)[1..] == a[1..] + b;
      k := ReadsSplit(s, GetToken(s, i).next, a[1..], b, j);
    }
  }

  lemma {:induction false} ReadsJoin(s: string, i: nat, a: seq<Tok>, k: nat, b: seq<Tok>, j: nat)
    requires i <= |s| && Reads(s, i, a, k) && k <= |s| && Reads(s, k, b, j)
    ensures Reads(s, i, a + b, j)
    decreases |a|
  {
    hide GetToken;
    if a == [] {
      assert a + b == b;
      ReadsSkip(s, i, b, j);
    } else {
      assert (a + b)[1..] == a[1..] + b;
      ReadsJoin(s, GetToken(s, i).next, a[1..], k, b, j);
    }
  }

  lemma ReadsOne(s: string, i: nat, t: Tok)
    requires i <= |s| && TokAt(s, i) == t
    ensures Reads(s, i, [t], GetToken(s, i).next)
  {
    TokenSkips(s, i);
    assert [t][1..] == [];
  }

  lemma ReadsFirst(s: string, i: nat, t: Tok, j: nat)
    requires i <= |s| && Reads(s, i, [t], j)
    ensures TokAt(s, i) == t && j == GetToken(s, i).next
  {
    TokenSkips(s, i);
    assert [t][1..] == [];
  }

  /** What peek sees of the next token. */
  lemma PeekIs(s: string, i: nat)
    requires i <= |s|
    ensures Peek(s, i, "<>") <==> TokAt(s, i) in {O('<'), O('>'), Append}
    ensures Peek(s, i, "(") <==> TokAt(s, i) == O('(')
    ensures Peek(s, i, ")") <==> TokAt(s, i) == O(')')
    ensures Peek(s, i, "|") <==> TokAt(s, i) == O('|')
    ensures Peek(s, i, "&") <==> TokAt(s, i) == O('&')
    ensures Peek(s, i, ";") <==> TokAt(s, i) == O(';')
    ensures Peek(s, i, "|)&;") <==> TokAt(s, i) in {O('|'), O(')'), O('&'), O(';')}
  {
    hide SkipSpace, WordEnd;
  }

  /** What may follow a unit, a pipeline, a line. */
  predicate AfterUnit(t: Tok) {
    t == Nothing || t == O('|') || t == O(')') || t == O('&') || t == O(';')
  }

  predicate AfterPipes(t: Tok) {
    AfterUnit(t) && t != O('|')
  }

  predicate AfterLine(t: Tok) {
    t == Nothing || t == O(')')
  }

  // ----- Redirections -----

  function RTexts(s: string, rs: seq<Redirection>): (r: seq<R>)
    ensures |r| == |rs|
  {
    seq(|rs|, k requires 0 <= k < |rs| => R(rs[k].mode, Text(s, rs[k].file)))
  }

  lemma {:induction false} MeaningWrap(s: string, c: Cmd<Span>, rs: seq<Redirection>)
    ensures Meaning(s, Wrap(c, rs)) == Wrapped(Meaning(s, c), RTexts(s, rs))
    decreases |rs|
  {
    hide Text;
    if rs != [] {
      var m := |rs| - 1;
      MeaningWrap(s, c, rs[..m]);
      assert RTexts(s, rs)[..m] == RTexts(s, rs[..m]);
    }
  }

  lemma RToksMore(r: R, rs: seq<R>)
    ensures RToks([r] + rs) == [OpTok(r.mode)] + ([W(r.file)] + RToks(rs))
  {
    assert ([r] + rs)[1..] == rs;
  }

  // A turn of parseredirs' loop, by tokens.
  lemma RedirTurn(s: string, i: nat)
    requires i <= |s| && Peek(s, i, "<>")
    ensures var op := GetToken(s, i);
            var w := GetToken(s, op.next);
            var rest := ParseRedirs(s, w.next);
            ParseRedirs(s, i) ==
            if w.kind != Word || rest.Panic? then Panic
            else Ok([Redirection(Span(w.q, w.eq), ModeOf(op.kind))] + rest.value, rest.next)
  {
    TokenSkips(s, i);
    hide GetToken, SkipSpace;
  }

  lemma OpIs(s: string, i: nat, m: Mode)
    requires i <= |s| && TokAt(s, i) == OpTok(m)
    ensures Peek(s, i, "<>") && ModeOf(GetToken(s, i).kind) == m
  {
    hide GetToken;
    PeekIs(s, i);
  }

  lemma {:induction false} RedirsRead(s: string, i: nat, rs: seq<R>, j: nat)
    requires i <= |s| && Reads(s, i, RToks(rs), j) && j <= |s| && !Peek(s, j, "<>")
    ensures ParseRedirs(s, i).Ok? && ParseRedirs(s, i).next == j && RTexts(s, ParseRedirs(s, i).value) == rs
    decreases |rs|
  {
    hide GetToken, Text;
    if rs == [] {
      SkipTwice(s, i);
    } else {
      hide ParseRedirs, Peek, SkipSpace;
      var r := rs[0];
      RToksMore(r, rs[1..]);
      assert rs == [r] + rs[1..];
      var k := ReadsSplit(s, i, [OpTok(r.mode)], [W(r.file)] + RToks(rs[1..]), j);
      ReadsFirst(s, i, OpTok(r.mode), k);
      var l := ReadsSplit(s, k, [W(r.file)], RToks(rs[1..]), j);
      ReadsFirst(s, k, W(r.file), l);
      OpIs(s, i, r.mode);
      RedirTurn(s, i);
      RedirsRead(s, l, rs[1..], j);
      RTextsMore(s, Redirection(Span(GetToken(s, k).q, GetToken(s, k).eq), r.mode), ParseRedirs(s, l).value);
    }
  }

  lemma RTextsMore(s: string, r: Redirection, rs: seq<Redirection>)
    ensures RTexts(s, [r] + rs) == [R(r.mode, Text(s, r.file))] + RTexts(s, rs)
  {
  }

  lemma {:induction false} RedirsSound(s: string, i: nat) returns (rs: seq<R>)
    requires i <= |s| && ParseRedirs(s, i).Ok?
    ensures var r := ParseRedirs(s, i);
            Reads(s, i, RToks(rs), r.next) && !Peek(s, r.next, "<>") && RTexts(s, r.value) == rs
    decreases |s| - i
  {
    hide GetToken, Text;
    if !Peek(s, i, "<>") {
      rs := [];
      SkipTwice(s, i);
    } else {
      PeekIs(s, i);
      RedirTurn(s, i);
      hide ParseRedirs, Peek, SkipSpace;
      var op := GetToken(s, i);
      var w := GetToken(s, op.next);
      var m := ModeOf(op.kind);
      var more := RedirsSound(s, w.next);
      var r := R(m, Text(s, Span(w.q, w.eq)));
      rs := [r] + more;
      OpBack(s, i);
      ReadsOne(s, op.next, W(r.file));
      ReadsJoin(s, op.next, [W(r.file)], w.next, RToks(more), ParseRedirs(s, w.next).next);
      ReadsOne(s, i, OpTok(m));
      ReadsJoin(s, i, [OpTok(m)], op.next, [W(r.file)] + RToks(more), ParseRedirs(s, w.next).next);
      RToksMore(r, more);
      RTextsMore(s, Redirection(Span(w.q, w.eq), m), ParseRedirs(s, w.next).value);
    }
  }

  lemma OpBack(s: string, i: nat)
    requires i <= |s| && Peek(s, i, "<>")
    ensures TokAt(s, i) == OpTok(ModeOf(GetToken(s, i).kind))
  {
    hide GetToken;
    PeekIs(s, i);
  }

  // ----- Words -----

  function WTexts(s: string, ws: seq<Span>): (r: seq<string>)
    ensures |r| == |ws|
  {
    seq(|ws|, k requires 0 <= k < |ws| => Text(s, ws[k]))
  }

  lemma WTextsMore(s: string, w: Span, ws: seq<Span>)
    ensures WTexts(s, [w] + ws) == [Text(s, w)] + WTexts(s, ws)
  {
  }

  lemma RTextsJoin(s: string, a: seq<Redirection>, b: seq<Redirection>)
    ensures RTexts(s, a + b) == RTexts(s, a) + RTexts(s, b)
  {
  }

  lemma ArgsTurn(s: string, i: nat, argc: nat)
    requires i <= |s| && GetToken(s, i).kind == Word && argc + 1 < MAXARGS
    ensures var w := GetToken(s, i);
            var rs := ParseRedirs(s, w.next);
            ParseArgs(s, i, argc) ==
            if rs.Panic? then Panic
            else
              var rest := ParseArgs(s, rs.next, argc + 1);
              if rest.Panic? then Panic
              else Ok(Simple([Span(w.q, w.eq)] + rest.value.argv, rs.value + rest.value.redirs), rest.next)
  {
    TokenSkips(s, i);
    PeekIs(s, i);
    hide GetToken, SkipSpace, ParseRedirs, Peek;
  }

  lemma ArgsStop(s: string, i: nat, argc: nat)
    requires i <= |s| && AfterUnit(TokAt(s, i))
    ensures ParseArgs(s, i, argc) == Ok(Simple([], []), SkipSpace(s, i))
  {
    TokenSkips(s, i);
    PeekIs(s, i);
    EndIs(s, i);
    hide GetToken, SkipSpace, ParseRedirs, Peek;
  }

  lemma EndIs(s: string, i: nat)
    requires i <= |s|
    ensures TokAt(s, i) == Nothing <==> SkipSpace(s, i) == |s|
    ensures TokAt(s, i) == Nothing ==> GetToken(s, i).next == |s|
  {
  }

  lemma ItemToksMore(it: Item, items: seq<Item>)
    ensures ItemToks([it] + items) == [W(it.word)] + (RToks(it.rs) + ItemToks(items))
    ensures AllWords([it] + items) == [it.word] + AllWords(items) && AllRs([it] + items) == it.rs + AllRs(items)
  {
    assert ([it] + items)[1..] == items;
  }

  // What follows the redirections of a word is another word or the end of the unit.
  lemma NextItem(s: string, i: nat, items: seq<Item>, j: nat)
    requires i <= |s| && Reads(s, i, ItemToks(items), j) && j <= |s| && AfterUnit(TokAt(s, j))
    ensures !Peek(s, i, "<>") && !Peek(s, i, "(")
  {
    PeekIs(s, i);
    TokenSkips(s, i);
  }

  lemma {:induction false} ArgsRead(s: string, i: nat, items: seq<Item>, argc: nat, j: nat)
    requires i <= |s| && Reads(s, i, ItemToks(items), j) && j <= |s| && AfterUnit(TokAt(s, j))
    requires argc + |items| < MAXARGS
    ensures var r := ParseArgs(s, i, argc);
            && r.Ok? && r.next == j
            && WTexts(s, r.value.argv) == AllWords(items) && RTexts(s, r.value.redirs) == AllRs(items)
    decreases |items|
  {
    hide GetToken, Text, SkipSpace, ParseRedirs, Peek, ParseArgs;
    if items == [] {
      TokenSkips(s, i);
      ArgsStop(s, i, argc);
    } else {
      var it := items[0];
      assert items == [it] + items[1..];
      ItemToksMore(it, items[1..]);
      var k := ReadsSplit(s, i, [W(it.word)], RToks(it.rs) + ItemToks(items[1..]), j);
      ReadsFirst(s, i, W(it.word), k);
      var l := ReadsSplit(s, k, RToks(it.rs), ItemToks(items[1..]), j);
      NextItem(s, l, items[1..], j);
      RedirsRead(s, k, it.rs, l);
      ArgsRead(s, l, items[1..], argc + 1, j);
      ArgsTurn(s, i, argc);
      var w := GetToken(s, i);
      WTextsMore(s, Span(w.q, w.eq), ParseArgs(s, l, argc + 1).value.argv);
      RTextsJoin(s, ParseRedirs(s, k).value, ParseArgs(s, l, argc + 1).value.redirs);
    }
  }

  lemma {:induction false} ArgsSound(s: string, i: nat, argc: nat) returns (items: seq<Item>)
    requires i <= |s| && ParseArgs(s, i, argc).Ok?
    ensures var r := ParseArgs(s, i, argc);
            && Reads(s, i, ItemToks(items), r.next) && AfterUnit(TokAt(s, r.next))
            && (items != [] ==> argc + |items| < MAXARGS)
            && WTexts(s, r.value.argv) == AllWords(items) && RTexts(s, r.value.redirs) == AllRs(items)
    decreases |s| - i
  {
    hide Text;
    PeekIs(s, i);
    EndIs(s, i);
    if AfterUnit(TokAt(s, i)) {
      items := [];
      ArgsStop(s, i, argc);
      TokenSkips(s, i);
      SkipTwice(s, i);
    } else {
      ArgsWord(s, i, argc);
      hide GetToken, SkipSpace, ParseRedirs, Peek, ParseArgs;
      ArgsTurn(s, i, argc);
      var w := GetToken(s, i);
      var rs := RedirsSound(s, w.next);
      var k := ParseRedirs(s, w.next).next;
      var more := ArgsSound(s, k, argc + 1);
      var j := ParseArgs(s, k, argc + 1).next;
      var it := Item(Text(s, Span(w.q, w.eq)), rs);
      items := [it] + more;
      ItemToksMore(it, more);
      ReadsJoin(s, w.next, RToks(rs), k, ItemToks(more), j);
      ReadsOne(s, i, W(it.word));
      ReadsJoin(s, i, [W(it.word)], w.next, RToks(rs) + ItemToks(more), j);
      WTextsMore(s, Span(w.q, w.eq), ParseArgs(s, k, argc + 1).value.argv);
      RTextsJoin(s, ParseRedirs(s, w.next).value, ParseArgs(s, k, argc + 1).value.redirs);
    }
  }

  lemma ArgsWord(s: string, i: nat, argc: nat)
    requires i <= |s| && ParseArgs(s, i, argc).Ok? && !AfterUnit(TokAt(s, i))
    ensures GetToken(s, i).kind == Word && argc + 1 < MAXARGS
  {
    TokenSkips(s, i);
    PeekIs(s, i);
    hide GetToken, SkipSpace, ParseRedirs, Peek;
  }

  // ----- Units, pipelines, lines: the parser's steps by tokens -----

  lemma ExecWords(s: string, i: nat)
    requires i <= |s| && !Peek(s, i, "(")
    ensures var rs := ParseRedirs(s, i);
            ParseExec(s, i) ==
            if rs.Panic? then Panic
            else
              var args := ParseArgs(s, rs.next, 0);
              if args.Panic? then Panic else Ok(Wrap(Exec(args.value.argv), rs.value + args.value.redirs), args.next)
  {
    RedirsSkip(s, i);
    hide GetToken, SkipSpace, ParseRedirs, Peek, ParseArgs, Wrap;
  }

  lemma RedirsSkip(s: string, i: nat)
    requires i <= |s|
    ensures ParseRedirs(s, SkipSpace(s, i)) == ParseRedirs(s, i)
  {
    SkipTwice(s, i);
  }

  lemma ExecBlock(s: string, i: nat)
    requires i <= |s| && TokAt(s, i) == O('(')
    ensures var c := ParseLine(s, GetToken(s, i).next);
            ParseExec(s, i) ==
            if c.Panic? || TokAt(s, c.next) != O(')') then Panic
            else
              var rs := ParseRedirs(s, GetToken(s, c.next).next);
              if rs.Panic? then Panic else Ok(Wrap(c.value, rs.value), rs.next)
  {
    PeekIs(s, i);
    TokenSkips(s, i);
    SkipTwice(s, i);
    PeekSkip(s, i, "(");
    var c := ParseLine(s, GetToken(s, i).next);
    if c.Ok? {
      PeekIs(s, c.next);
      TokenSkips(s, c.next);
    }
    hide GetToken, SkipSpace, ParseRedirs, Peek, ParseLine, Wrap;
  }

  lemma PeekSkip(s: string, i: nat, toks: string)
    requires i <= |s|
    ensures Peek(s, SkipSpace(s, i), toks) == Peek(s, i, toks)
  {
    SkipTwice(s, i);
  }

  lemma PipeTurn(s: string, i: nat)
    requires i <= |s|
    ensures var left := ParseExec(s, i);
            ParsePipe(s, i) ==
            if left.Panic? then Panic
            else if TokAt(s, left.next) != O('|') then Ok(left.value, SkipSpace(s, left.next))
            else
              var right := ParsePipe(s, GetToken(s, left.next).next);
              if right.Panic? then Panic else Ok(Pipe(left.value, right.value), right.next)
  {
    var left := ParseExec(s, i);
    if left.Ok? {
      PeekIs(s, left.next);
      TokenSkips(s, left.next);
    }
    hide GetToken, SkipSpace, Peek, ParseExec;
  }

  lemma LineTurn(s: string, i: nat)
    requires i <= |s|
    ensures var first := ParsePipe(s, i);
            ParseLine(s, i) ==
            if first.Panic? then Panic
            else
              var c := ParseBacks(s, first.next, first.value);
              if TokAt(s, c.next) != O(';') then Ok(c.value, SkipSpace(s, c.next))
              else
                var rest := ParseLine(s, GetToken(s, c.next).next);
                if rest.Panic? then Panic else Ok(List(c.value, rest.value), rest.next)
  {
    var first := ParsePipe(s, i);
    if first.Ok? {
      var c := ParseBacks(s, first.next, first.value);
      PeekIs(s, c.next);
      TokenSkips(s, c.next);
    }
    hide GetToken, SkipSpace, Peek, ParsePipe, ParseBacks;
  }

  lemma BacksTurn(s: string, i: nat, c: Cmd<Span>)
    requires i <= |s|
    ensures ParseBacks(s, i, c) ==
            if TokAt(s, i) == O('&') then ParseBacks(s, GetToken(s, i).next, Back(c)) else Ok(c, SkipSpace(s, i))
  {
    PeekIs(s, i);
    TokenSkips(s, i);
    hide GetToken, SkipSpace, Peek;
  }

  // ----- The parser accepts the language -----

  lemma {:induction false} BacksRead(s: string, i: nat, n: nat, j: nat, c: Cmd<Span>)
    requires i <= |s| && Reads(s, i, Amps(n), j) && j <= |s| && TokAt(s, j) != O('&')
    ensures var r := ParseBacks(s, i, c); r.next == j && Meaning(s, r.value) == Backs(Meaning(s, c), n)
    decreases n
  {
    hide GetToken, SkipSpace, ParseBacks;
    BacksTurn(s, i, c);
    if n == 0 {
      TokenSkips(s, i);
    } else {
      var k := ReadsSplit(s, i, [O('&')], Amps(n - 1), j);
      ReadsFirst(s, i, O('&'), k);
      BacksRead(s, k, n - 1, j, Back(c));
    }
  }

  lemma MeaningExec(s: string, ws: seq<Span>)
    ensures Meaning(s, Exec(ws)) == Exec(WTexts(s, ws))
  {
    hide Text;
  }

  lemma WordsRead(s: string, i: nat, rs: seq<R>, items: seq<Item>, j: nat)
    requires i <= |s| && Reads(s, i, RToks(rs) + ItemToks(items), j) && j <= |s| && AfterUnit(TokAt(s, j))
    requires |items| < MAXARGS
    ensures var r := ParseExec(s, i); r.Ok? && r.next == j && Meaning(s, r.value) == UnitTree(Unit.Words(rs, items))
  {
    hide GetToken, SkipSpace, ParseRedirs, ParseArgs, ParseExec, Peek, Wrap, Meaning, Wrapped, Text;
    var k := ReadsSplit(s, i, RToks(rs), ItemToks(items), j);
    NextItem(s, k, items, j);
    RedirsRead(s, i, rs, k);
    ArgsRead(s, k, items, 0, j);
    NoParen(s, i, rs, k);
    ExecWords(s, i);
    var a, b := ParseRedirs(s, i).value, ParseArgs(s, k, 0).value;
    RTextsJoin(s, a, b.redirs);
    MeaningWrap(s, Exec(b.argv), a + b.redirs);
    MeaningExec(s, b.argv);
  }

  lemma NoParen(s: string, i: nat, rs: seq<R>, k: nat)
    requires i <= |s| && Reads(s, i, RToks(rs), k) && k <= |s| && !Peek(s, k, "(")
    ensures !Peek(s, i, "(")
  {
    hide GetToken;
    PeekIs(s, i);
    if rs == [] {
      PeekSkip(s, i, "(");
    } else {
      hide Peek, SkipSpace;
      RToksMore(rs[0], rs[1..]);
      assert rs == [rs[0]] + rs[1..];
      assert TokAt(s, i) == OpTok(rs[0].mode);
    }
  }

  lemma {:induction false} UnitRead(s: string, i: nat, u: Unit, j: nat)
    requires i <= |s| && Reads(s, i, UnitToks(u), j) && j <= |s| && AfterUnit(TokAt(s, j)) && ShortUnit(u)
    ensures var r := ParseExec(s, i); r.Ok? && r.next == j && Meaning(s, r.value) == UnitTree(u)
    decreases u
  {
    match u
    case Words(rs, items) => WordsRead(s, i, rs, items, j);
    case Block(l, rs) =>
      hide GetToken, SkipSpace, ParseRedirs, ParseLine, ParseExec, Wrap, Meaning, Wrapped, Text;
      assert UnitToks(u) == [O('(')] + (LineToks(l) + ([O(')')] + RToks(rs)));
      var a := ReadsSplit(s, i, [O('(')], LineToks(l) + ([O(')')] + RToks(rs)), j);
      ReadsFirst(s, i, O('('), a);
      var b := ReadsSplit(s, a, LineToks(l), [O(')')] + RToks(rs), j);
      var c := ReadsSplit(s, b, [O(')')], RToks(rs), j);
      ReadsFirst(s, b, O(')'), c);
      LineRead(s, a, l, b);
      PeekIs(s, j);
      hide Peek;
      RedirsRead(s, c, rs, j);
      ExecBlock(s, i);
      MeaningWrap(s, ParseLine(s, a).value, ParseRedirs(s, c).value);
  }

  lemma {:induction false} PipesRead(s: string, i: nat, p: Pipes, j: nat)
    requires i <= |s| && Reads(s, i, PipeToks(p), j) && j <= |s| && AfterPipes(TokAt(s, j)) && ShortPipes(p)
    ensures var r := ParsePipe(s, i); r.Ok? && r.next == j && Meaning(s, r.value) == PipeTree(p)
    decreases p
  {
    hide GetToken, SkipSpace, ParseExec, ParsePipe;
    PipeTurn(s, i);
    match p
    case One(u) =>
      UnitRead(s, i, u, j);
      ReadsEnd(s, i, UnitToks(u), j);
    case Piped(u, rest) =>
      assert PipeToks(p) == UnitToks(u) + ([O('|')] + PipeToks(rest));
      var a := ReadsSplit(s, i, UnitToks(u), [O('|')] + PipeToks(rest), j);
      var b := ReadsSplit(s, a, [O('|')], PipeToks(rest), j);
      ReadsFirst(s, a, O('|'), b);
      UnitRead(s, i, u, a);
      PipesRead(s, b, rest, j);
  }

  lemma {:induction false} LineRead(s: string, i: nat, l: Line, j: nat)
    requires i <= |s| && Reads(s, i, LineToks(l), j) && j <= |s| && AfterLine(TokAt(s, j)) && ShortLine(l)
    ensures var r := ParseLine(s, i); r.Ok? && r.next == j && Meaning(s, r.value) == LineTree(l)
    decreases l
  {
    hide GetToken, SkipSpace, ParsePipe, ParseLine, ParseBacks;
    LineTurn(s, i);
    match l
    case Last(p, n) =>
      var a := ReadsSplit(s, i, PipeToks(p), Amps(n), j);
      AmpsNext(s, a, n, j);
      PipesRead(s, i, p, a);
      BacksRead(s, a, n, j, ParsePipe(s, i).value);
      ReadsEnd(s, i, LineToks(l), j);
    case Then(p, n, rest) =>
      assert LineToks(l) == PipeToks(p) + (Amps(n) + ([O(';')] + LineToks(rest)));
      var a := ReadsSplit(s, i, PipeToks(p), Amps(n) + ([O(';')] + LineToks(rest)), j);
      var b := ReadsSplit(s, a, Amps(n), [O(';')] + LineToks(rest), j);
      var c := ReadsSplit(s, b, [O(';')], LineToks(rest), j);
      ReadsFirst(s, b, O(';'), c);
      AmpsNext(s, a, n, b);
      PipesRead(s, i, p, a);
      BacksRead(s, a, n, b, ParsePipe(s, i).value);
      LineRead(s, c, rest, j);
  }

  // What follows a pipeline is an & or what follows the &s.
  lemma AmpsNext(s: string, i: nat, n: nat, j: nat)
    requires i <= |s| && Reads(s, i, Amps(n), j) && j <= |s| && AfterPipes(TokAt(s, j))
    ensures AfterPipes(TokAt(s, i))
  {
    TokenSkips(s, i);
    hide GetToken, SkipSpace;
  }

  /** Completeness: a line that reads as the tokens of a sentence, whatever the white space, is parsed to the tree the
      sentence means, and nothing is left over. */
  lemma Accepts(s: string, l: Line)
    requires Reads(s, 0, LineToks(l), |s|) && ShortLine(l)
    ensures ParseCmd(s).Ok? && Meaning(s, ParseCmd(s).value) == LineTree(l)
  {
    hide GetToken, ParseLine;
    EndIs(s, |s|);
    LineRead(s, 0, l, |s|);
  }

  // ----- It accepts nothing else -----

  lemma {:induction false} BacksSound(s: string, i: nat, c: Cmd<Span>) returns (n: nat)
    requires i <= |s|
    ensures var r := ParseBacks(s, i, c);
            Reads(s, i, Amps(n), r.next) && TokAt(s, r.next) != O('&') && Meaning(s, r.value) == Backs(Meaning(s, c), n)
    decreases |s| - i
  {
    hide GetToken, SkipSpace, ParseBacks;
    BacksTurn(s, i, c);
    TokenSkips(s, i);
    if TokAt(s, i) == O('&') {
      ReadsOne(s, i, O('&'));
      var k := GetToken(s, i).next;
      var m := BacksSound(s, k, Back(c));
      ReadsJoin(s, i, [O('&')], k, Amps(m), ParseBacks(s, k, Back(c)).next);
      n := m + 1;
    } else {
      n := 0;
    }
  }

  lemma WordsSound(s: string, i: nat) returns (u: Unit)
    requires i <= |s| && ParseExec(s, i).Ok? && !Peek(s, i, "(")
    ensures var r := ParseExec(s, i);
            Reads(s, i, UnitToks(u), r.next) && ShortUnit(u) && Meaning(s, r.value) == UnitTree(u)
  {
    hide GetToken, SkipSpace, ParseRedirs, ParseLine, ParseExec, ParseArgs, Wrap, Meaning, Wrapped, Text, Peek;
    ExecWords(s, i);
    var rs := RedirsSound(s, i);
    var k := ParseRedirs(s, i).next;
    var items := ArgsSound(s, k, 0);
    u := Unit.Words(rs, items);
    ReadsJoin(s, i, RToks(rs), k, ItemToks(items), ParseExec(s, i).next);
    var x, y := ParseRedirs(s, i).value, ParseArgs(s, k, 0).value;
    RTextsJoin(s, x, y.redirs);
    MeaningWrap(s, Exec(y.argv), x + y.redirs);
    MeaningExec(s, y.argv);
  }

  lemma BlockReads(s: string, i: nat, a: nat, l: Line, b: nat, c: nat, rs: seq<R>, end: nat)
    requires i <= |s| && TokAt(s, i) == O('(') && a == GetToken(s, i).next && Reads(s, a, LineToks(l), b) && b <= |s|
    requires TokAt(s, b) == O(')') && c == GetToken(s, b).next && Reads(s, c, RToks(rs), end)
    ensures Reads(s, i, UnitToks(Block(l, rs)), end)
  {
    hide GetToken, SkipSpace, Reads;
    ReadsOne(s, b, O(')'));
    ReadsJoin(s, b, [O(')')], c, RToks(rs), end);
    ReadsJoin(s, a, LineToks(l), b, [O(')')] + RToks(rs), end);
    ReadsOne(s, i, O('('));
    ReadsJoin(s, i, [O('(')], a, LineToks(l) + ([O(')')] + RToks(rs)), end);
    assert UnitToks(Block(l, rs)) == [O('(')] + (LineToks(l) + ([O(')')] + RToks(rs)));
  }

  lemma {:induction false} UnitSound(s: string, i: nat) returns (u: Unit)
    requires i <= |s| && ParseExec(s, i).Ok?
    ensures var r := ParseExec(s, i);
            Reads(s, i, UnitToks(u), r.next) && ShortUnit(u) && Meaning(s, r.value) == UnitTree(u)
    decreases |s| - i, 1
  {
    hide GetToken, SkipSpace, ParseRedirs, ParseLine, ParseExec, Wrap, Meaning, Wrapped, Text, Reads, Peek;
    PeekIs(s, i);
    if !Peek(s, i, "(") {
      u := WordsSound(s, i);
    } else {
      ExecBlock(s, i);
      Shrinks(s, i);
      var a := GetToken(s, i).next;
      var l := LineSound(s, a);
      var b := ParseLine(s, a).next;
      var c := GetToken(s, b).next;
      var rs := RedirsSound(s, c);
      u := Block(l, rs);
      BlockReads(s, i, a, l, b, c, rs, ParseExec(s, i).next);
      MeaningWrap(s, ParseLine(s, a).value, ParseRedirs(s, c).value);
    }
  }

  lemma Shrinks(s: string, i: nat)
    requires i <= |s| && TokAt(s, i) != Nothing
    ensures i < GetToken(s, i).next <= |s|
  {
  }

  lemma {:induction false} PipesSound(s: string, i: nat) returns (p: Pipes)
    requires i <= |s| && ParsePipe(s, i).Ok?
    ensures var r := ParsePipe(s, i);
            Reads(s, i, PipeToks(p), r.next) && ShortPipes(p) && Meaning(s, r.value) == PipeTree(p)
    decreases |s| - i, 2
  {
    hide GetToken, SkipSpace, ParseExec, ParsePipe;
    PipeTurn(s, i);
    var u := UnitSound(s, i);
    var a := ParseExec(s, i).next;
    ReadsEnd(s, i, UnitToks(u), a);
    if TokAt(s, a) == O('|') {
      Shrinks(s, a);
      var b := GetToken(s, a).next;
      var rest := PipesSound(s, b);
      p := Piped(u, rest);
      ReadsOne(s, a, O('|'));
      ReadsJoin(s, a, [O('|')], b, PipeToks(rest), ParsePipe(s, b).next);
      ReadsJoin(s, i, UnitToks(u), a, [O('|')] + PipeToks(rest), ParsePipe(s, b).next);
      assert PipeToks(p) == UnitToks(u) + ([O('|')] + PipeToks(rest));
    } else {
      p := One(u);
    }
  }

  lemma {:induction false} LineSound(s: string, i: nat) returns (l: Line)
    requires i <= |s| && ParseLine(s, i).Ok?
    ensures var r := ParseLine(s, i);
            Reads(s, i, LineToks(l), r.next) && ShortLine(l) && Meaning(s, r.value) == LineTree(l)
    decreases |s| - i, 3
  {
    hide GetToken, SkipSpace, ParsePipe, ParseLine, ParseBacks;
    LineTurn(s, i);
    var p := PipesSound(s, i);
    var a := ParsePipe(s, i).next;
    var n := BacksSound(s, a, ParsePipe(s, i).value);
    var b := ParseBacks(s, a, ParsePipe(s, i).value).next;
    ReadsJoin(s, i, PipeToks(p), a, Amps(n), b);
    ReadsEnd(s, i, PipeToks(p) + Amps(n), b);
    if TokAt(s, b) == O(';') {
      Shrinks(s, b);
      var c := GetToken(s, b).next;
      var rest := LineSound(s, c);
      l := Then(p, n, rest);
      ReadsOne(s, b, O(';'));
      ReadsJoin(s, b, [O(';')], c, LineToks(rest), ParseLine(s, c).next);
      ReadsJoin(s, i, PipeToks(p) + Amps(n), b, [O(';')] + LineToks(rest), ParseLine(s, c).next);
      assert LineToks(l) == PipeToks(p) + Amps(n) + ([O(';')] + LineToks(rest));
    } else {
      l := Last(p, n);
    }
  }

  /** Soundness: what the parser accepts reads as a sentence, and its tree is what the sentence means. */
  lemma OnlyAccepts(s: string) returns (l: Line)
    requires ParseCmd(s).Ok?
    ensures Reads(s, 0, LineToks(l), |s|) && ShortLine(l) && Meaning(s, ParseCmd(s).value) == LineTree(l)
  {
    hide GetToken, ParseLine;
    l := LineSound(s, 0);
    ReadsEnd(s, 0, LineToks(l), ParseLine(s, 0).next);
  }

  /** parsecmd succeeds exactly on the lines of the language. */
  lemma ParsesIff(s: string)
    ensures ParseCmd(s).Ok? <==> exists l :: Reads(s, 0, LineToks(l), |s|) && ShortLine(l)
  {
    hide GetToken, ParseLine, ParseCmd, Reads, Meaning;
    if ParseCmd(s).Ok? {
      var l := OnlyAccepts(s);
    } else if exists l :: Reads(s, 0, LineToks(l), |s|) && ShortLine(l) {
      var l :| Reads(s, 0, LineToks(l), |s|) && ShortLine(l);
      Accepts(s, l);
    }
  }

  // ----- Writing a tree down with few parentheses -----

  /** The redirections around a command, and what is inside them. */
  function Inside(c: Cmd<string>): Cmd<string> {
    if c.Redir? then Inside(c.cmd) else c
  }

  function Around(c: Cmd<string>): seq<R> {
    if c.Redir? then Around(c.cmd) + [R(c.mode, c.file)] else []
  }

  /** The &s after a command, and what is before them. */
  function Front(c: Cmd<string>): Cmd<string> {
    if c.Back? then Front(c.cmd) else c
  }

  function AmpsAfter(c: Cmd<string>): nat {
    if c.Back? then AmpsAfter(c.cmd) + 1 else 0
  }

  function Plain(ws: seq<string>): (r: seq<Item>)
    ensures |r| == |ws|
  {
    seq(|ws|, k requires 0 <= k < |ws| => Item(ws[k], []))
  }

  function Size(c: Cmd<string>): nat {
    match c
    case Exec(_) => 1
    case Redir(d, _, _) => Size(d) + 1
    case Pipe(l, r) => Size(l) + Size(r) + 1
    case List(l, r) => Size(l) + Size(r) + 1
    case Back(d) => Size(d) + 1
  }

  lemma FrontSize(c: Cmd<string>)
    ensures Size(Front(c)) <= Size(c) && (c.Back? ==> Size(Front(c)) < Size(c)) && !Front(c).Back?
  {
  }

  lemma InsideSize(c: Cmd<string>)
    ensures Size(Inside(c)) <= Size(c) && (c.Redir? ==> Size(Inside(c)) < Size(c)) && !Inside(c).Redir?
  {
  }

  /** `a | b | c`, `a ; b` and `a &` without parentheses, which go around what could not stand there otherwise. */
  function AsLine(c: Cmd<string>): Line
    decreases Size(c), 4
  {
    if c.List? then
      FrontSize(c.left);
      Then(AsPipes(Front(c.left)), AmpsAfter(c.left), AsLine(c.right))
    else
      FrontSize(c);
      Last(AsPipes(Front(c)), AmpsAfter(c))
  }

  function AsPipes(c: Cmd<string>): Pipes
    decreases Size(c), if c.Pipe? || c.Exec? || c.Redir? then 3 else 6
  {
    if c.Pipe? then Piped(AsUnit(c.left), AsPipes(c.right)) else One(AsUnit(c))
  }

  function AsUnit(c: Cmd<string>): Unit
    decreases Size(c), if c.Exec? || c.Redir? then 0 else 5
  {
    InsideSize(c);
    var d := Inside(c);
    if d.Exec? && d.argv == [] then Unit.Words(Around(c), [])
    else if d.Exec? then
      var n := |d.argv| - 1;
      Unit.Words([], Plain(d.argv[..n]) + [Item(d.argv[n], Around(c))])
    else Block(AsLine(d), Around(c))
  }

  lemma {:induction false} AroundInside(c: Cmd<string>)
    ensures Wrapped(Inside(c), Around(c)) == c
  {
    if c.Redir? {
      AroundInside(c.cmd);
      assert Around(c)[..|Around(c)| - 1] == Around(c.cmd);
    }
  }

  lemma {:induction false} FrontBacks(c: Cmd<string>, n: nat)
    ensures Backs(Front(c), AmpsAfter(c) + n) == Backs(c, n)
    decreases c
  {
    if c.Back? {
      FrontBacks(c.cmd, n + 1);
    }
  }

  lemma {:induction false} PlainAre(ws: seq<string>, last: Item)
    ensures AllWords(Plain(ws) + [last]) == ws + [last.word] && AllRs(Plain(ws) + [last]) == last.rs
    decreases |ws|
  {
    if ws == [] {
      assert [last][1..] == [];
      assert Plain(ws) + [last] == [last];
      assert last.rs + [] == last.rs;
    } else {
      PlainAre(ws[1..], last);
      var items := Plain(ws) + [last];
      assert items[1..] == Plain(ws[1..]) + [last];
      assert items[0] == Item(ws[0], []);
    }
  }

  lemma {:induction false} UnitMeans(c: Cmd<string>)
    ensures UnitTree(AsUnit(c)) == c
    decreases Size(c), if c.Exec? || c.Redir? then 0 else 5
  {
    AroundInside(c);
    InsideSize(c);
    var d := Inside(c);
    if d.Exec? && d.argv == [] {
      assert Around(c) + [] == Around(c);
    } else if d.Exec? {
      var n := |d.argv| - 1;
      PlainAre(d.argv[..n], Item(d.argv[n], Around(c)));
      assert d.argv[..n] + [d.argv[n]] == d.argv;
      assert [] + Around(c) == Around(c);
    } else {
      LineMeans(d);
    }
  }

  lemma {:induction false} PipesMean(c: Cmd<string>)
    ensures PipeTree(AsPipes(c)) == c
    decreases Size(c), if c.Pipe? || c.Exec? || c.Redir? then 3 else 6
  {
    if c.Pipe? {
      UnitMeans(c.left);
      PipesMean(c.right);
    } else {
      UnitMeans(c);
    }
  }

  /** The sentence for a tree means that tree. */
  lemma {:induction false} LineMeans(c: Cmd<string>)
    ensures LineTree(AsLine(c)) == c
    decreases Size(c), 4
  {
    var l := if c.List? then c.left else c;
    FrontSize(l);
    PipesMean(Front(l));
    FrontBacks(l, 0);
    if c.List? {
      LineMeans(c.right);
    }
  }

  lemma {:induction false} LegalInside(c: Cmd<string>)
    requires Legal(c)
    ensures Legal(Inside(c)) && forall k :: 0 <= k < |Around(c)| ==> LegalWord(Around(c)[k].file)
  {
    hide LegalWord;
    if c.Redir? {
      LegalInside(c.cmd);
    }
  }

  lemma {:induction false} LegalFront(c: Cmd<string>)
    requires Legal(c)
    ensures Legal(Front(c))
  {
    if c.Back? {
      LegalFront(c.cmd);
    }
  }

  /** Every word of the tokens is one the lexer could return. */
  ghost predicate Spellable(ts: seq<Tok>) {
    forall k :: 0 <= k < |ts| ==>
      ts[k] != Nothing && (ts[k].W? ==> LegalWord(ts[k].text)) && (ts[k].O? ==> Symbol(ts[k].c))
  }

  lemma SpellableJoin(a: seq<Tok>, b: seq<Tok>)
    requires Spellable(a) && Spellable(b)
    ensures Spellable(a + b)
  {
  }

  lemma {:induction false} RToksSpellable(rs: seq<R>)
    requires forall k :: 0 <= k < |rs| ==> LegalWord(rs[k].file)
    ensures Spellable(RToks(rs))
    decreases |rs|
  {
    hide LegalWord;
    if rs != [] {
      RToksSpellable(rs[1..]);
      SpellableJoin([OpTok(rs[0].mode), W(rs[0].file)], RToks(rs[1..]));
    }
  }

  lemma {:induction false} ItemToksSpellable(items: seq<Item>)
    requires forall k :: 0 <= k < |items| ==> LegalWord(items[k].word) && Spellable(RToks(items[k].rs))
    ensures Spellable(ItemToks(items))
    decreases |items|
  {
    hide LegalWord;
    if items != [] {
      ItemToksSpellable(items[1..]);
      SpellableJoin([W(items[0].word)], RToks(items[0].rs));
      SpellableJoin([W(items[0].word)] + RToks(items[0].rs), ItemToks(items[1..]));
    }
  }

  lemma {:induction false} AmpsSpellable(n: nat)
    ensures Spellable(Amps(n))
  {
    if n > 0 {
      AmpsSpellable(n - 1);
      SpellableJoin([O('&')], Amps(n - 1));
    }
  }

  lemma {:induction false} UnitShort(c: Cmd<string>)
    requires Legal(c)
    ensures ShortUnit(AsUnit(c)) && Spellable(UnitToks(AsUnit(c)))
    decreases Size(c), if c.Exec? || c.Redir? then 0 else 5
  {
    hide LegalWord, Spellable;
    InsideSize(c);
    LegalInside(c);
    RToksSpellable(Around(c));
    var d := Inside(c);
    if d.Exec? {
      WordsShort(c, d);
    } else {
      LineShort(d);
      var l, rs := AsLine(d), Around(c);
      Symbols();
      SpellableJoin([O('(')], LineToks(l));
      SpellableJoin([O('(')] + LineToks(l), [O(')')]);
      SpellableJoin([O('(')] + LineToks(l) + [O(')')], RToks(rs));
    }
  }

  lemma Symbols()
    ensures Spellable([O('(')]) && Spellable([O(')')]) && Spellable([O('|')]) && Spellable([O(';')]) && Spellable([])
  {
  }

  lemma WordsShort(c: Cmd<string>, d: Cmd<string>)
    requires d == Inside(c) && d.Exec? && Legal(d) && Spellable(RToks(Around(c)))
    ensures ShortUnit(AsUnit(c)) && Spellable(UnitToks(AsUnit(c)))
  {
    hide LegalWord, Spellable;
    Symbols();
    RToksSpellable([]);
    if d.argv == [] {
      SpellableJoin(RToks(Around(c)), []);
    } else {
      var n := |d.argv| - 1;
      var items := Plain(d.argv[..n]) + [Item(d.argv[n], Around(c))];
      forall k | 0 <= k < |items| ensures LegalWord(items[k].word) && Spellable(RToks(items[k].rs)) {
        assert items[k].word == d.argv[k];
      }
      ItemToksSpellable(items);
      SpellableJoin(RToks([]), ItemToks(items));
    }
  }

  lemma {:induction false} PipesShort(c: Cmd<string>)
    requires Legal(c)
    ensures ShortPipes(AsPipes(c)) && Spellable(PipeToks(AsPipes(c)))
    decreases Size(c), if c.Pipe? || c.Exec? || c.Redir? then 3 else 6
  {
    hide LegalWord, Spellable;
    if c.Pipe? {
      UnitShort(c.left);
      PipesShort(c.right);
      Symbols();
      SpellableJoin(UnitToks(AsUnit(c.left)), [O('|')]);
      SpellableJoin(UnitToks(AsUnit(c.left)) + [O('|')], PipeToks(AsPipes(c.right)));
    } else {
      UnitShort(c);
    }
  }

  lemma {:induction false} LineShort(c: Cmd<string>)
    requires Legal(c)
    ensures ShortLine(AsLine(c)) && Spellable(LineToks(AsLine(c)))
    decreases Size(c), 4
  {
    hide LegalWord, Spellable;
    var l := if c.List? then c.left else c;
    FrontSize(l);
    LegalFront(l);
    PipesShort(Front(l));
    AmpsSpellable(AmpsAfter(l));
    var a, b := PipeToks(AsPipes(Front(l))), Amps(AmpsAfter(l));
    SpellableJoin(a, b);
    if c.List? {
      LineShort(c.right);
      Symbols();
      SpellableJoin(a + b, [O(';')]);
      SpellableJoin(a + b + [O(';')], LineToks(AsLine(c.right)));
    }
  }

  // ----- Tokens as text -----

  function TokText(t: Tok): string {
    match t case W(text) => text case O(c) => [c] case Append => ">>" case Nothing => ""
  }

  /** A space after each token. */
  function Spell(ts: seq<Tok>): string {
    if ts == [] then "" else TokText(ts[0]) + " " + Spell(ts[1..])
  }

  lemma TokenThere(s: string, i: nat, t: Tok)
    requires Spellable([t]) && i + |TokText(t)| < |s|
    requires s[i..i + |TokText(t)|] == TokText(t) && s[i + |TokText(t)|] == ' '
    ensures TokAt(s, i) == t && GetToken(s, i).next == SkipSpace(s, i + |TokText(t)|)
  {
    assert t == [t][0];
    var e := i + |TokText(t)|;
    assert forall k :: 0 <= k < |TokText(t)| ==> s[i + k] == s[i..e][k];
    match t
    case W(text) =>
      assert LegalWord(text);
      WordEndAt(s, i, e);
    case O(c) => assert s[i] == c;
    case Append => assert s[i] == '>' && s[i + 1] == '>';
    case Nothing =>
  }

  lemma {:induction false} WordEndAt(s: string, i: nat, j: nat)
    requires i <= j < |s| && (forall k :: i <= k < j ==> WordChar(s[k])) && !WordChar(s[j])
    ensures WordEnd(s, i) == j
    decreases j - i
  {
    if i < j {
      WordEndAt(s, i + 1, j);
    }
  }

  lemma Parts(s: string, pre: string, a: string, b: string)
    requires s == pre + (a + " " + b)
    ensures var i := |pre|;
            && i + |a| < |s| && s[i..i + |a|] == a && s[i + |a|] == ' ' && s == (pre + a + " ") + b
            && |pre + a + " "| == i + |a| + 1
  {
  }

  lemma OneSpace(s: string, e: nat)
    requires e < |s| && s[e] == ' '
    ensures SkipSpace(s, e) == SkipSpace(s, e + 1)
  {
  }

  lemma {:induction false} SpellReads(s: string, pre: string, ts: seq<Tok>)
    requires Spellable(ts) && s == pre + Spell(ts)
    ensures Reads(s, |pre|, ts, |s|)
    decreases |ts|
  {
    hide GetToken, SkipSpace, TokText, Reads;
    if ts == [] {
      assert s == pre;
      AtEnd(s);
    } else {
      var t, rest := ts[0], ts[1..];
      assert Spellable([t]) && Spellable(rest);
      Parts(s, pre, TokText(t), Spell(rest));
      hide Spell, Spellable;
      var i, e, pre' := |pre|, |pre| + |TokText(t)|, pre + TokText(t) + " ";
      TokenThere(s, i, t);
      SpellReads(s, pre', rest);
      OneSpace(s, e);
      ReadsSkip(s, e, rest, |s|);
      ReadsSkip(s, e + 1, rest, |s|);
      ReadsMore(s, i, ts, |s|);
    }
  }

  lemma AtEnd(s: string)
    ensures Reads(s, |s|, [], |s|)
  {
  }

  lemma ReadsMore(s: string, i: nat, ts: seq<Tok>, j: nat)
    requires i <= |s| && ts != [] && TokAt(s, i) == ts[0] && Reads(s, GetToken(s, i).next, ts[1..], j)
    ensures Reads(s, i, ts, j)
  {
    hide GetToken, SkipSpace;
  }

  /** Written down with few parentheses, every legal tree is parsed back: `ls | wc`, `a ; b &`, `echo hi > f`. */
  lemma ParseInvertsFlat(c: Cmd<string>)
    requires Legal(c)
    ensures var s := Spell(LineToks(AsLine(c))); ParseCmd(s).Ok? && Meaning(s, ParseCmd(s).value) == c
  {
    hide ParseCmd, Meaning, Reads, AsLine, Spell;
    var ts := LineToks(AsLine(c));
    var s := Spell(ts);
    LineShort(c);
    assert s == "" + Spell(ts);
    SpellReads(s, "", ts);
    Accepts(s, AsLine(c));
    LineMeans(c);
  }
}
