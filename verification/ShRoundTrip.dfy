/** Parsing inverts printing. */
module ShRoundTrip {
  import opened Sh

  /** t stands in s at i. */
  predicate At(s: string, i: nat, t: string) {
    i + |t| <= |s| && s[i..i + |t|] == t
  }

  /** What may follow a printed command. */
  predicate Stop(s: string, j: nat) {
    j == |s| || (j < |s| && s[j] == ')')
  }

  lemma AtParts(s: string, i: nat, a: string, b: string)
    requires At(s, i, a + b)
    ensures At(s, i, a) && At(s, i + |a|, b)
  {
    assert s[i..i + |a + b|][..|a|] == a && s[i..i + |a + b|][|a|..] == b;
  }

  lemma AtChar(s: string, i: nat, t: string, k: nat)
    requires At(s, i, t) && k < |t|
    ensures i + k < |s| && s[i + k] == t[k]
  {
    assert s[i..i + |t|][k] == t[k];
  }

  // ----- Tokens -----

  lemma NoSpace(s: string, i: nat)
    requires i <= |s| && (i < |s| ==> !Space(s[i]))
    ensures SkipSpace(s, i) == i
  {
  }

  lemma SymbolToken(s: string, i: nat)
    requires i < |s| && Symbol(s[i]) && (i + 1 < |s| ==> !Space(s[i + 1]))
    requires (s[i] == '>' && i + 1 < |s| ==> s[i + 1] != '>')
    ensures GetToken(s, i) == Token(Sym(s[i]), i, i + 1, i + 1)
  {
    NoSpace(s, i);
    NoSpace(s, i + 1);
  }

  lemma WordToken(s: string, i: nat, w: string)
    requires LegalWord(w) && At(s, i, w) && (i + |w| < |s| ==> !WordChar(s[i + |w|]))
    ensures i < |s| && GetToken(s, i) == Token(Word, i, i + |w|, SkipSpace(s, i + |w|))
    ensures Text(s, Span(i, i + |w|)) == w
  {
    forall k | i <= k < i + |w| ensures WordChar(s[k]) {
      AtChar(s, i, w, k - i);
    }
    NoSpace(s, i);
    WordEndIs(s, i, i + |w|);
  }

  lemma {:induction false} WordEndIs(s: string, i: nat, j: nat)
    requires i <= j <= |s| && (forall k :: i <= k < j ==> WordChar(s[k])) && (j < |s| ==> !WordChar(s[j]))
    ensures WordEnd(s, i) == j
    decreases j - i
  {
    if i < j {
      WordEndIs(s, i + 1, j);
    }
  }

  // ----- A list of words -----

  lemma FirstOfWords(s: string, i: nat, ws: seq<string>)
    requires At(s, i, Words(ws)) && (forall k :: 0 <= k < |ws| ==> LegalWord(ws[k])) && Stop(s, i + |Words(ws)|)
    ensures ws != [] ==> i < |s| && WordChar(s[i])
    ensures ws == [] ==> Stop(s, i)
  {
    if ws != [] {
      assert LegalWord(ws[0]) && Words(ws)[0] == ws[0][0];
      AtChar(s, i, Words(ws), 0);
    }
  }

  ghost predicate Spelled(s: string, spans: seq<Span>, ws: seq<string>) {
    |spans| == |ws| && forall k :: 0 <= k < |ws| ==> Text(s, spans[k]) == ws[k]
  }

  // No redirection at k.
  lemma NoRedirs(s: string, k: nat)
    requires k <= |s| && (k < |s| ==> !Space(s[k]) && s[k] != '<' && s[k] != '>')
    ensures ParseRedirs(s, k) == Ok([], k)
  {
    NoSpace(s, k);
  }

  // One turn of parseexec's loop on a word that ends at e, the next token being at k.
  lemma ArgsStep(s: string, i: nat, e: nat, k: nat, argc: nat)
    requires i < |s| && WordChar(s[i]) && i < e <= k <= |s| && GetToken(s, i) == Token(Word, i, e, k)
    requires argc + 1 < MAXARGS
    requires k < |s| ==> !Space(s[k]) && s[k] != '<' && s[k] != '>'
    ensures var rest := ParseArgs(s, k, argc + 1);
            ParseArgs(s, i, argc) == if rest.Panic? then Panic
            else Ok(Simple([Span(i, e)] + rest.value.argv, rest.value.redirs), rest.next)
  {
    hide GetToken;
    NoSpace(s, i);
    NoRedirs(s, k);
    hide ParseRedirs, SkipSpace;
    assert !Peek(s, i, "|)&;");
    var rest := ParseArgs(s, k, argc + 1);
    if rest.Ok? {
      assert [] + rest.value.redirs == rest.value.redirs;
    }
  }

  lemma NoArgs(s: string, i: nat, argc: nat)
    requires i <= |s| && Stop(s, i)
    ensures ParseArgs(s, i, argc) == Ok(Simple([], []), i)
  {
    NoSpace(s, i);
  }

  lemma {:induction false} ArgsPrinted(s: string, i: nat, ws: seq<string>, argc: nat)
    requires (forall k :: 0 <= k < |ws| ==> LegalWord(ws[k])) && argc + |ws| < MAXARGS && At(s, i, Words(ws))
    requires Stop(s, i + |Words(ws)|)
    ensures var r := ParseArgs(s, i, argc);
            r.Ok? && r.next == i + |Words(ws)| && r.value.redirs == [] && Spelled(s, r.value.argv, ws)
    decreases |ws|
  {
    hide ParseArgs, GetToken, Text, LegalWord;
    FirstOfWords(s, i, ws);
    if ws == [] {
      NoArgs(s, i, argc);
    } else {
      var e := i + |ws[0]|;
      var k := if |ws| == 1 then e else e + 1;
      FirstWord(s, i, ws);
      WordToken(s, i, ws[0]);
      FirstOfWords(s, k, ws[1..]);
      SpaceTo(s, e, k);
      LongEnough(ws[0]);
      ArgsStep(s, i, e, k, argc);
      ArgsPrinted(s, k, ws[1..], argc + 1);
    }
  }

  lemma LongEnough(w: string)
    requires LegalWord(w)
    ensures |w| > 0
  {
  }

  lemma SpaceTo(s: string, e: nat, k: nat)
    requires e <= k <= e + 1 && k <= |s| && (k == e + 1 ==> e < |s| && s[e] == ' ') && (k < |s| ==> !Space(s[k]))
    ensures SkipSpace(s, e) == k
  {
    NoSpace(s, k);
  }

  // The first word, and the rest after one space.
  lemma FirstWord(s: string, i: nat, ws: seq<string>)
    requires ws != [] && LegalWord(ws[0]) && At(s, i, Words(ws)) && Stop(s, i + |Words(ws)|)
    ensures var e := i + |ws[0]|;
            && At(s, i, ws[0]) && (e < |s| ==> !WordChar(s[e]))
            && (|ws| == 1 ==> At(s, e, Words(ws[1..])) && e == i + |Words(ws)|)
            && (|ws| > 1 ==>
                e < |s| && s[e] == ' ' && At(s, e + 1, Words(ws[1..])) && e + 1 + |Words(ws[1..])| == i + |Words(ws)|)
  {
    if |ws| > 1 {
      assert Words(ws) == (ws[0] + " ") + Words(ws[1..]);
      AtParts(s, i, ws[0] + " ", Words(ws[1..]));
      AtParts(s, i, ws[0], " ");
      AtChar(s, i + |ws[0]|, " ", 0);
    }
  }

  // ----- From one parse function to the next -----

  ghost predicate Parsed(s: string, r: Result<Cmd<Span>>, c: Cmd<string>, end: nat) {
    r.Ok? && r.next == end && Meaning(s, r.value) == c
  }

  /** Neither white space nor one of toks comes next. */
  predicate Not(s: string, j: nat, toks: string) {
    j <= |s| && (j < |s| ==> !Space(s[j]) && s[j] !in toks)
  }

  lemma NotThere(s: string, j: nat, toks: string)
    requires Not(s, j, toks)
    ensures !Peek(s, j, toks) && SkipSpace(s, j) == j
  {
    NoSpace(s, j);
  }

  lemma StopNot(s: string, j: nat)
    requires Stop(s, j)
    ensures Not(s, j, "&") && Not(s, j, ";") && Not(s, j, "|") && Not(s, j, "<>")
  {
  }

  lemma SymbolNot(s: string, j: nat)
    requires j < |s| && (s[j] == '|' || s[j] == ';' || s[j] == '&')
    ensures Not(s, j, "<>") && (s[j] != '|' ==> Not(s, j, "|")) && (s[j] != '&' ==> Not(s, j, "&"))
  {
  }

  lemma PipeOfExec(s: string, i: nat, j: nat)
    requires i <= |s| && ParseExec(s, i).Ok? && ParseExec(s, i).next == j && Not(s, j, "|")
    ensures ParsePipe(s, i) == Ok(ParseExec(s, i).value, j)
  {
    hide ParseExec, SkipSpace;
    NotThere(s, j, "|");
  }

  lemma LineOfPipe(s: string, i: nat, j: nat)
    requires i <= |s| && ParsePipe(s, i).Ok? && ParsePipe(s, i).next == j && Not(s, j, "&") && Not(s, j, ";")
    ensures ParseLine(s, i) == Ok(ParsePipe(s, i).value, j)
  {
    hide ParsePipe, SkipSpace;
    NotThere(s, j, "&");
    NotThere(s, j, ";");
  }

  // A block whose inside ends at k.
  lemma Block(s: string, i: nat, k: nat)
    requires i + 1 <= k < |s|
    requires s[i] == '(' && !Space(s[i + 1]) && ParseLine(s, i + 1).Ok? && ParseLine(s, i + 1).next == k && s[k] == ')'
    requires k + 1 < |s| ==> !Space(s[k + 1])
    ensures var rs := ParseRedirs(s, k + 1);
            ParseExec(s, i) == if rs.Panic? then Panic else Ok(Wrap(ParseLine(s, i + 1).value, rs.value), rs.next)
  {
    hide ParseLine, ParseRedirs, GetToken, ParseExec;
    NoSpace(s, i);
    NoSpace(s, k);
    SymbolToken(s, i);
    SymbolToken(s, k);
    BlockStep(s, i, k);
  }

  lemma BlockStep(s: string, i: nat, k: nat)
    requires i < k < |s| && SkipSpace(s, i) == i && SkipSpace(s, k) == k && Peek(s, i, "(") && Peek(s, k, ")")
    requires GetToken(s, i).next == i + 1 && GetToken(s, k).next == k + 1 && ParseLine(s, i + 1).Ok?
    requires ParseLine(s, i + 1).next == k
    ensures var rs := ParseRedirs(s, k + 1);
            ParseExec(s, i) == if rs.Panic? then Panic else Ok(Wrap(ParseLine(s, i + 1).value, rs.value), rs.next)
  {
    hide SkipSpace, Peek, GetToken, ParseLine, ParseRedirs, Wrap;
  }

  lemma PlainBlock(s: string, i: nat, k: nat, c: Cmd<string>)
    requires i + 1 <= k < |s| && s[i] == '(' && !Space(s[i + 1]) && Parsed(s, ParseLine(s, i + 1), c, k) && s[k] == ')'
    requires Not(s, k + 1, "<>")
    ensures Parsed(s, ParseExec(s, i), c, k + 1)
  {
    hide ParseLine, ParseExec;
    Block(s, i, k);
    NoRedirs(s, k + 1);
  }

  // A block with one redirection to a word that ends at j.
  lemma RedirBlock(s: string, i: nat, k: nat, c: Cmd<string>, m: Mode, w: string)
    requires i + 1 <= k < |s| && s[i] == '(' && !Space(s[i + 1]) && Parsed(s, ParseLine(s, i + 1), c, k) && s[k] == ')'
    requires LegalWord(w) && At(s, k + 1, Operator(m) + w) && Stop(s, k + 1 + |Operator(m)| + |w|)
    ensures Parsed(s, ParseExec(s, i), Redir(c, w, m), k + 1 + |Operator(m)| + |w|)
  {
    hide ParseLine, ParseExec;
    OneRedir(s, k + 1, m, w);
    Block(s, i, k);
    var rs := ParseRedirs(s, k + 1).value;
    hide ParseRedirs;
    assert rs[..0] == [];
  }

  lemma OneRedir(s: string, i: nat, m: Mode, w: string)
    requires LegalWord(w) && At(s, i, Operator(m) + w) && Stop(s, i + |Operator(m)| + |w|)
    ensures i < |s| && !Space(s[i])
    ensures var j := i + |Operator(m)|;
            ParseRedirs(s, i) == Ok([Redirection(Span(j, j + |w|), m)], j + |w|) && Text(s, Span(j, j + |w|)) == w
  {
    hide GetToken, ParseRedirs, Text, At, Operator, SkipSpace, LegalWord, Stop, WordChar;
    var j := i + |Operator(m)|;
    RedirText(s, i, m, w);
    StopEnds(s, j + |w|);
    WordToken(s, j, w);
    OperatorToken(s, i, m);
    RedirStep(s, i, j, j + |w|);
  }

  lemma RedirText(s: string, i: nat, m: Mode, w: string)
    requires LegalWord(w) && At(s, i, Operator(m) + w)
    ensures var j := i + |Operator(m)|;
            i < j < |s| && (s[i] == '<' || s[i] == '>') && !Space(s[i]) && WordChar(s[j]) && At(s, i, Operator(m)) &&
              At(s, j, w)
  {
    AtParts(s, i, Operator(m), w);
    AtChar(s, i, Operator(m), 0);
    AtChar(s, i + |Operator(m)|, w, 0);
  }

  lemma StopEnds(s: string, j: nat)
    requires Stop(s, j)
    ensures SkipSpace(s, j) == j && (j < |s| ==> !WordChar(s[j])) && ParseRedirs(s, j) == Ok([], j)
  {
    NoRedirs(s, j);
  }

  lemma RedirStep(s: string, i: nat, j: nat, e: nat)
    requires i < j <= e <= |s| && (s[i] == '<' || s[i] == '>') && GetToken(s, i).next == j
    requires GetToken(s, j) == Token(Word, j, e, e)
    requires ParseRedirs(s, e) == Ok([], e)
    ensures ParseRedirs(s, i) == Ok([Redirection(Span(j, e), ModeOf(GetToken(s, i).kind))], e)
  {
    hide GetToken;
    NoSpace(s, i);
    assert Peek(s, i, "<>");
    hide SkipSpace, Peek;
    var r := [Redirection(Span(j, e), ModeOf(GetToken(s, i).kind))];
    assert r + [] == r;
  }

  lemma OperatorToken(s: string, i: nat, m: Mode)
    requires At(s, i, Operator(m)) && i + |Operator(m)| < |s| && WordChar(s[i + |Operator(m)|])
    ensures i < |s| && GetToken(s, i).next == i + |Operator(m)| && ModeOf(GetToken(s, i).kind) == m
  {
    AtChar(s, i, Operator(m), 0);
    NoSpace(s, i);
    NoSpace(s, i + |Operator(m)|);
    if m == OutAppend {
      AtChar(s, i, Operator(m), 1);
    }
  }

  // ----- The round trip -----

  lemma ExecPrinted(s: string, i: nat, ws: seq<string>)
    requires Legal(Exec(ws)) && At(s, i, Words(ws)) && Stop(s, i + |Words(ws)|)
    ensures Parsed(s, ParseExec(s, i), Exec(ws), i + |Words(ws)|)
  {
    hide ParseArgs, Words, LegalWord;
    FirstOfWords(s, i, ws);
    NoSpace(s, i);
    NoRedirs(s, i);
    hide ParseRedirs, SkipSpace;
    ArgsPrinted(s, i, ws, 0);
    var args := ParseArgs(s, i, 0);
    var r := ParseExec(s, i);
    assert [] + args.value.redirs == [];
    assert r.value == Exec(args.value.argv);
    assert Meaning(s, r.value).argv == ws;
  }

  lemma StartsPlain(s: string, i: nat, c: Cmd<string>)
    requires Legal(c) && At(s, i, Print(c)) && Stop(s, i + |Print(c)|)
    ensures i < |s| ==> !Space(s[i])
  {
    hide Words;
    if c.Exec? {
      FirstOfWords(s, i, c.argv);
    } else {
      AtChar(s, i, Print(c), 0);
    }
  }

  // "(", the command, ")".
  lemma ParenParts(s: string, i: nat, t: string)
    requires At(s, i, Paren(t))
    ensures i + 1 + |t| < |s| && s[i] == '(' && At(s, i + 1, t) && s[i + 1 + |t|] == ')' && Stop(s, i + 1 + |t|)
  {
    assert Paren(t) == ("(" + t) + ")";
    AtParts(s, i, "(" + t, ")");
    AtParts(s, i, "(", t);
    AtChar(s, i, "(", 0);
    AtChar(s, i + 1 + |t|, ")", 0);
  }

  lemma BlockPrinted(s: string, i: nat, c: Cmd<string>)
    requires Legal(c) && At(s, i, Paren(Print(c))) && Parsed(s, ParseLine(s, i + 1), c, i + 1 + |Print(c)|)
    requires Not(s, i + |Print(c)| + 2, "<>")
    ensures Parsed(s, ParseExec(s, i), c, i + |Print(c)| + 2)
  {
    hide ParseLine, ParseExec, Print, Meaning;
    ParenParts(s, i, Print(c));
    StartsPlain(s, i + 1, c);
    PlainBlock(s, i, i + 1 + |Print(c)|, c);
  }

  // A symbol between two parts, or at the end.
  lemma MiddleSymbol(s: string, j: nat, c: char)
    requires j < |s| && s[j] == c && (c == '|' || c == ';' || c == '&') && (j + 1 < |s| ==> !Space(s[j + 1]))
    ensures SkipSpace(s, j) == j && GetToken(s, j).next == j + 1 && Peek(s, j, [c])
  {
    NoSpace(s, j);
    SymbolToken(s, j);
  }

  lemma ParenLine(s: string, i: nat, c: Cmd<string>)
    requires Legal(c) && At(s, i, Paren(Print(c))) && Parsed(s, ParseLine(s, i + 1), c, i + 1 + |Print(c)|)
    requires Stop(s, i + |Print(c)| + 2)
    ensures Parsed(s, ParsePipe(s, i), c, i + |Print(c)| + 2) && Parsed(s, ParseLine(s, i), c, i + |Print(c)| + 2)
  {
    hide ParseLine, ParseExec, ParsePipe, Print, Meaning, At, Paren, Not, Stop;
    StopNot(s, i + |Print(c)| + 2);
    BlockPrinted(s, i, c);
    PipeOfExec(s, i, i + |Print(c)| + 2);
    LineOfPipe(s, i, i + |Print(c)| + 2);
  }

  lemma PipePrinted(s: string, i: nat, l: Cmd<string>, r: Cmd<string>)
    requires Legal(l) && Legal(r) && At(s, i, Paren(Print(l)) + "|" + Paren(Print(r)))
    requires Stop(s, i + |Print(l)| + |Print(r)| + 5)
    requires Parsed(s, ParseLine(s, i + 1), l, i + 1 + |Print(l)|)
    requires Parsed(s, ParseLine(s, i + |Print(l)| + 4), r, i + |Print(l)| + 4 + |Print(r)|)
    ensures Parsed(s, ParseLine(s, i), Pipe(l, r), i + |Print(l)| + |Print(r)| + 5)
  {
    hide ParseLine, ParseExec, ParsePipe, Print, At, Paren, SkipSpace, GetToken, Peek, Not, Stop, Legal, Space;
    var j := i + |Print(l)| + 2;
    Between(s, i, Print(l), '|', Print(r));
    StopNot(s, j + |Print(r)| + 3);
    BlockPrinted(s, i, l);
    ParenLine(s, j + 1, r);
    PipeStep(s, i, j);
    LineOfPipe(s, i, j + |Print(r)| + 3);
  }

  // The symbol between two blocks.
  lemma Between(s: string, i: nat, a: string, c: char, b: string)
    requires At(s, i, Paren(a) + [c] + Paren(b)) && (c == '|' || c == ';')
    ensures var j := i + |a| + 2;
            && At(s, i, Paren(a)) && j < |s| && At(s, j + 1, Paren(b)) && SkipSpace(s, j) == j &&
              GetToken(s, j).next == j + 1 && Peek(s, j, [c])
            && Not(s, j, "<>") && (c == ';' ==> Not(s, j, "|") && !Peek(s, j, "&"))
  {
    hide At, Paren, SkipSpace, GetToken, Peek;
    var j := i + |a| + 2;
    Infix(s, i, Paren(a), c, Paren(b));
    ParenParts(s, j + 1, b);
    MiddleSymbol(s, j, c);
    SymbolNot(s, j);
    if c == ';' { NotThere(s, j, "&"); }
  }

  lemma PipeStep(s: string, i: nat, j: nat)
    requires i <= j < |s| && ParseExec(s, i).Ok? && ParseExec(s, i).next == j && SkipSpace(s, j) == j && Peek(s, j, "|")
    requires GetToken(s, j).next == j + 1
    ensures var rest := ParsePipe(s, j + 1);
            ParsePipe(s, i) == if rest.Panic? then Panic else Ok(Pipe(ParseExec(s, i).value, rest.value), rest.next)
  {
    hide ParseExec, SkipSpace, GetToken, Peek;
  }

  lemma Infix(s: string, i: nat, a: string, c: char, b: string)
    requires At(s, i, a + [c] + b)
    ensures At(s, i, a) && i + |a| < |s| && s[i + |a|] == c && At(s, i + |a| + 1, b)
  {
    AtParts(s, i, a + [c], b);
    AtParts(s, i, a, [c]);
    AtChar(s, i + |a|, [c], 0);
  }

  lemma ListPrinted(s: string, i: nat, l: Cmd<string>, r: Cmd<string>)
    requires Legal(l) && Legal(r) && At(s, i, Paren(Print(l)) + ";" + Paren(Print(r)))
    requires Stop(s, i + |Print(l)| + |Print(r)| + 5)
    requires Parsed(s, ParseLine(s, i + 1), l, i + 1 + |Print(l)|)
    requires Parsed(s, ParseLine(s, i + |Print(l)| + 4), r, i + |Print(l)| + 4 + |Print(r)|)
    ensures Parsed(s, ParseLine(s, i), List(l, r), i + |Print(l)| + |Print(r)| + 5)
  {
    hide ParseLine, ParsePipe, ParseExec, Print, At, Paren, SkipSpace, GetToken, Peek, Not, Stop, Legal, Space;
    var j := i + |Print(l)| + 2;
    Between(s, i, Print(l), ';', Print(r));
    BlockPrinted(s, i, l);
    PipeOfExec(s, i, j);
    ParenLine(s, j + 1, r);
    ListStep(s, i, j);
  }

  lemma ListStep(s: string, i: nat, j: nat)
    requires i <= j < |s| && ParsePipe(s, i).Ok? && ParsePipe(s, i).next == j && !Peek(s, j, "&")
    requires SkipSpace(s, j) == j
    requires Peek(s, j, ";") && GetToken(s, j).next == j + 1
    ensures var rest := ParseLine(s, j + 1);
            ParseLine(s, i) == if rest.Panic? then Panic else Ok(List(ParsePipe(s, i).value, rest.value), rest.next)
  {
    hide ParsePipe, SkipSpace, GetToken, Peek;
  }

  lemma BackPrinted(s: string, i: nat, c: Cmd<string>)
    requires Legal(c) && At(s, i, Paren(Print(c)) + "&") && Stop(s, i + |Print(c)| + 3)
    requires Parsed(s, ParseLine(s, i + 1), c, i + 1 + |Print(c)|)
    ensures Parsed(s, ParseLine(s, i), Back(c), i + |Print(c)| + 3)
  {
    hide ParseLine, ParsePipe, ParseExec, Print, At, Paren, SkipSpace, GetToken, Peek, Not;
    var j := i + |Print(c)| + 2;
    AtParts(s, i, Paren(Print(c)), "&");
    AtChar(s, j, "&", 0);
    MiddleSymbol(s, j, '&');
    SymbolNot(s, j);
    StopNot(s, j + 1);
    BlockPrinted(s, i, c);
    PipeOfExec(s, i, j);
    NotThere(s, j + 1, "&");
    NotThere(s, j + 1, ";");
    BackStep(s, i, j);
  }

  lemma BackStep(s: string, i: nat, j: nat)
    requires i <= j < |s| && ParsePipe(s, i).Ok? && ParsePipe(s, i).next == j && SkipSpace(s, j) == j && Peek(s, j, "&")
    requires GetToken(s, j).next == j + 1
    requires !Peek(s, j + 1, "&") && !Peek(s, j + 1, ";") && SkipSpace(s, j + 1) == j + 1
    ensures ParseLine(s, i) == Ok(Back(ParsePipe(s, i).value), j + 1)
  {
    hide ParsePipe, SkipSpace, GetToken, Peek;
    assert ParseBacks(s, j + 1, Back(ParsePipe(s, i).value)) == Ok(Back(ParsePipe(s, i).value), j + 1);
  }

  lemma ExecLine(s: string, i: nat, ws: seq<string>)
    requires Legal(Exec(ws)) && At(s, i, Words(ws)) && Stop(s, i + |Words(ws)|)
    ensures Parsed(s, ParseLine(s, i), Exec(ws), i + |Words(ws)|)
  {
    hide ParseLine, ParsePipe, ParseExec, Meaning, Words, At, Not, Stop;
    StopNot(s, i + |Words(ws)|);
    ExecPrinted(s, i, ws);
    PipeOfExec(s, i, i + |Words(ws)|);
    LineOfPipe(s, i, i + |Words(ws)|);
  }

  lemma RedirLine(s: string, i: nat, d: Cmd<string>, w: string, m: Mode)
    requires Legal(d) && LegalWord(w) && At(s, i, Paren(Print(d)) + Operator(m) + w)
    requires Stop(s, i + |Print(d)| + 2 + |Operator(m)| + |w|)
    requires Parsed(s, ParseLine(s, i + 1), d, i + 1 + |Print(d)|)
    ensures Parsed(s, ParseLine(s, i), Redir(d, w, m), i + |Print(d)| + 2 + |Operator(m)| + |w|)
  {
    hide ParseLine, ParsePipe, ParseExec, Meaning, At, Paren, Operator, Print, Not, Stop;
    var end := i + |Print(d)| + 2 + |Operator(m)| + |w|;
    StopNot(s, end);
    AtParts3(s, i, Paren(Print(d)), Operator(m), w);
    ParenParts(s, i, Print(d));
    StartsPlain(s, i + 1, d);
    RedirBlock(s, i, i + 1 + |Print(d)|, d, m, w);
    PipeOfExec(s, i, end);
    LineOfPipe(s, i, end);
  }

  lemma TwoParts(s: string, i: nat, a: string, c: char, b: string)
    requires At(s, i, Paren(a) + [c] + Paren(b))
    ensures At(s, i + 1, a) && Stop(s, i + 1 + |a|) && At(s, i + |a| + 4, b) && Stop(s, i + |a| + 4 + |b|)
  {
    hide At, Paren;
    Infix(s, i, Paren(a), c, Paren(b));
    ParenParts(s, i, a);
    ParenParts(s, i + |a| + 3, b);
  }

  lemma FirstPart(s: string, i: nat, a: string, b: string)
    requires At(s, i, Paren(a) + b)
    ensures At(s, i + 1, a) && Stop(s, i + 1 + |a|)
  {
    hide At, Paren;
    AtParts(s, i, Paren(a), b);
    ParenParts(s, i, a);
  }

  lemma {:induction false} Printed(s: string, i: nat, c: Cmd<string>)
    requires Legal(c) && At(s, i, Print(c)) && Stop(s, i + |Print(c)|)
    ensures Parsed(s, ParseLine(s, i), c, i + |Print(c)|)
    decreases c
  {
    hide ParseLine, Parsed, Words, At, Paren, Operator, Stop, LegalWord;
    match c
    case Exec(ws) =>
      ExecLine(s, i, ws);
    case Redir(d, w, m) =>
      assert Paren(Print(d)) + Operator(m) + w == Paren(Print(d)) + (Operator(m) + w);
      FirstPart(s, i, Print(d), Operator(m) + w);
      Printed(s, i + 1, d);
      RedirLine(s, i, d, w, m);
    case Pipe(l, r) =>
      TwoParts(s, i, Print(l), '|', Print(r));
      Printed(s, i + 1, l);
      Printed(s, i + |Print(l)| + 4, r);
      PipePrinted(s, i, l, r);
    case List(l, r) =>
      TwoParts(s, i, Print(l), ';', Print(r));
      Printed(s, i + 1, l);
      Printed(s, i + |Print(l)| + 4, r);
      ListPrinted(s, i, l, r);
    case Back(d) =>
      FirstPart(s, i, Print(d), "&");
      Printed(s, i + 1, d);
      BackPrinted(s, i, d);
  }

  lemma AtParts3(s: string, i: nat, a: string, b: string, c: string)
    requires At(s, i, a + b + c)
    ensures At(s, i, a) && At(s, i + |a|, b + c)
  {
    assert a + b + c == a + (b + c);
    AtParts(s, i, a, b + c);
  }

  /** Parsing the parenthesised printing of a command gives the command back and consumes the line. */
  lemma ParseInvertsPrint(c: Cmd<string>)
    requires Legal(c)
    ensures var r := ParseCmd(Print(c)); r.Ok? && r.next == |Print(c)| && Meaning(Print(c), r.value) == c
  {
    hide ParseLine, Meaning, Print;
    var s := Print(c);
    assert s[0..|s|] == s;
    Printed(s, 0, c);
    NoSpace(s, |s|);
  }
}
