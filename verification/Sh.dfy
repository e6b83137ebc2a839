/** user/sh.c: the lexer, the recursive-descent parser and nulterminate. The cursor is a position in the
    line; what the parser builds holds positions into it. */
module Sh {
  const MAXARGS: nat := 10

  predicate Space(c: char) {
    c == ' ' || c == '\t' || c == '\r' || c == '\n' || c == 11 as char
  }

  predicate Symbol(c: char) {
    c == '<' || c == '|' || c == '>' || c == '&' || c == ';' || c == '(' || c == ')'
  }

  predicate WordChar(c: char) {
    !Space(c) && !Symbol(c)
  }

  /** A command whose words are of type W: positions while parsing, strings as the user means them. */
  datatype Cmd<W> =
    | Exec(argv: seq<W>)
    | Redir(cmd: Cmd<W>, file: W, mode: Mode)
    | Pipe(left: Cmd<W>, right: Cmd<W>)
    | List(left: Cmd<W>, right: Cmd<W>)
    | Back(cmd: Cmd<W>)

  /** O_RDONLY on 0; O_WRONLY|O_CREATE|O_TRUNC on 1; O_WRONLY|O_CREATE on 1. */
  datatype Mode = In | Out | OutAppend

  /** argv[i] and eargv[i] */
  datatype Span = Span(q: nat, eq: nat)

  // ----- Lexing -----

  /** What gettoken returns: 0, a symbol, '+' for >>, or 'a'. */
  datatype Kind = End | Sym(c: char) | Plus | Word

  datatype Token = Token(kind: Kind, q: nat, eq: nat, next: nat)

  /** Past the white space at s. */
  function SkipSpace(s: string, i: nat): (j: nat)
    requires i <= |s|
    ensures i <= j <= |s| && (j < |s| ==> !Space(s[j])) && forall k :: i <= k < j ==> Space(s[k])
    decreases |s| - i
  {
    if i < |s| && Space(s[i]) then SkipSpace(s, i + 1) else i
  }

  function WordEnd(s: string, i: nat): (j: nat)
    requires i <= |s|
    ensures i <= j <= |s| && (j < |s| ==> !WordChar(s[j])) && forall k :: i <= k < j ==> WordChar(s[k])
    decreases |s| - i
  {
    if i < |s| && WordChar(s[i]) then WordEnd(s, i + 1) else i
  }

  function GetToken(s: string, i: nat): (t: Token)
    requires i <= |s|
    ensures i <= t.q <= t.eq <= t.next <= |s| && (t.kind == End <==> t.q == |s|) && (t.kind != End ==> t.next > i)
  {
    var q := SkipSpace(s, i);
    if q == |s| then Token(End, q, q, q)
    else if s[q] == '>' then
      if q + 1 < |s| && s[q + 1] == '>' then Token(Plus, q, q + 2, SkipSpace(s, q + 2))
      else Token(Sym('>'), q, q + 1, SkipSpace(s, q + 1))
    else if Symbol(s[q]) then Token(Sym(s[q]), q, q + 1, SkipSpace(s, q + 1))
    else Token(Word, q, WordEnd(s, q), SkipSpace(s, WordEnd(s, q)))
  }

  /** peek: the cursor past white space, and whether one of toks is there. */
  predicate Peek(s: string, i: nat, toks: string)
    requires i <= |s|
  {
    SkipSpace(s, i) < |s| && s[SkipSpace(s, i)] in toks
  }

  // ----- Parsing -----

  datatype Result<T> = Ok(value: T, next: nat) | Panic

  datatype Redirection = Redirection(file: Span, mode: Mode)

  function Wrap(c: Cmd<Span>, rs: seq<Redirection>): Cmd<Span> {
    if rs == [] then c else Redir(Wrap(c, rs[..|rs| - 1]), rs[|rs| - 1].file, rs[|rs| - 1].mode)
  }

  function ModeOf(k: Kind): Mode {
    if k == Sym('<') then In else if k == Sym('>') then Out else OutAppend
  }

  function ParseRedirs(s: string, i: nat): (r: Result<seq<Redirection>>)
    requires i <= |s|
    ensures r.Ok? ==> i <= r.next <= |s|
    decreases |s| - i
  {
    if !Peek(s, i, "<>") then Ok([], SkipSpace(s, i))
    else
      var op := GetToken(s, SkipSpace(s, i));
      var w := GetToken(s, op.next);
      if w.kind != Word then Panic
      else
        var rest := ParseRedirs(s, w.next);
        if rest.Panic? then Panic else Ok([Redirection(Span(w.q, w.eq), ModeOf(op.kind))] + rest.value, rest.next)
  }

  datatype Simple = Simple(argv: seq<Span>, redirs: seq<Redirection>)

  /** parseexec's loop, with `argc` words so far. */
  function ParseArgs(s: string, i: nat, argc: nat): (r: Result<Simple>)
    requires i <= |s|
    ensures r.Ok? ==> i <= r.next <= |s|
    decreases |s| - i
  {
    if Peek(s, i, "|)&;") then Ok(Simple([], []), SkipSpace(s, i))
    else
      var w := GetToken(s, SkipSpace(s, i));
      if w.kind == End then Ok(Simple([], []), w.next)
      else if w.kind != Word || argc + 1 >= MAXARGS then Panic
      else
        var rs := ParseRedirs(s, w.next);
        if rs.Panic? then Panic
        else
          var rest := ParseArgs(s, rs.next, argc + 1);
          if rest.Panic? then Panic
          else Ok(Simple([Span(w.q, w.eq)] + rest.value.argv, rs.value + rest.value.redirs), rest.next)
  }

  function ParseExec(s: string, i: nat): (r: Result<Cmd<Span>>)
    requires i <= |s|
    ensures r.Ok? ==> i <= r.next <= |s|
    decreases |s| - i, 1
  {
    if Peek(s, i, "(") then ParseBlock(s, SkipSpace(s, i))
    else
      var rs := ParseRedirs(s, SkipSpace(s, i));
      if rs.Panic? then Panic
      else
        var args := ParseArgs(s, rs.next, 0);
        if args.Panic? then Panic else Ok(Wrap(Exec(args.value.argv), rs.value + args.value.redirs), args.next)
  }

  function ParseBlock(s: string, i: nat): (r: Result<Cmd<Span>>)
    requires i <= |s|
    ensures r.Ok? ==> i <= r.next <= |s|
    decreases |s| - i, 0
  {
    if !Peek(s, i, "(") then Panic
    else
      var open := GetToken(s, SkipSpace(s, i));
      var c := ParseLine(s, open.next);
      if c.Panic? || !Peek(s, c.next, ")") then Panic
      else
        var close := GetToken(s, SkipSpace(s, c.next));
        var rs := ParseRedirs(s, close.next);
        if rs.Panic? then Panic else Ok(Wrap(c.value, rs.value), rs.next)
  }

  function ParsePipe(s: string, i: nat): (r: Result<Cmd<Span>>)
    requires i <= |s|
    ensures r.Ok? ==> i <= r.next <= |s|
    decreases |s| - i, 2
  {
    var left := ParseExec(s, i);
    if left.Panic? then Panic
    else if !Peek(s, left.next, "|") then Ok(left.value, SkipSpace(s, left.next))
    else
      var bar := GetToken(s, SkipSpace(s, left.next));
      var right := ParsePipe(s, bar.next);
      if right.Panic? then Panic else Ok(Pipe(left.value, right.value), right.next)
  }

  /** The & loop of parseline. */
  function ParseBacks(s: string, i: nat, c: Cmd<Span>): (r: Result<Cmd<Span>>)
    requires i <= |s|
    ensures r.Ok? && i <= r.next <= |s|
    decreases |s| - i
  {
    if Peek(s, i, "&") then ParseBacks(s, GetToken(s, SkipSpace(s, i)).next, Back(c)) else Ok(c, SkipSpace(s, i))
  }

  function ParseLine(s: string, i: nat): (r: Result<Cmd<Span>>)
    requires i <= |s|
    ensures r.Ok? ==> i <= r.next <= |s|
    decreases |s| - i, 3
  {
    var first := ParsePipe(s, i);
    if first.Panic? then Panic
    else
      var c := ParseBacks(s, first.next, first.value);
      if !Peek(s, c.next, ";") then Ok(c.value, SkipSpace(s, c.next))
      else
        var semi := GetToken(s, SkipSpace(s, c.next));
        var rest := ParseLine(s, semi.next);
        if rest.Panic? then Panic else Ok(List(c.value, rest.value), rest.next)
  }

  /** parsecmd up to nulterminate: all of the line must be consumed. */
  function ParseCmd(s: string): Result<Cmd<Span>> {
    var c := ParseLine(s, 0);
    if c.Panic? || SkipSpace(s, c.next) != |s| then Panic else Ok(c.value, |s|)
  }

  // ----- What the words say -----

  function Text(s: string, w: Span): string {
    if w.q <= w.eq <= |s| then s[w.q..w.eq] else ""
  }

  function Meaning(s: string, c: Cmd<Span>): Cmd<string> {
    match c
    case Exec(argv) => Exec(seq(|argv|, k requires 0 <= k < |argv| => Text(s, argv[k])))
    case Redir(d, file, mode) => Redir(Meaning(s, d), Text(s, file), mode)
    case Pipe(l, r) => Pipe(Meaning(s, l), Meaning(s, r))
    case List(l, r) => List(Meaning(s, l), Meaning(s, r))
    case Back(d) => Back(Meaning(s, d))
  }

  // ----- Printing -----

  predicate LegalWord(w: string) {
    w != "" && forall k :: 0 <= k < |w| ==> WordChar(w[k]) && w[k] != '\0'
  }

  predicate Legal(c: Cmd<string>) {
    match c
    case Exec(argv) => |argv| < MAXARGS && forall k :: 0 <= k < |argv| ==> LegalWord(argv[k])
    case Redir(d, file, _) => Legal(d) && LegalWord(file)
    case Pipe(l, r) => Legal(l) && Legal(r)
    case List(l, r) => Legal(l) && Legal(r)
    case Back(d) => Legal(d)
  }

  function Words(ws: seq<string>): string {
    if ws == [] then "" else if |ws| == 1 then ws[0] else ws[0] + " " + Words(ws[1..])
  }

  function Operator(m: Mode): string {
    match m case In => "<" case Out => ">" case OutAppend => ">>"
  }

  function Paren(t: string): (r: string)
    ensures |r| == |t| + 2
  {
    "(" + t + ")"
  }

  /** Every part in parentheses. */
  function Print(c: Cmd<string>): string {
    match c
    case Exec(argv) => Words(argv)
    case Redir(d, file, mode) => Paren(Print(d)) + Operator(mode) + file
    case Pipe(l, r) => Paren(Print(l)) + "|" + Paren(Print(r))
    case List(l, r) => Paren(Print(l)) + ";" + Paren(Print(r))
    case Back(d) => Paren(Print(d)) + "&"
  }
}
