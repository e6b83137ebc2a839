/** The parser of user/sh.c as it runs, loops and moving cursor, and nulterminate's writes into the line. */
module ShParser {
  import opened Sh

  // ----- gettoken and peek -----

  method SkipWhite(s: string, i: nat) returns (j: nat)
    requires i <= |s|
    ensures j == SkipSpace(s, i)
  {
    j := i;
    while j < |s| && Space(s[j])
      invariant i <= j <= |s| && SkipSpace(s, i) == SkipSpace(s, j)
    {
      j := j + 1;
    }
  }

  method GetTokenAt(s: string, ps: nat) returns (t: Token)
    requires ps <= |s|
    ensures t == GetToken(s, ps)
  {
    var i := SkipWhite(s, ps);
    var q := i;
    var kind := End;
    if i < |s| {
      if s[i] == '>' {
        kind := Sym('>');
        i := i + 1;
        if i < |s| && s[i] == '>' {
          kind := Plus;
          i := i + 1;
        }
      } else if Symbol(s[i]) {
        kind := Sym(s[i]);
        i := i + 1;
      } else {
        kind := Word;
        while i < |s| && !Space(s[i]) && !Symbol(s[i])
          invariant q <= i <= |s| && WordEnd(s, q) == WordEnd(s, i)
        {
          i := i + 1;
        }
      }
    }
    var eq := i;
    i := SkipWhite(s, i);
    t := Token(kind, q, eq, i);
  }

  method PeekAt(s: string, ps: nat, toks: string) returns (hit: bool, next: nat)
    requires ps <= |s|
    ensures next == SkipSpace(s, ps) && hit == Peek(s, ps, toks)
  {
    next := SkipWhite(s, ps);
    hit := next < |s| && s[next] in toks;
  }

  // ----- The parse functions; ok is false where the source panics -----

  lemma WrapMore(c: Cmd<Span>, rs: seq<Redirection>, r: Redirection)
    ensures Wrap(c, rs + [r]) == Redir(Wrap(c, rs), r.file, r.mode)
  {
    assert (rs + [r])[..|rs|] == rs;
  }

  /** What is still to be parsed, after `done`, completes the whole. */
  ghost predicate Completes(whole: Result<seq<Redirection>>, done: seq<Redirection>, rest: Result<seq<Redirection>>) {
    whole == if rest.Panic? then Panic else Ok(done + rest.value, rest.next)
  }

  lemma RedirsTurn(s: string, i: nat, whole: Result<seq<Redirection>>, done: seq<Redirection>)
    requires i <= |s| && Peek(s, i, "<>") && Completes(whole, done, ParseRedirs(s, i))
    ensures var op := GetToken(s, SkipSpace(s, i));
            var w := GetToken(s, op.next);
            if w.kind != Word then whole == Panic
            else Completes(whole, done + [Redirection(Span(w.q, w.eq), ModeOf(op.kind))], ParseRedirs(s, w.next))
  {
    hide GetToken, SkipSpace, Peek;
    var op := GetToken(s, SkipSpace(s, i));
    var w := GetToken(s, op.next);
    var r := Redirection(Span(w.q, w.eq), ModeOf(op.kind));
    if w.kind == Word && ParseRedirs(s, w.next).Ok? {
      assert done + ([r] + ParseRedirs(s, w.next).value) == done + [r] + ParseRedirs(s, w.next).value;
    }
  }

  method ParseRedirsAt(c: Cmd<Span>, s: string, ps: nat)
    returns (ok: bool, cmd: Cmd<Span>, next: nat, ghost rs: seq<Redirection>)
    requires ps <= |s|
    ensures ok == ParseRedirs(s, ps).Ok? && ps <= next <= |s|
    ensures ok ==> rs == ParseRedirs(s, ps).value && cmd == Wrap(c, rs) && next == ParseRedirs(s, ps).next
  {
    hide GetToken, SkipSpace, Peek, ModeOf, Wrap;
    rs, cmd := [], c;
    ghost var whole := ParseRedirs(s, ps);
    WrapNone(c);
    assert whole.Ok? ==> [] + whole.value == whole.value;
    var hit;
    hit, next := PeekAt(s, ps, "<>");
    ghost var at := ps;
    while hit
      invariant ps <= at <= next <= |s| && next == SkipSpace(s, at) && hit == Peek(s, at, "<>")
      invariant cmd == Wrap(c, rs) && Completes(whole, rs, ParseRedirs(s, at))
      decreases |s| - at
    {
      RedirsTurn(s, at, whole, rs);
      PeekProgress(s, at, "<>");
      var op := GetTokenAt(s, next);
      var w := GetTokenAt(s, op.next);
      if w.kind != Word {
        return false, cmd, next, rs;
      }
      var r := Redirection(Span(w.q, w.eq), ModeOf(op.kind));
      WrapMore(c, rs, r);
      rs := rs + [r];
      cmd := Redir(cmd, Span(w.q, w.eq), ModeOf(op.kind));
      at := w.next;
      hit, next := PeekAt(s, w.next, "<>");
    }
    assert rs + [] == rs;
    ok := true;
  }

  lemma WrapNone(c: Cmd<Span>)
    ensures Wrap(c, []) == c
  {
  }

  lemma PeekProgress(s: string, i: nat, toks: string)
    requires i <= |s| && Peek(s, i, toks)
    ensures GetToken(s, SkipSpace(s, i)).kind != End
  {
  }

  ghost predicate ArgsComplete(whole: Result<Simple>, argv: seq<Span>, redirs: seq<Redirection>, rest: Result<Simple>) {
    whole == if rest.Panic? then Panic else Ok(Simple(argv + rest.value.argv, redirs + rest.value.redirs), rest.next)
  }

  lemma ArgsTurn(s: string, i: nat, whole: Result<Simple>, argv: seq<Span>, redirs: seq<Redirection>)
    requires i <= |s| && !Peek(s, i, "|)&;") && ArgsComplete(whole, argv, redirs, ParseArgs(s, i, |argv|))
    ensures var w := GetToken(s, SkipSpace(s, i));
            && (w.kind == End ==> whole == Ok(Simple(argv, redirs), w.next))
            && (w.kind != End && (w.kind != Word || |argv| + 1 >= MAXARGS) ==> whole == Panic)
            && (w.kind == Word && |argv| + 1 < MAXARGS ==>
                  var rs := ParseRedirs(s, w.next);
                  if rs.Panic? then whole == Panic
                  else ArgsComplete(whole, argv + [Span(w.q, w.eq)], redirs + rs.value,
                                    ParseArgs(s, rs.next, |argv| + 1)))
  {
    hide GetToken, SkipSpace, Peek, ParseRedirs;
    var w := GetToken(s, SkipSpace(s, i));
    if w.kind == End {
      assert argv + [] == argv && redirs + [] == redirs;
    } else if w.kind == Word && |argv| + 1 < MAXARGS {
      var rs := ParseRedirs(s, w.next);
      if rs.Ok? && ParseArgs(s, rs.next, |argv| + 1).Ok? {
        var rest := ParseArgs(s, rs.next, |argv| + 1).value;
        Assoc(argv, [Span(w.q, w.eq)], rest.argv);
        Assoc(redirs, rs.value, rest.redirs);
      }
    }
  }

  lemma Assoc<T>(a: seq<T>, b: seq<T>, c: seq<T>)
    ensures a + (b + c) == a + b + c
  {
  }

  /** The word goes to the exec node, which redirections met before it have wrapped already. */
  function AddWord(c: Cmd<Span>, w: Span): Cmd<Span> {
    match c
    case Exec(argv) => Exec(argv + [w])
    case Redir(d, file, mode) => Redir(AddWord(d, w), file, mode)
    case _ => c
  }

  lemma {:induction false} AddWordInside(argv: seq<Span>, rs: seq<Redirection>, w: Span)
    ensures AddWord(Wrap(Exec(argv), rs), w) == Wrap(Exec(argv + [w]), rs)
    decreases |rs|
  {
    if rs != [] {
      AddWordInside(argv, rs[..|rs| - 1], w);
    }
  }

  lemma {:induction false} WrapTwice(c: Cmd<Span>, rs: seq<Redirection>, more: seq<Redirection>)
    ensures Wrap(Wrap(c, rs), more) == Wrap(c, rs + more)
    decreases |more|
  {
    if more == [] {
      assert rs + more == rs;
    } else {
      var m := |more| - 1;
      WrapTwice(c, rs, more[..m]);
      assert (rs + more)[..|rs| + m] == rs + more[..m];
    }
  }

  /** parseexec's loop over words and redirections. */
  method ParseArgsAt(c: Cmd<Span>, ghost rs0: seq<Redirection>, s: string, ps: nat)
    returns (ok: bool, ret: Cmd<Span>, next: nat)
    requires ps <= |s| && c == Wrap(Exec([]), rs0)
    ensures ok == ParseArgs(s, ps, 0).Ok? && ps <= next <= |s|
    ensures ok ==> var args := ParseArgs(s, ps, 0);
                   ret == Wrap(Exec(args.value.argv), rs0 + args.value.redirs) && next == args.next
  {
    hide GetToken, SkipSpace, Peek, ParseRedirs, Wrap;
    ghost var argv: seq<Span>, redirs: seq<Redirection> := [], [];
    ghost var whole := ParseArgs(s, ps, 0);
    assert whole.Ok? ==> [] + whole.value.argv == whole.value.argv && [] + whole.value.redirs == whole.value.redirs;
    assert rs0 + [] == rs0;
    ret := c;
    var argc := 0;
    ghost var at := ps;
    var stop;
    stop, next := PeekAt(s, ps, "|)&;");
    while !stop
      invariant ps <= at <= next <= |s| && next == SkipSpace(s, at) && stop == Peek(s, at, "|)&;")
      invariant ArgsComplete(whole, argv, redirs, ParseArgs(s, at, |argv|)) && argc == |argv|
      invariant ret == Wrap(Exec(argv), rs0 + redirs)
      decreases |s| - at
    {
      ArgsTurn(s, at, whole, argv, redirs);
      var w := GetTokenAt(s, next);
      if w.kind == End {
        return true, ret, w.next;
      }
      if w.kind != Word || argc + 1 >= MAXARGS {
        return false, ret, w.next;
      }
      AddWordInside(argv, rs0 + redirs, Span(w.q, w.eq));
      ret, argc := AddWord(ret, Span(w.q, w.eq)), argc + 1;
      argv := argv + [Span(w.q, w.eq)];
      ghost var rs;
      ok, ret, next, rs := ParseRedirsAt(ret, s, w.next);
      if !ok {
        return;
      }
      WrapTwice(Exec(argv), rs0 + redirs, rs);
      Assoc(rs0, redirs, rs);
      redirs := redirs + rs;
      at := next;
      stop, next := PeekAt(s, next, "|)&;");
    }
    assert argv + [] == argv && redirs + [] == redirs;
    ok := true;
  }

  method ParseExecAt(s: string, ps: nat) returns (ok: bool, ret: Cmd<Span>, next: nat)
    requires ps <= |s|
    ensures ok == ParseExec(s, ps).Ok? && ps <= next <= |s|
    ensures ok ==> ParseExec(s, ps) == Ok(ret, next)
    decreases |s| - ps, 1
  {
    hide GetToken, SkipSpace, Peek, ParseRedirs, ParseArgs, ParseBlock, Wrap;
    var block;
    block, next := PeekAt(s, ps, "(");
    if block {
      ok, ret, next := ParseBlockAt(s, next);
      return;
    }
    ghost var rs;
    ok, ret, next, rs := ParseRedirsAt(Exec([]), s, next);
    if ok {
      ok, ret, next := ParseArgsAt(ret, rs, s, next);
    }
  }

  method ParseBlockAt(s: string, ps: nat) returns (ok: bool, cmd: Cmd<Span>, next: nat)
    requires ps <= |s|
    ensures ok == ParseBlock(s, ps).Ok? && ps <= next <= |s|
    ensures ok ==> ParseBlock(s, ps) == Ok(cmd, next)
    decreases |s| - ps, 0
  {
    hide SkipSpace, ParseRedirs, ParseLine, Wrap;
    var hit;
    hit, next := PeekAt(s, ps, "(");
    if !hit {
      return false, Exec([]), next;
    }
    var open := GetTokenAt(s, next);
    ok, cmd, next := ParseLineAt(s, open.next);
    if !ok {
      return;
    }
    hit, next := PeekAt(s, next, ")");
    if !hit {
      return false, cmd, next;
    }
    var close := GetTokenAt(s, next);
    ghost var rs;
    ok, cmd, next, rs := ParseRedirsAt(cmd, s, close.next);
  }

  method ParsePipeAt(s: string, ps: nat) returns (ok: bool, cmd: Cmd<Span>, next: nat)
    requires ps <= |s|
    ensures ok == ParsePipe(s, ps).Ok? && ps <= next <= |s|
    ensures ok ==> ParsePipe(s, ps) == Ok(cmd, next)
    decreases |s| - ps, 2
  {
    hide SkipSpace, ParseExec;
    ok, cmd, next := ParseExecAt(s, ps);
    if !ok {
      return;
    }
    var hit;
    hit, next := PeekAt(s, next, "|");
    if hit {
      var bar := GetTokenAt(s, next);
      var right;
      ok, right, next := ParsePipeAt(s, bar.next);
      cmd := Pipe(cmd, right);
    }
  }

  method ParseLineAt(s: string, ps: nat) returns (ok: bool, cmd: Cmd<Span>, next: nat)
    requires ps <= |s|
    ensures ok == ParseLine(s, ps).Ok? && ps <= next <= |s|
    ensures ok ==> ParseLine(s, ps) == Ok(cmd, next)
    decreases |s| - ps, 3
  {
    hide SkipSpace, ParsePipe;
    ok, cmd, next := ParsePipeAt(s, ps);
    if !ok {
      return;
    }
    ghost var whole := ParseBacks(s, next, cmd);
    ghost var at := next;
    var hit;
    hit, next := PeekAt(s, next, "&");
    while hit
      invariant ps <= at <= next <= |s| && next == SkipSpace(s, at) && hit == Peek(s, at, "&")
      invariant ParseBacks(s, at, cmd) == whole
      decreases |s| - at
    {
      var amp := GetTokenAt(s, next);
      PeekProgress(s, at, "&");
      cmd := Back(cmd);
      at := amp.next;
      hit, next := PeekAt(s, amp.next, "&");
    }
    hit, next := PeekAt(s, next, ";");
    if hit {
      var semi := GetTokenAt(s, next);
      var right;
      ok, right, next := ParseLineAt(s, semi.next);
      cmd := List(cmd, right);
    }
  }

  method ParseCmdAt(s: string) returns (ok: bool, cmd: Cmd<Span>)
    ensures ok == ParseCmd(s).Ok?
    ensures ok ==> cmd == ParseCmd(s).value
  {
    hide SkipSpace, ParseLine;
    var next;
    ok, cmd, next := ParseLineAt(s, 0);
    if ok {
      var hit;
      hit, next := PeekAt(s, next, "");
      ok := next == |s|;
    }
  }

  // ----- What the parser returns are the words of the line -----

  /** A maximal run of word characters. */
  predicate Lexeme(s: string, w: Span) {
    w.q < w.eq <= |s| && (forall k :: w.q <= k < w.eq ==> WordChar(s[k])) && (w.eq < |s| ==> !WordChar(s[w.eq]))
  }

  predicate AllLexemes(s: string, c: Cmd<Span>) {
    match c
    case Exec(argv) => |argv| < MAXARGS && forall k :: 0 <= k < |argv| ==> Lexeme(s, argv[k])
    case Redir(d, file, _) => AllLexemes(s, d) && Lexeme(s, file)
    case Pipe(l, r) => AllLexemes(s, l) && AllLexemes(s, r)
    case List(l, r) => AllLexemes(s, l) && AllLexemes(s, r)
    case Back(d) => AllLexemes(s, d)
  }

  lemma WordIsLexeme(s: string, i: nat)
    requires i <= |s| && GetToken(s, i).kind == Word
    ensures Lexeme(s, Span(GetToken(s, i).q, GetToken(s, i).eq))
  {
    var q := SkipSpace(s, i);
    assert WordChar(s[q]);
    assert WordEnd(s, q) > q;
  }

  ghost predicate RedirLexemes(s: string, rs: seq<Redirection>) {
    forall k :: 0 <= k < |rs| ==> Lexeme(s, rs[k].file)
  }

  lemma {:induction false} RedirsAreLexemes(s: string, i: nat)
    requires i <= |s| && ParseRedirs(s, i).Ok?
    ensures RedirLexemes(s, ParseRedirs(s, i).value)
    decreases |s| - i
  {
    hide GetToken, SkipSpace, Peek, Lexeme, ModeOf;
    if Peek(s, i, "<>") {
      var op := GetToken(s, SkipSpace(s, i));
      var w := GetToken(s, op.next);
      PeekProgress(s, i, "<>");
      WordIsLexeme(s, op.next);
      RedirsAreLexemes(s, w.next);
    }
  }

  lemma {:induction false} ArgsAreLexemes(s: string, i: nat, argc: nat)
    requires i <= |s| && ParseArgs(s, i, argc).Ok? && argc < MAXARGS
    ensures var v := ParseArgs(s, i, argc).value;
            RedirLexemes(s, v.redirs) && argc + |v.argv| < MAXARGS && forall k :: 0 <= k < |v.argv| ==>
              Lexeme(s, v.argv[k])
    decreases |s| - i
  {
    hide GetToken, SkipSpace, Peek, Lexeme, ParseRedirs;
    if !Peek(s, i, "|)&;") {
      var w := GetToken(s, SkipSpace(s, i));
      if w.kind != End {
        var rs := ParseRedirs(s, w.next);
        WordIsLexeme(s, SkipSpace(s, i));
        RedirsAreLexemes(s, w.next);
        ArgsAreLexemes(s, rs.next, argc + 1);
      }
    }
  }

  lemma {:induction false} WrapLexemes(s: string, c: Cmd<Span>, rs: seq<Redirection>)
    requires AllLexemes(s, c) && RedirLexemes(s, rs)
    ensures AllLexemes(s, Wrap(c, rs))
    decreases |rs|
  {
    if rs != [] {
      WrapLexemes(s, c, rs[..|rs| - 1]);
    }
  }

  lemma ExecLexemes(s: string, i: nat)
    requires i <= |s| && ParseExec(s, i).Ok?
    ensures AllLexemes(s, ParseExec(s, i).value)
    decreases |s| - i, 1
  {
    hide GetToken, SkipSpace, ParseRedirs, ParseArgs, ParseBlock, Wrap, Lexeme;
    if Peek(s, i, "(") {
      BlockLexemes(s, SkipSpace(s, i));
    } else {
      var rs := ParseRedirs(s, SkipSpace(s, i));
      RedirsAreLexemes(s, SkipSpace(s, i));
      ArgsAreLexemes(s, rs.next, 0);
      var args := ParseArgs(s, rs.next, 0);
      WrapLexemes(s, Exec(args.value.argv), rs.value + args.value.redirs);
    }
  }

  lemma BlockLexemes(s: string, i: nat)
    requires i <= |s| && ParseBlock(s, i).Ok?
    ensures AllLexemes(s, ParseBlock(s, i).value)
    decreases |s| - i, 0
  {
    hide SkipSpace, ParseRedirs, ParseLine, Wrap, Lexeme;
    var open := GetToken(s, SkipSpace(s, i));
    PeekProgress(s, i, "(");
    LineLexemes(s, open.next);
    var c := ParseLine(s, open.next);
    var close := GetToken(s, SkipSpace(s, c.next));
    RedirsAreLexemes(s, close.next);
    WrapLexemes(s, c.value, ParseRedirs(s, close.next).value);
  }

  lemma PipeLexemes(s: string, i: nat)
    requires i <= |s| && ParsePipe(s, i).Ok?
    ensures AllLexemes(s, ParsePipe(s, i).value)
    decreases |s| - i, 2
  {
    hide SkipSpace, ParseExec, Lexeme, GetToken;
    ExecLexemes(s, i);
    var left := ParseExec(s, i);
    if Peek(s, left.next, "|") {
      PeekProgress(s, left.next, "|");
      PipeLexemes(s, GetToken(s, SkipSpace(s, left.next)).next);
    }
  }

  lemma {:induction false} BacksLexemes(s: string, i: nat, c: Cmd<Span>)
    requires i <= |s| && AllLexemes(s, c)
    ensures AllLexemes(s, ParseBacks(s, i, c).value)
    decreases |s| - i
  {
    hide SkipSpace, Lexeme, GetToken;
    if Peek(s, i, "&") {
      PeekProgress(s, i, "&");
      BacksLexemes(s, GetToken(s, SkipSpace(s, i)).next, Back(c));
    }
  }

  lemma LineLexemes(s: string, i: nat)
    requires i <= |s| && ParseLine(s, i).Ok?
    ensures AllLexemes(s, ParseLine(s, i).value)
    decreases |s| - i, 3
  {
    hide SkipSpace, ParsePipe, ParseBacks, Lexeme, GetToken;
    PipeLexemes(s, i);
    var first := ParsePipe(s, i);
    BacksLexemes(s, first.next, first.value);
    var c := ParseBacks(s, first.next, first.value);
    if Peek(s, c.next, ";") {
      PeekProgress(s, c.next, ";");
      LineLexemes(s, GetToken(s, SkipSpace(s, c.next)).next);
    }
  }

  // ----- nulterminate -----

  /** The buffer after nulterminate: a NUL at the end of every word of the command. */
  function NulTerminated(t: seq<char>, c: Cmd<Span>): (r: seq<char>)
    ensures |r| == |t|
    decreases c
  {
    match c
    case Exec(argv) => NulWords(t, argv)
    case Redir(d, file, _) => PutNul(NulTerminated(t, d), file.eq)
    case Pipe(l, r) => NulTerminated(NulTerminated(t, l), r)
    case List(l, r) => NulTerminated(NulTerminated(t, l), r)
    case Back(d) => NulTerminated(t, d)
  }

  function PutNul(t: seq<char>, i: nat): (r: seq<char>)
    ensures |r| == |t|
  {
    if i < |t| then t[i := '\0'] else t
  }

  function NulWords(t: seq<char>, argv: seq<Span>): (r: seq<char>)
    ensures |r| == |t|
  {
    if argv == [] then t else PutNul(NulWords(t, argv[..|argv| - 1]), argv[|argv| - 1].eq)
  }

  method Nulterminate(buf: array<char>, s: string, c: Cmd<Span>)
    requires buf.Length == |s| + 1 && AllLexemes(s, c)
    modifies buf
    ensures buf[..] == NulTerminated(old(buf[..]), c)
    decreases c
  {
    match c
    case Exec(argv) =>
      ghost var t := buf[..];
      for i := 0 to |argv|
        invariant buf[..] == NulWords(t, argv[..i])
      {
        assert Lexeme(s, argv[i]);
        buf[argv[i].eq] := '\0';
        assert argv[..i + 1][..i] == argv[..i];
      }
      assert argv[..|argv|] == argv;
    case Redir(d, file, _) =>
      Nulterminate(buf, s, d);
      buf[file.eq] := '\0';
    case Pipe(l, r) =>
      Nulterminate(buf, s, l);
      Nulterminate(buf, s, r);
    case List(l, r) =>
      Nulterminate(buf, s, l);
      Nulterminate(buf, s, r);
    case Back(d) =>
      Nulterminate(buf, s, d);
  }

  /** The line's word characters are all still there, and once a NUL, always a NUL. */
  ghost predicate Intact(s: string, t: seq<char>, r: seq<char>) {
    && |r| == |t| == |s| + 1
    && (forall k :: 0 <= k < |s| && WordChar(s[k]) ==> r[k] == t[k])
    && (forall k :: 0 <= k < |t| && t[k] == '\0' ==> r[k] == '\0')
  }

  lemma PutNulIntact(s: string, t: seq<char>, w: Span)
    requires |t| == |s| + 1 && Lexeme(s, w)
    ensures Intact(s, t, PutNul(t, w.eq)) && PutNul(t, w.eq)[w.eq] == '\0'
  {
  }

  lemma IntactTrans(s: string, t: seq<char>, r: seq<char>, u: seq<char>)
    requires Intact(s, t, r) && Intact(s, r, u)
    ensures Intact(s, t, u)
  {
  }

  lemma {:induction false} WordsIntact(s: string, t: seq<char>, argv: seq<Span>)
    requires |t| == |s| + 1 && forall k :: 0 <= k < |argv| ==> Lexeme(s, argv[k])
    ensures Intact(s, t, NulWords(t, argv)) && forall k :: 0 <= k < |argv| ==>
              Lexeme(s, argv[k]) && NulWords(t, argv)[argv[k].eq] == '\0'
    decreases |argv|
  {
    if argv != [] {
      var most, last := argv[..|argv| - 1], argv[|argv| - 1];
      WordsIntact(s, t, most);
      PutNulIntact(s, NulWords(t, most), last);
      IntactTrans(s, t, NulWords(t, most), NulWords(t, argv));
      forall k | 0 <= k < |argv| ensures Lexeme(s, argv[k]) && NulWords(t, argv)[argv[k].eq] == '\0' {
        if k < |most| { assert NulWords(t, most)[most[k].eq] == '\0'; }
      }
    }
  }

  /** w is one of the words of c. */
  predicate HasWord(c: Cmd<Span>, w: Span) {
    match c
    case Exec(argv) => w in argv
    case Redir(d, file, _) => w == file || HasWord(d, w)
    case Pipe(l, r) => HasWord(l, w) || HasWord(r, w)
    case List(l, r) => HasWord(l, w) || HasWord(r, w)
    case Back(d) => HasWord(d, w)
  }

  lemma {:induction false} CommandIntact(s: string, t: seq<char>, c: Cmd<Span>)
    requires |t| == |s| + 1 && AllLexemes(s, c)
    ensures Intact(s, t, NulTerminated(t, c))
    decreases c
  {
    hide Intact, Lexeme;
    match c
    case Exec(argv) => WordsIntact(s, t, argv);
    case Redir(d, file, _) =>
      CommandIntact(s, t, d);
      PutNulIntact(s, NulTerminated(t, d), file);
      IntactTrans(s, t, NulTerminated(t, d), NulTerminated(t, c));
    case Pipe(l, r) =>
      CommandIntact(s, t, l);
      CommandIntact(s, NulTerminated(t, l), r);
      IntactTrans(s, t, NulTerminated(t, l), NulTerminated(t, c));
    case List(l, r) =>
      CommandIntact(s, t, l);
      CommandIntact(s, NulTerminated(t, l), r);
      IntactTrans(s, t, NulTerminated(t, l), NulTerminated(t, c));
    case Back(d) => CommandIntact(s, t, d);
  }

  lemma {:induction false} WordEnds(s: string, t: seq<char>, c: Cmd<Span>, w: Span)
    requires |t| == |s| + 1 && AllLexemes(s, c) && HasWord(c, w)
    ensures Lexeme(s, w) && NulTerminated(t, c)[w.eq] == '\0'
    decreases c
  {
    match c
    case Exec(argv) => WordsIntact(s, t, argv);
    case Redir(d, file, _) =>
      if w != file { WordEnds(s, t, d, w); }
    case Pipe(l, r) => EndsInTwo(s, t, l, r, w);
      if HasWord(r, w) { WordEnds(s, NulTerminated(t, l), r, w); } else { WordEnds(s, t, l, w); }
    case List(l, r) => EndsInTwo(s, t, l, r, w);
      if HasWord(r, w) { WordEnds(s, NulTerminated(t, l), r, w); } else { WordEnds(s, t, l, w); }
    case Back(d) => WordEnds(s, t, d, w);
  }

  lemma EndsInTwo(s: string, t: seq<char>, l: Cmd<Span>, r: Cmd<Span>, w: Span)
    requires |t| == |s| + 1 && AllLexemes(s, l) && AllLexemes(s, r)
    ensures w.eq <= |s| && NulTerminated(t, l)[w.eq] == '\0' ==> NulTerminated(NulTerminated(t, l), r)[w.eq] == '\0'
  {
    CommandIntact(s, NulTerminated(t, l), r);
  }

  /** The C string at q: up to the first NUL. */
  function CString(t: seq<char>, q: nat): string
    requires q <= |t|
    decreases |t| - q
  {
    if q == |t| || t[q] == '\0' then "" else [t[q]] + CString(t, q + 1)
  }

  lemma {:induction false} CStringIs(t: seq<char>, q: nat, eq: nat)
    requires q <= eq < |t| && t[eq] == '\0' && forall k :: q <= k < eq ==> t[k] != '\0'
    ensures CString(t, q) == t[q..eq]
    decreases eq - q
  {
    if q < eq {
      CStringIs(t, q + 1, eq);
      assert t[q..eq] == [t[q]] + t[q + 1..eq];
    }
  }

  /** After nulterminate, every word of a parsed command is, as a C string, the token that was read. */
  lemma WordsAreCStrings(s: string, w: Span)
    requires (forall k :: 0 <= k < |s| ==> s[k] != '\0') && ParseCmd(s).Ok? && HasWord(ParseCmd(s).value, w)
    ensures w.q < w.eq <= |s|
    ensures CString(NulTerminated(s + ['\0'], ParseCmd(s).value), w.q) == s[w.q..w.eq] == Text(s, w)
  {
    hide ParseLine, SkipSpace;
    var c, t := ParseCmd(s).value, s + ['\0'];
    LineLexemes(s, 0);
    CommandIntact(s, t, c);
    WordEnds(s, t, c, w);
    var r := NulTerminated(t, c);
    forall k | w.q <= k < w.eq ensures r[k] == s[k] {
      assert WordChar(s[k]) && t[k] == s[k];
    }
    CStringIs(r, w.q, w.eq);
    assert r[w.q..w.eq] == s[w.q..w.eq];
  }
}
