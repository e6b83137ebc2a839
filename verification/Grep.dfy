/** user/grep.c: the matcher against the language of a pattern, and the line loop against its input. Strings
    are the characters before a C string's NUL. */
module Grep {
  // ----- The matcher -----

  predicate Fits(c: char, x: char) {
    c == '.' || c == x
  }

  function MatchHere(re: string, text: string): bool
    decreases |re|, |text|, 0
  {
    if re == "" then true
    else if |re| > 1 && re[1] == '*' then MatchStar(re[0], re[2..], text)
    else if re == "$" then text == ""
    else text != "" && Fits(re[0], text[0]) && MatchHere(re[1..], text[1..])
  }

  function MatchStar(c: char, re: string, text: string): bool
    decreases |re|, |text|, 1
  {
    MatchHere(re, text) || (text != "" && Fits(c, text[0]) && MatchStar(c, re, text[1..]))
  }

  /** Some suffix of text has a match at its start. */
  function MatchAnywhere(re: string, text: string): bool
    decreases |text|
  {
    MatchHere(re, text) || (text != "" && MatchAnywhere(re, text[1..]))
  }

  function Match(re: string, text: string): bool {
    if re != "" && re[0] == '^' then MatchHere(re[1..], text) else MatchAnywhere(re, text)
  }

  // ----- The language of a pattern -----

  /** A pattern is a list of single characters and starred ones, '.' standing for any; `atEnd` is a final $. */
  datatype Item = One(c: char) | Many(c: char)

  datatype Pattern = Pattern(items: seq<Item>, atEnd: bool)

  function Parse(re: string): Pattern {
    if re == "" then Pattern([], false)
    else if |re| > 1 && re[1] == '*' then var p := Parse(re[2..]); p.(items := [Many(re[0])] + p.items)
    else if re == "$" then Pattern([], true)
    else var p := Parse(re[1..]); p.(items := [One(re[0])] + p.items)
  }

  /** u is a word of the language: it splits into one piece per item. */
  ghost predicate InLang(items: seq<Item>, u: string)
    decreases |items|
  {
    if items == [] then u == ""
    else match items[0]
      case One(c) => u != "" && Fits(c, u[0]) && InLang(items[1..], u[1..])
      case Many(c) => exists k :: 0 <= k <= |u| && AllFit(c, u[..k]) && InLang(items[1..], u[k..])
  }

  predicate AllFit(c: char, u: string) {
    forall i :: 0 <= i < |u| ==> Fits(c, u[i])
  }

  /** text starts with a word of the language, followed by nothing if the pattern ends in $. */
  ghost predicate Starts(p: Pattern, text: string) {
    exists j :: 0 <= j <= |text| && InLang(p.items, text[..j]) && (p.atEnd ==> j == |text|)
  }

  lemma StartsNone(atEnd: bool, text: string)
    ensures Starts(Pattern([], atEnd), text) <==> !atEnd || text == ""
  {
    assert text[..0] == "";
    if !atEnd || text == "" {
      assert InLang([], text[..0]);
    }
  }

  lemma StartsOne(c: char, p: Pattern, text: string)
    ensures Starts(p.(items := [One(c)] + p.items), text) <==> text != "" && Fits(c, text[0]) && Starts(p, text[1..])
  {
    var q := p.(items := [One(c)] + p.items);
    assert q.items[1..] == p.items;
    if Starts(q, text) {
      var j :| 0 <= j <= |text| && InLang(q.items, text[..j]) && (q.atEnd ==> j == |text|);
      assert text[..j][1..] == text[1..][..j - 1];
    }
    if text != "" && Fits(c, text[0]) && Starts(p, text[1..]) {
      var j :| 0 <= j <= |text[1..]| && InLang(p.items, text[1..][..j]) && (p.atEnd ==> j == |text[1..]|);
      assert text[..j + 1][1..] == text[1..][..j];
      assert InLang(q.items, text[..j + 1]);
    }
  }

  /** What a star allows: zero or more characters, then the rest of the pattern. */
  ghost predicate StarSplit(c: char, p: Pattern, text: string) {
    exists k :: StarAt(c, p, text, k)
  }

  /** The star takes the first k characters. */
  ghost predicate StarAt(c: char, p: Pattern, text: string, k: int) {
    0 <= k <= |text| && AllFit(c, text[..k]) && Starts(p, text[k..])
  }

  lemma StartsMany(c: char, p: Pattern, text: string)
    ensures Starts(p.(items := [Many(c)] + p.items), text) <==> StarSplit(c, p, text)
  {
    var q := p.(items := [Many(c)] + p.items);
    assert q.items[1..] == p.items;
    if Starts(q, text) {
      var j :| 0 <= j <= |text| && InLang(q.items, text[..j]) && (q.atEnd ==> j == |text|);
      var k :| 0 <= k <= j && AllFit(c, text[..j][..k]) && InLang(p.items, text[..j][k..]);
      assert text[..j][..k] == text[..k] && text[..j][k..] == text[k..][..j - k];
      assert StarAt(c, p, text, k);
    }
    if StarSplit(c, p, text) {
      var k :| StarAt(c, p, text, k);
      var j :| 0 <= j <= |text[k..]| && InLang(p.items, text[k..][..j]) && (p.atEnd ==> j == |text[k..]|);
      var u := text[..k + j];
      assert u[..k] == text[..k] && u[k..] == text[k..][..j];
      assert InLang(q.items, u);
    }
  }

  lemma StarTakesMore(c: char, p: Pattern, text: string, k: nat)
    requires text != "" && k < |text|
    ensures StarAt(c, p, text, k + 1) <==> Fits(c, text[0]) && StarAt(c, p, text[1..], k)
  {
    hide Starts;
    var rest := text[1..];
    assert text[..k + 1] == [text[0]] + rest[..k] && text[k + 1..] == rest[k..];
    AllFitCons(c, text[0], rest[..k]);
  }

  lemma AllFitCons(c: char, x: char, u: string)
    ensures AllFit(c, [x] + u) <==> Fits(c, x) && AllFit(c, u)
  {
    if AllFit(c, [x] + u) {
      assert Fits(c, ([x] + u)[0]);
      forall i | 0 <= i < |u| ensures Fits(c, u[i]) {
        assert Fits(c, ([x] + u)[i + 1]);
      }
    }
  }

  lemma StarTakesNone(c: char, p: Pattern, text: string)
    ensures StarAt(c, p, text, 0) <==> Starts(p, text)
  {
    assert text[0..] == text;
  }

  // Zero characters, or one and then more.
  lemma StarUnroll(c: char, p: Pattern, text: string)
    ensures StarSplit(c, p, text) <==> Starts(p, text) || (text != "" && Fits(c, text[0]) && StarSplit(c, p, text[1..]))
  {
    StarTakesNone(c, p, text);
    if StarSplit(c, p, text) {
      var k :| StarAt(c, p, text, k);
      if k > 0 {
        StarTakesMore(c, p, text, k - 1);
      }
    }
    if text != "" && Fits(c, text[0]) && StarSplit(c, p, text[1..]) {
      var k :| StarAt(c, p, text[1..], k);
      StarTakesMore(c, p, text, k);
    }
  }

  lemma {:induction false} MatchHereMeans(re: string, text: string)
    ensures MatchHere(re, text) <==> Starts(Parse(re), text)
    decreases |re|, |text|, 0
  {
    hide Starts;
    if re == "" {
      StartsNone(false, text);
    } else if |re| > 1 && re[1] == '*' {
      MatchStarMeans(re[0], re[2..], text);
      StartsMany(re[0], Parse(re[2..]), text);
    } else if re == "$" {
      StartsNone(true, text);
    } else {
      StartsOne(re[0], Parse(re[1..]), text);
      if text != "" {
        MatchHereMeans(re[1..], text[1..]);
      }
    }
  }

  lemma {:induction false} MatchStarMeans(c: char, re: string, text: string)
    ensures MatchStar(c, re, text) <==> StarSplit(c, Parse(re), text)
    decreases |re|, |text|, 1
  {
    hide Starts, StarSplit, Parse, MatchHere;
    MatchHereMeans(re, text);
    StarUnroll(c, Parse(re), text);
    if text != "" {
      MatchStarMeans(c, re, text[1..]);
    }
  }

  lemma {:induction false} MatchAnywhereMeans(re: string, text: string)
    ensures MatchAnywhere(re, text) <==> exists i :: 0 <= i <= |text| && Starts(Parse(re), text[i..])
    decreases |text|
  {
    hide Starts, Parse, MatchHere;
    MatchHereMeans(re, text);
    assert text[0..] == text;
    if text != "" {
      MatchAnywhereMeans(re, text[1..]);
      forall i | 0 < i <= |text| ensures text[i..] == text[1..][i - 1..] {
      }
      if exists i :: 0 <= i <= |text[1..]| && Starts(Parse(re), text[1..][i..]) {
        var i :| 0 <= i <= |text[1..]| && Starts(Parse(re), text[1..][i..]);
        assert text[i + 1..] == text[1..][i..];
      }
    }
  }

  /** match: with ^ the text starts with a word of the language, otherwise some suffix of it does; a final $
      makes the word reach the end. */
  lemma MatchMeans(re: string, text: string)
    ensures Match(re, text) <==>
              if re != "" && re[0] == '^' then Starts(Parse(re[1..]), text)
              else exists i :: 0 <= i <= |text| && Starts(Parse(re), text[i..])
  {
    if re != "" && re[0] == '^' {
      MatchHereMeans(re[1..], text);
    } else {
      MatchAnywhereMeans(re, text);
    }
  }

  /** match's loop. */
  method MatchText(re: string, text: string) returns (hit: bool)
    ensures hit == Match(re, text)
  {
    if re != "" && re[0] == '^' {
      return MatchHere(re[1..], text);
    }
    var i := 0;
    assert text[0..] == text;
    while true
      invariant 0 <= i <= |text| && MatchAnywhere(re, text) == MatchAnywhere(re, text[i..])
      decreases |text| - i
    {
      if MatchHere(re, text[i..]) {
        return true;
      }
      if i == |text| {
        return false;
      }
      assert text[i..][1..] == text[i + 1..];
      i := i + 1;
    }
  }

  /** matchstar's loop. */
  method MatchStarText(c: char, re: string, text: string) returns (hit: bool)
    ensures hit == MatchStar(c, re, text)
  {
    var i := 0;
    assert text[0..] == text;
    while true
      invariant 0 <= i <= |text| && MatchStar(c, re, text) == MatchStar(c, re, text[i..])
      decreases |text| - i
    {
      if MatchHere(re, text[i..]) {
        return true;
      }
      if i == |text| || !Fits(c, text[i]) {
        return false;
      }
      assert text[i..][1..] == text[i + 1..];
      i := i + 1;
    }
  }

  // ----- Lines -----

  /** The position of the first newline, or the length. */
  function LineEnd(s: string): (q: nat)
    ensures q <= |s| && (q < |s| ==> s[q] == '\n') && forall k :: 0 <= k < q ==> s[k] != '\n'
  {
    if s == "" || s[0] == '\n' then 0 else 1 + LineEnd(s[1..])
  }

  /** The lines of s that match, newlines included, in order; an unfinished last line does not count. */
  function Output(re: string, s: string): string
    decreases |s|
  {
    var q := LineEnd(s);
    if q == |s| then "" else (if Match(re, s[..q]) then s[..q + 1] else "") + Output(re, s[q + 1..])
  }

  const BUFSIZE: nat := 1024

  predicate NulFree(s: string) {
    forall k :: 0 <= k < |s| ==> s[k] != '\0'
  }

  /** grep never gets past the first line of s: it is unfinished, too long for buf, or strchr stops at a NUL in it. */
  predicate Stuck(s: string) {
    var q := LineEnd(s);
    q == |s| || q + 1 >= BUFSIZE || !NulFree(s[..q])
  }

  /** The matching lines before the first one grep is stuck at, and what is left from there. */
  function Emitted(re: string, s: string): string
    decreases |s|
  {
    var q := LineEnd(s);
    if Stuck(s) then "" else (if Match(re, s[..q]) then s[..q + 1] else "") + Emitted(re, s[q + 1..])
  }

  function Rest(s: string): string
    decreases |s|
  {
    if Stuck(s) then s else Rest(s[LineEnd(s) + 1..])
  }

  /** Every finished line fits buf beside its NUL, and has none inside. */
  predicate Plain(s: string)
    decreases |s|
  {
    LineEnd(s) == |s| || (!Stuck(s) && Plain(s[LineEnd(s) + 1..]))
  }

  lemma {:induction false} PlainComplete(re: string, s: string)
    requires Plain(s)
    ensures Emitted(re, s) == Output(re, s)
    decreases |s|
  {
    hide Match, LineEnd, NulFree;
    if LineEnd(s) < |s| {
      PlainComplete(re, s[LineEnd(s) + 1..]);
    }
  }

  // The empty pattern matches every line.
  lemma {:induction false} Misses(s: string)
    requires !Plain(s)
    ensures |Emitted("", s)| < |Output("", s)|
    decreases |s|
  {
    hide LineEnd, NulFree;
    if !Stuck(s) {
      Misses(s[LineEnd(s) + 1..]);
    }
  }

  /** grep prints all the matching lines of its input, for every pattern, exactly when the input is plain. */
  lemma CompleteIff(s: string)
    ensures (forall re :: Emitted(re, s) == Output(re, s)) <==> Plain(s)
  {
    hide Emitted, Output, Plain;
    if Plain(s) {
      forall re ensures Emitted(re, s) == Output(re, s) {
        PlainComplete(re, s);
      }
    } else {
      Misses(s);
      assert Emitted("", s) != Output("", s);
    }
  }

  lemma LineEndIs(s: string, q: nat)
    requires q <= |s| && (q < |s| ==> s[q] == '\n') && forall k :: 0 <= k < q ==> s[k] != '\n'
    ensures LineEnd(s) == q
  {
  }

  lemma FirstLine(a: string, b: string)
    requires LineEnd(a) < |a|
    ensures var q := LineEnd(a);
            && LineEnd(a + b) == q && (a + b)[..q] == a[..q] && (a + b)[..q + 1] == a[..q + 1] &&
              (a + b)[q + 1..] == a[q + 1..] + b
  {
    LineEndIs(a + b, LineEnd(a));
  }

  // Input that comes in pieces: what the first leaves the second continues.
  lemma {:induction false} Pieces(re: string, a: string, b: string)
    ensures Emitted(re, a + b) == Emitted(re, a) + Emitted(re, Rest(a) + b) && Rest(a + b) == Rest(Rest(a) + b)
    decreases |a|
  {
    hide Match, LineEnd, NulFree;
    var q := LineEnd(a);
    if !Stuck(a) {
      FirstLine(a, b);
      Pieces(re, a[q + 1..], b);
      Glue(if Match(re, a[..q]) then a[..q + 1] else "", Emitted(re, a[q + 1..]), Emitted(re, Rest(a) + b));
    }
  }

  lemma Glue(x: string, y: string, z: string)
    ensures x + (y + z) == x + y + z
  {
  }

  lemma {:induction false} RestStuck(s: string)
    ensures Stuck(Rest(s))
    decreases |s|
  {
    hide LineEnd, NulFree;
    if !Stuck(s) {
      RestStuck(s[LineEnd(s) + 1..]);
    }
  }

  // With buf full, nothing that follows helps.
  lemma FullBuffer(t: string, b: string)
    requires Stuck(t) && |t| >= BUFSIZE - 1
    ensures Stuck(t + b)
  {
    if LineEnd(t) < |t| {
      FirstLine(t, b);
    } else {
      var q := LineEnd(t + b);
      assert forall k :: 0 <= k < |t| ==> (t + b)[k] == t[k];
      assert q >= |t|;
    }
  }

  /** The first newline from p on, among the characters up to m, or the NUL there. */
  method FindNewline(buf: array<char>, p: nat, m: nat) returns (q: nat)
    requires p <= m < buf.Length && buf[m] == '\0' && m < BUFSIZE
    ensures p <= q <= m && buf[q] == if Stuck(buf[p..m]) then '\0' else '\n'
    ensures buf[q] == '\n' ==> q < m && q - p == LineEnd(buf[p..m])
  {
    q := p;
    while buf[q] != '\0' && buf[q] != '\n'
      invariant p <= q <= m && forall k :: p <= k < q ==> buf[k] != '\n' && buf[k] != '\0'
      decreases m - q
    {
      q := q + 1;
    }
    ghost var t := buf[p..m];
    if buf[q] == '\n' {
      assert t[q - p] == buf[q];
      LineEndIs(t, q - p);
    } else if q < m && LineEnd(t) < |t| {
      assert t[q - p] == '\0' && t[..LineEnd(t)][q - p] == '\0' by {
        assert LineEnd(t) > q - p by {
          assert forall k :: 0 <= k <= q - p ==> t[k] != '\n';
        }
      }
    }
  }

  /** One line: its newline is overwritten for the match, and put back to write it. */
  method OneLine(re: string, buf: array<char>, p: nat, q: nat) returns (more: string)
    requires p <= q < buf.Length && buf[q] == '\n'
    modifies buf
    ensures more == if Match(re, old(buf[p..q])) then old(buf[p..q + 1]) else ""
    ensures forall k :: 0 <= k < buf.Length && k != q ==> buf[k] == old(buf[k])
  {
    hide Match;
    ghost var line := buf[p..q];
    buf[q] := '\0';
    assert buf[p..q] == line;
    var hit := MatchText(re, buf[p..q]);
    more := "";
    if hit {
      buf[q] := '\n';
      more := buf[p..q + 1];
    }
  }

  /** The inner loop of grep: writes the matching lines of buf[..m] and says where what is left starts. */
  method Lines(re: string, buf: array<char>, m: nat) returns (p: nat, out: string)
    requires m < buf.Length && buf[m] == '\0' && m < BUFSIZE
    modifies buf
    ensures p <= m && out == Emitted(re, old(buf[..m])) && buf[p..m] == Rest(old(buf[..m]))
  {
    hide Match, Emitted, Rest, LineEnd, Stuck;
    ghost var s := buf[..m];
    p, out := 0, "";
    assert buf[0..m] == s;
    while true
      invariant p <= m && Emitted(re, s) == out + Emitted(re, buf[p..m]) && Rest(s) == Rest(buf[p..m])
      invariant buf[m] == '\0'
      decreases m - p
    {
      var q := FindNewline(buf, p, m);
      ghost var t := buf[p..m];
      if buf[q] == '\0' {
        NoMoreLines(re, t);
        return;
      }
      LineSplit(re, t);
      SliceParts(buf[..], p, q, m);
      var more := OneLine(re, buf, p, q);
      assert buf[q + 1..m] == t[q - p + 1..];
      Glue(out, more, Emitted(re, t[q - p + 1..]));
      out := out + more;
      p := q + 1;
    }
  }

  lemma SliceParts(b: string, p: nat, q: nat, m: nat)
    requires p <= q < m <= |b|
    ensures b[p..m][..q - p] == b[p..q] && b[p..m][..q - p + 1] == b[p..q + 1] && b[p..m][q - p] == b[q]
  {
  }

  lemma NoMoreLines(re: string, t: string)
    requires Stuck(t)
    ensures Emitted(re, t) == "" && Rest(t) == t
  {
  }

  lemma LineSplit(re: string, t: string)
    requires !Stuck(t)
    ensures var q := LineEnd(t);
            && q < |t| && Emitted(re, t) == (if Match(re, t[..q]) then t[..q + 1] else "") + Emitted(re, t[q + 1..])
            && Rest(t) == Rest(t[q + 1..])
  {
  }

  /** The m characters from p on move to the front of buf. */
  method Shift(buf: array<char>, p: nat, n: nat)
    requires p + n <= buf.Length
    modifies buf
    ensures buf[..n] == old(buf[p..p + n])
  {
    var k := 0;
    while k < n
      invariant k <= n
      invariant forall j :: 0 <= j < k ==> buf[j] == old(buf[p + j])
      invariant forall j :: p + k <= j < p + n ==> buf[j] == old(buf[j])
    {
      buf[k] := buf[p + k];
      k := k + 1;
    }
  }

  method CopyIn(buf: array<char>, m: nat, piece: string)
    requires m + |piece| <= buf.Length
    modifies buf
    ensures buf[..m + |piece|] == old(buf[..m]) + piece
  {
    var k := 0;
    while k < |piece|
      invariant k <= |piece| && buf[..m] == old(buf[..m])
      invariant forall j :: m <= j < m + k ==> buf[j] == piece[j - m]
    {
      buf[m + k] := piece[k];
      k := k + 1;
    }
  }

  /** grep: however read() splits the input, the output is its matching lines in order, up to the line it is
      stuck at. */
  method Grep(re: string, data: string) returns (out: string)
    ensures out == Emitted(re, data)
    ensures Plain(data) ==> out == Output(re, data)
  {
    hide Emitted, Rest, Stuck, Plain;
    var buf := new char[BUFSIZE](_ => '\0');
    var m, pos := 0, 0;
    out := "";
    GrepStart(re, data);
    while pos < |data| && m < BUFSIZE - 1
      invariant 0 <= m < BUFSIZE && 0 <= pos <= |data|
      invariant buf[..m] == Rest(data[..pos]) && out == Emitted(re, data[..pos])
      decreases |data| - pos
    {
      // read returns at least one byte, perhaps fewer than asked for
      var n :| 0 < n <= BUFSIZE - 1 - m && pos + n <= |data|;
      ghost var before, piece := data[..pos], data[pos..pos + n];
      CopyIn(buf, m, data[pos..pos + n]);
      Pieces(re, before, piece);
      assert data[..pos + n] == before + piece;
      m := m + n;
      buf[m] := '\0';
      assert buf[..m] == Rest(before) + piece;
      var p, more := Lines(re, buf, m);
      out := out + more;
      m := m - p;
      Shift(buf, p, m);
      pos := pos + n;
    }
    GrepEnd(re, data, pos);
    if Plain(data) {
      PlainComplete(re, data);
    }
  }

  lemma GrepStart(re: string, data: string)
    ensures Emitted(re, data[..0]) == "" && Rest(data[..0]) == ""
  {
  }

  // At the end of the input, or with buf full, nothing more would come out.
  lemma GrepEnd(re: string, data: string, pos: nat)
    requires pos <= |data| && (pos == |data| || |Rest(data[..pos])| >= BUFSIZE - 1)
    ensures Emitted(re, data[..pos]) == Emitted(re, data)
  {
    hide Rest, Stuck, LineEnd;
    var a, b := data[..pos], data[pos..];
    assert data == a + b;
    if pos < |data| {
      Pieces(re, a, b);
      RestStuck(a);
      FullBuffer(Rest(a), b);
    } else {
      assert data[..pos] == data;
    }
  }
}
