/** Character classes and string operations shared by both G-code parsers.
    They spell out the regular-expression pieces the parsers use (`\s`, `\d`,
    `\w`, the `i` flag) and the string methods they call (`split`, `trim`,
    `toUpperCase`). */
module Text {

  lemma ConsTail<T>(x: T, t: seq<T>)
    ensures ([x] + t)[1..] == t
  {
  }

  lemma Assoc<T>(a: seq<T>, b: seq<T>, c: seq<T>)
    ensures a + b + c == a + (b + c)
  {
  }

  lemma DropTake<T>(s: seq<T>, a: nat, n: nat)
    requires a + n <= |s|
    ensures s[a..][..n] == s[a..a + n]
  {
  }

  lemma DropDrop<T>(s: seq<T>, a: nat, n: nat)
    requires a + n <= |s|
    ensures s[a..][n..] == s[a + n..]
  {
  }

  /** A sequence is its prefix, the element at `k` and its suffix. */
  lemma Around<T>(s: seq<T>, k: nat)
    requires k < |s|
    ensures s == s[..k] + [s[k]] + s[k + 1..]
  {
  }

  /** `\s` and the characters `String.prototype.trim` removes. */
  predicate IsSpace(c: char) {
    c == ' ' || c == '\t' || c == '\n' || c == '\r' || c == '\U{0B}' || c == '\U{0C}'
    || c == '\U{A0}' || c == '\U{1680}' || ('\U{2000}' <= c <= '\U{200A}')
    || c == '\U{2028}' || c == '\U{2029}' || c == '\U{202F}' || c == '\U{205F}'
    || c == '\U{3000}' || c == '\U{FEFF}'
  }

  predicate NotSpace(c: char) { !IsSpace(c) }

  /** The characters `.` refuses to match. */
  predicate IsLineTerminator(c: char) {
    c == '\n' || c == '\r' || c == '\U{2028}' || c == '\U{2029}'
  }

  /** `\d` */
  predicate IsDigit(c: char) { '0' <= c <= '9' }

  predicate IsLetter(c: char) { 'A' <= c <= 'Z' || 'a' <= c <= 'z' }

  /** `[A-Z_]` under the `i` flag. */
  predicate IsIdentStart(c: char) { IsLetter(c) || c == '_' }

  /** `\w` */
  predicate IsWordChar(c: char) { IsLetter(c) || IsDigit(c) || c == '_' }

  predicate AllDigits(s: string) { forall i :: 0 <= i < |s| ==> IsDigit(s[i]) }

  predicate AllSpace(s: string) { forall i :: 0 <= i < |s| ==> IsSpace(s[i]) }

  /** `[A-Z_]\w*`, the shape of a label name. */
  predicate IsIdentifier(s: string) {
    |s| >= 1 && IsIdentStart(s[0]) && forall i :: 1 <= i < |s| ==> IsWordChar(s[i])
  }

  /** Case folding as the `i` flag does it: only ASCII letters meet. */
  function Fold(c: char): (u: char)
    ensures IsLetter(c) ==> 'A' <= u <= 'Z'
    ensures !('a' <= c <= 'z') ==> u == c
  {
    if 'a' <= c <= 'z' then (c as int - 32) as char else c
  }

  /** `toUpperCase` of one character, as far as it can land on an ASCII letter:
      the ASCII lower-case letters, dotless i (U+0131) and long s (U+017F). */
  function UpperChar(c: char): char {
    if c == '\U{131}' then 'I' else if c == '\U{17F}' then 'S' else Fold(c)
  }

  /** `toUpperCase` of a word, character by character. */
  function Upper(s: string): (u: string)
    ensures |u| == |s|
    ensures forall i :: 0 <= i < |s| ==> u[i] == UpperChar(s[i])
  {
    seq(|s|, i requires 0 <= i < |s| => UpperChar(s[i]))
  }

  /** `s` matches the literal `word` under the `i` flag. */
  predicate MatchesFold(s: string, word: string) {
    |s| == |word| && forall i :: 0 <= i < |s| ==> Fold(s[i]) == Fold(word[i])
  }

  /** Length of the longest prefix of `s` whose characters all satisfy `p`:
      what a greedy `p*` consumes. */
  function Span(s: string, p: char -> bool): (n: nat)
    ensures n <= |s|
  {
    if s == [] || !p(s[0]) then 0 else 1 + Span(s[1..], p)
  }

  /** `Span` stops at the first character that fails `p`, and not before. */
  lemma {:induction false} SpanMaximal(s: string, p: char -> bool)
    ensures forall i :: 0 <= i < Span(s, p) ==> p(s[i])
    ensures Span(s, p) < |s| ==> !p(s[Span(s, p)])
  {
    if s != [] && p(s[0]) {
      SpanMaximal(s[1..], p);
    }
  }

  /** A run of `p` characters followed by a non-`p` character (or the end)
      is exactly what `Span` measures. */
  lemma SpanIs(s: string, p: char -> bool, n: nat)
    requires n <= |s|
    requires forall i :: 0 <= i < n ==> p(s[i])
    requires n < |s| ==> !p(s[n])
    ensures Span(s, p) == n
  {
    SpanMaximal(s, p);
  }

  /** A run of `p` characters in front of a text that does not start with
      one is exactly what `Span` measures. */
  lemma SpanConcat(a: string, b: string, p: char -> bool)
    requires forall i :: 0 <= i < |a| ==> p(a[i])
    requires b != [] ==> !p(b[0])
    ensures Span(a + b, p) == |a|
  {
    SpanIs(a + b, p, |a|);
  }

  /** Length of the longest suffix of `s` whose characters all satisfy `p`. */
  function SpanEnd(s: string, p: char -> bool): (n: nat)
    ensures n <= |s|
    ensures forall i :: |s| - n <= i < |s| ==> p(s[i])
    ensures n < |s| ==> !p(s[|s| - n - 1])
  {
    if s == [] || !p(s[|s| - 1]) then 0 else 1 + SpanEnd(s[..|s| - 1], p)
  }

  function TrimStart(s: string): string { s[Span(s, IsSpace)..] }

  function TrimEnd(s: string): string { s[..|s| - SpanEnd(s, IsSpace)] }

  /** `String.prototype.trim`: the middle of `s` once the white space at
      both ends is gone. */
  function Trim(s: string): (r: string)
    ensures |r| <= |s|
    ensures r != [] ==> !IsSpace(r[0]) && !IsSpace(r[|r| - 1])
    ensures r == [] <==> AllSpace(s)
  {
    SpanMaximal(s, IsSpace);
    var t := TrimStart(s);
    var r := TrimEnd(t);
    assert t != [] ==> !IsSpace(t[0]);
    r
  }

  /** `Trim` keeps a middle piece of the text: all that it drops lies at
      the two ends and is white space. */
  lemma TrimIsInfix(s: string)
    ensures var r := Trim(s);
      exists i :: 0 <= i <= |s| - |r| && r == s[i..i + |r|] && AllSpace(s[..i]) && AllSpace(s[i + |r|..])
    ensures var r := Trim(s); r != [] ==> !IsSpace(r[0]) && !IsSpace(r[|r| - 1])
  {
    var a := Span(s, IsSpace);
    var t := s[a..];
    var r := Trim(s);
    assert r == t[..|t| - SpanEnd(t, IsSpace)];
    SpacesBefore(s);
    TrimRest(s, a, t, r);
    assert AllSpace(s[..a]) && r == s[a..a + |r|] && AllSpace(s[a + |r|..]);
  }

  lemma SpacesBefore(s: string)
    ensures AllSpace(s[..Span(s, IsSpace)])
  {
    SpanMaximal(s, IsSpace);
  }

  lemma TrimRest(s: string, a: nat, t: string, r: string)
    requires a <= |s| && t == s[a..] && r == t[..|t| - SpanEnd(t, IsSpace)]
    ensures a + |r| <= |s| && r == s[a..a + |r|] && AllSpace(s[a + |r|..])
  {
    DropTake(s, a, |r|);
    DropDrop(s, a, |r|);
    assert s[a + |r|..] == t[|t| - SpanEnd(t, IsSpace)..];
  }

  /** One leading space goes from a text that does not start with white
      space. */
  lemma TrimSpaceThen(r: string)
    requires r == [] || !IsSpace(r[0])
    ensures TrimStart(" " + r) == r
  {
    SpaceThen(r);
  }

  lemma SpaceThen(r: string)
    requires r == [] || !IsSpace(r[0])
    ensures Span(" " + r, IsSpace) == 1 && (" " + r)[1..] == r
  {
    SpanIs(" " + r, IsSpace, 1);
    ConsTail(' ', r);
  }

  lemma DropAfter<T>(a: seq<T>, b: seq<T>, c: seq<T>)
    ensures (a + b + c)[|a|..] == b + c && (a + b + c)[..|a| + |b|] == a + b
  {
  }

  lemma TrimOneSpace(c: char, s: string)
    requires IsSpace(c) && s != [] && !IsSpace(s[0]) && !IsSpace(s[|s| - 1])
    ensures Trim([c] + s) == s
  {
    SpanConcat([c], s, IsSpace);
    assert ([c] + s)[1..] == s;
    assert SpanEnd(s, IsSpace) == 0;
  }

  /** A text that starts and ends with a non-space character (or is
      empty) is its own trim. */
  lemma TrimPlain(s: string)
    requires s == [] || (!IsSpace(s[0]) && !IsSpace(s[|s| - 1]))
    ensures Trim(s) == s
  {
    SpanIs(s, IsSpace, 0);
    assert SpanEnd(s, IsSpace) == 0;
  }

  /** `s` has no occurrence of `c`. */
  predicate Avoids(s: string, c: char) {
    forall i :: 0 <= i < |s| ==> s[i] != c
  }

  /** Trimming only removes characters. */
  lemma TrimAvoids(s: string, c: char)
    requires Avoids(s, c)
    ensures Avoids(Trim(s), c)
  {
    var a := Span(s, IsSpace);
    assert forall i :: 0 <= i < |Trim(s)| ==> Trim(s)[i] == s[a + i];
  }

  /** A suffix of a text without `c` has none either. */
  lemma SuffixAvoids(s: string, k: nat, c: char)
    requires k <= |s| && Avoids(s, c)
    ensures Avoids(s[k..], c)
  {
    assert forall i :: 0 <= i < |s| - k ==> s[k..][i] == s[k + i];
  }

  /** A character that does not start a comment. */
  predicate Uncommented(c: char) {
    c != ';' && c != '('
  }

  /** `line.split(/;|\(/)[0]`: everything before the first `;` or `(`. */
  function CutComment(s: string): (r: string)
    ensures |r| <= |s| && r == s[..|r|]
    ensures Avoids(r, ';') && Avoids(r, '(')
    ensures |r| < |s| ==> s[|r|] == ';' || s[|r|] == '('
  {
    var n := Span(s, Uncommented);
    SpanMaximal(s, Uncommented);
    assert forall i :: 0 <= i < n ==> s[..n][i] == s[i];
    s[..n]
  }

  /** A text without comment characters is kept whole. */
  lemma CutCommentNone(s: string)
    requires Avoids(s, ';') && Avoids(s, '(')
    ensures CutComment(s) == s
  {
    SpanIs(s, Uncommented, |s|);
  }

  /** The text before a comment is cut off whole. */
  lemma CutCommentBefore(s: string, comment: string)
    requires Avoids(s, ';') && Avoids(s, '(')
    requires comment == [] || comment[0] == ';' || comment[0] == '('
    ensures CutComment(s + comment) == s
  {
    SpanIs(s + comment, Uncommented, |s|);
    assert (s + comment)[..|s|] == s;
  }

  /** `replace(/^[NO]\d+\s*\/i, '')`: a leading block number and the white
      space after it are removed; anything else is left as it is. */
  function StripBlockNumber(s: string): (r: string)
    ensures |r| <= |s| && r == s[|s| - |r|..]
    ensures !HasBlockNumber(s) ==> r == s
  {
    if HasBlockNumber(s) then
      var d := Span(s[1..], IsDigit);
      var rest := s[1 + d..];
      rest[Span(rest, IsSpace)..]
    else s
  }

  /** `N10 G0` loses `N10 `: the letter, every digit of the number and
      every white space character after it go, and the rest stays. */
  lemma StripBlockNumberOf(lead: char, digits: string, sp: string, rest: string)
    requires Fold(lead) == 'N' || Fold(lead) == 'O'
    requires |digits| >= 1 && AllDigits(digits) && AllSpace(sp)
    requires rest == [] || (!IsDigit(rest[0]) && !IsSpace(rest[0]))
    ensures StripBlockNumber([lead] + digits + sp + rest) == rest
  {
    var s := [lead] + digits + sp + rest;
    var after := sp + rest;
    BlockShape(lead, digits, sp, rest);
    assert after != [] ==> !IsDigit(after[0]) by {
      assert sp != [] ==> after[0] == sp[0];
      assert sp == [] ==> after == rest;
    }
    SpanConcat(digits, after, IsDigit);
    SpanConcat(sp, rest, IsSpace);
    DropPrefix(sp, rest);
  }

  lemma BlockShape(lead: char, digits: string, sp: string, rest: string)
    ensures var s := [lead] + digits + sp + rest;
      s[0] == lead && s[1..] == digits + (sp + rest) && s[1 + |digits|..] == sp + rest
  {
    var s := [lead] + digits + sp + rest;
    assert s == [lead] + (digits + (sp + rest));
  }

  lemma DropPrefix<T>(a: seq<T>, b: seq<T>)
    ensures (a + b)[|a|..] == b && (a + b)[..|a|] == a
  {
  }

  /** `s` begins with `N` or `O` (either case) and a digit. */
  predicate HasBlockNumber(s: string) {
    |s| >= 2 && Fold(s[0]) in {'N', 'O'} && IsDigit(s[1])
  }

  /** The test "is not `sep`", one value for every use. */
  function IsNot(sep: char): char -> bool {
    c => c != sep
  }

  /** Drops one `\r` at the end, the part of the `\r?\n` separator that
      sits before the line feed. */
  function DropCR(s: string): string {
    if |s| > 0 && s[|s| - 1] == '\r' then s[..|s| - 1] else s
  }

  /** `text.split(/\r?\n/)`: the pieces between line feeds, each without
      the carriage return that came just before its line feed. */
  function Lines(text: string): (ls: seq<string>)
    ensures |ls| == Count(text, '\n') + 1
    ensures forall i :: 0 <= i < |ls| ==> '\n' !in ls[i]
    decreases |text|
  {
    var k := Span(text, IsNot('\n'));
    SpanMaximal(text, IsNot('\n'));
    if k == |text| then
      CountNone(text, '\n');
      [text]
    else
      CountSplit(text, k, '\n');
      [DropCR(text[..k])] + Lines(text[k + 1..])
  }

  /** Number of occurrences of `c` in `s`. */
  function Count(s: string, c: char): nat {
    if s == [] then 0 else (if s[0] == c then 1 else 0) + Count(s[1..], c)
  }

  lemma {:induction false} CountNone(s: string, c: char)
    requires c !in s
    ensures Count(s, c) == 0
  {
    if s != [] { CountNone(s[1..], c); }
  }

  lemma {:induction false} CountSplit(s: string, k: nat, c: char)
    requires k < |s| && s[k] == c && c !in s[..k]
    ensures Count(s, c) == 1 + Count(s[k + 1..], c)
  {
    if k > 0 {
      assert s[1..][..k - 1] == s[1..k];
      CountSplit(s[1..], k - 1, c);
      assert s[1..][k..] == s[k + 1..];
    }
  }

  /** `s.split(sep)` for a one-character separator: every piece, empty ones
      included. */
  function Split(s: string, sep: char): (ps: seq<string>)
    ensures |ps| == Count(s, sep) + 1
    ensures forall i :: 0 <= i < |ps| ==> sep !in ps[i]
    decreases |s|
  {
    var k := Span(s, IsNot(sep));
    SpanMaximal(s, IsNot(sep));
    if k == |s| then
      CountNone(s, sep);
      [s]
    else
      CountSplit(s, k, sep);
      [s[..k]] + Split(s[k + 1..], sep)
  }

  /** `ps.join(sep)`: the pieces with one separator between neighbours. */
  function Join(ps: seq<string>, sep: char): string
    requires |ps| >= 1
  {
    if |ps| == 1 then ps[0] else ps[0] + [sep] + Join(ps[1..], sep)
  }

  /** The joined text starts with the first piece and ends with the last. */
  lemma {:induction false} JoinEnds(ps: seq<string>, sep: char)
    requires |ps| >= 1
    ensures var s := Join(ps, sep);
      && |ps[0]| <= |s| && s[..|ps[0]|] == ps[0]
      && |ps[|ps| - 1]| <= |s| && s[|s| - |ps[|ps| - 1]|..] == ps[|ps| - 1]
  {
    if |ps| > 1 {
      JoinEnds(ps[1..], sep);
      var s, r := Join(ps, sep), Join(ps[1..], sep);
      assert s == ps[0] + [sep] + r;
      assert ps[1..][|ps| - 2] == ps[|ps| - 1];
      assert s[..|ps[0]|] == ps[0];
      assert s[|s| - |r|..] == r;
    }
  }

  /** Splitting a text and joining the pieces again gives back the text. */
  lemma {:induction false} JoinSplit(s: string, sep: char)
    ensures Join(Split(s, sep), sep) == s
    decreases |s|
  {
    var k := Span(s, IsNot(sep));
    SpanMaximal(s, IsNot(sep));
    if k < |s| {
      JoinSplit(s[k + 1..], sep);
      ConsTail(s[..k], Split(s[k + 1..], sep));
      Around(s, k);
    }
  }

  /** Joining pieces that hold no separator and splitting again gives
      back the pieces. */
  lemma {:induction false} SplitJoin(ps: seq<string>, sep: char)
    requires |ps| >= 1 && forall i :: 0 <= i < |ps| ==> sep !in ps[i]
    ensures Split(Join(ps, sep), sep) == ps
    decreases |ps|
  {
    if |ps| == 1 {
      SplitOne(ps[0], sep);
    } else {
      SplitJoin(ps[1..], sep);
      SplitFirst(ps[0], Join(ps[1..], sep), sep);
    }
  }

  /** A text without the separator is one piece. */
  lemma SplitOne(p: string, sep: char)
    requires sep !in p
    ensures Split(p, sep) == [p]
  {
    SpanIs(p, IsNot(sep), |p|);
  }

  /** The text before the first separator is the first piece. */
  lemma SplitFirst(p: string, rest: string, sep: char)
    requires sep !in p
    ensures Split(p + [sep] + rest, sep) == [p] + Split(rest, sep)
  {
    var s := p + [sep] + rest;
    SpanIs(s, IsNot(sep), |p|);
    assert s[..|p|] == p && s[|p| + 1..] == rest;
  }

  /** The lines are the pieces between line feeds, each but the last
      without the one carriage return before its line feed. */
  lemma {:induction false} LinesSplit(text: string)
    ensures |Lines(text)| == |Split(text, '\n')|
    ensures forall i :: 0 <= i < |Lines(text)| - 1 ==> Lines(text)[i] == DropCR(Split(text, '\n')[i])
    ensures Lines(text)[|Lines(text)| - 1] == Split(text, '\n')[|Lines(text)| - 1]
    decreases |text|
  {
    var k := Span(text, IsNot('\n'));
    if k < |text| {
      LinesSplit(text[k + 1..]);
      var ls, ps := Lines(text), Split(text, '\n');
      assert ls[1..] == Lines(text[k + 1..]);
      assert ps[1..] == Split(text[k + 1..], '\n');
      forall i | 1 <= i < |ls| - 1 ensures ls[i] == DropCR(ps[i]) {
        assert ls[i] == ls[1..][i - 1] && ps[i] == ps[1..][i - 1];
      }
    }
  }

  /** A non-empty run of non-space characters. */
  predicate IsToken(t: string) {
    t != [] && forall j :: 0 <= j < |t| ==> !IsSpace(t[j])
  }

  /** `s.split(/\s+/)` for a trimmed, non-empty line: the maximal runs of
      non-space characters. */
  function Tokens(s: string): seq<string>
    decreases |s|
  {
    var w := Span(s, IsSpace);
    if w == |s| then []
    else
      var r := s[w..];
      var n := Span(r, NotSpace);
      [r[..n]] + Tokens(r[n..])
  }

  /** Every piece `Tokens` yields is a token. */
  lemma {:induction false} TokensAreTokens(s: string)
    ensures forall i :: 0 <= i < |Tokens(s)| ==> IsToken(Tokens(s)[i])
    decreases |s|
  {
    var w := Span(s, IsSpace);
    if w < |s| {
      SpanMaximal(s, IsSpace);
      var r := s[w..];
      var n := Span(r, NotSpace);
      var rest := Tokens(r[n..]);
      TokenRun(s, w);
      TokensAreTokens(r[n..]);
      var ts := Tokens(s);
      assert ts == [r[..n]] + rest;
      forall i | 0 <= i < |ts| ensures IsToken(ts[i]) {
        if i > 0 {
          assert ts[i] == rest[i - 1];
        }
      }
    }
  }

  /** The white space in front is skipped, a maximal run of non-space
      characters is the first token, and the tokens of the rest follow. */
  lemma TokensRun(sp: string, t: string, rest: string)
    requires AllSpace(sp) && IsToken(t) && (rest == [] || IsSpace(rest[0]))
    ensures Tokens(sp + t + rest) == [t] + Tokens(rest)
  {
    TokensSkip(sp, t + rest);
    TokensHead(t, rest);
    Assoc(sp, t, rest);
  }

  /** A maximal run of non-space characters at the very start is the
      first token. */
  lemma TokensHead(t: string, rest: string)
    requires IsToken(t) && (rest == [] || IsSpace(rest[0]))
    ensures Tokens(t + rest) == [t] + Tokens(rest)
  {
    var s := t + rest;
    SpanIs(s, IsSpace, 0);
    assert s[0..] == s;
    SpanIs(s, NotSpace, |t|);
    assert s[..|t|] == t && s[|t|..] == rest;
  }

  /** White space in front of a token changes nothing. */
  lemma TokensSkip(sp: string, rest: string)
    requires AllSpace(sp) && (rest == [] || !IsSpace(rest[0]))
    ensures Tokens(sp + rest) == Tokens(rest)
  {
    var s := sp + rest;
    SpanIs(s, IsSpace, |sp|);
    SpanIs(rest, IsSpace, 0);
    assert s[|sp|..] == rest == rest[0..];
  }

  /** Tokens joined by single spaces split back into the same tokens. */
  lemma {:induction false} TokensJoin(ts: seq<string>)
    requires |ts| >= 1 && forall i :: 0 <= i < |ts| ==> IsToken(ts[i])
    ensures Tokens(Join(ts, ' ')) == ts
    decreases |ts|
  {
    if |ts| == 1 {
      TokensHead(ts[0], []);
      assert ts[0] + [] == ts[0];
    } else {
      TokensJoin(ts[1..]);
      TokensJoinStep(ts[0], ts[1..]);
      assert [ts[0]] + ts[1..] == ts;
    }
  }

  /** One more token in front of tokens that split back. */
  lemma TokensJoinStep(head: string, tail: seq<string>)
    requires IsToken(head) && |tail| >= 1 && IsToken(tail[0])
    requires Tokens(Join(tail, ' ')) == tail
    ensures Tokens(Join([head] + tail, ' ')) == [head] + tail
  {
    var rest := Join(tail, ' ');
    JoinEnds(tail, ' ');
    TokensAfterSpace(tail[0], rest);
    TokensHead(head, [' '] + rest);
    JoinCons(head, tail, ' ');
  }

  /** Joining one more part in front adds it and a separator. */
  lemma JoinCons(head: string, tail: seq<string>, sep: char)
    requires |tail| >= 1
    ensures Join([head] + tail, sep) == head + ([sep] + Join(tail, sep))
  {
    ConsTail(head, tail);
    Assoc(head, [sep], Join(tail, sep));
  }

  /** One space in front of a text that starts with the token `t`
      changes nothing. */
  lemma TokensAfterSpace(t: string, rest: string)
    requires IsToken(t) && |t| <= |rest| && rest[..|t|] == t
    ensures Tokens([' '] + rest) == Tokens(rest)
  {
    assert rest[0] == t[0];
    TokensSkip([' '], rest);
  }

  /** `Tokens` yields nothing exactly when the text is all white space. */
  lemma TokensEmpty(s: string)
    ensures Tokens(s) == [] <==> AllSpace(s)
  {
    SpanMaximal(s, IsSpace);
    var w := Span(s, IsSpace);
    if w < |s| {
      assert !IsSpace(s[w]);
    }
  }

  /** After the white space in front, the run of non-space characters is a token. */
  lemma TokenRun(s: string, w: nat)
    requires w < |s| && !IsSpace(s[w])
    ensures IsToken(s[w..][..Span(s[w..], NotSpace)])
  {
    var r := s[w..];
    SpanMaximal(r, NotSpace);
    assert r[0] == s[w];
  }

  /** `s.split(/\s+/)` for a line that does not end in white space: the
      maximal runs of non-space characters, after an empty first piece when
      the line starts with white space; the empty line is one empty piece. */
  function Words(s: string): (ws: seq<string>)
    requires s == [] || !IsSpace(s[|s| - 1])
    ensures |ws| >= 1 && forall i :: 1 <= i < |ws| ==> ws[i] != []
  {
    if s == [] then [""]
    else if IsSpace(s[0]) then
      TokensAreTokens(s);
      [""] + Tokens(s)
    else
      TokensAreTokens(s);
      TokensEmpty(s);
      assert !AllSpace(s);
      Tokens(s)
  }

  /** Tokens joined by single spaces are the words of the line, and one
      space in front of them adds an empty first word. */
  lemma WordsJoin(ts: seq<string>)
    requires |ts| >= 1 && forall i :: 0 <= i < |ts| ==> IsToken(ts[i])
    ensures var s := Join(ts, ' '); (s == [] || !IsSpace(s[|s| - 1])) && Words(s) == ts
    ensures var s := [' '] + Join(ts, ' '); !IsSpace(s[|s| - 1]) && Words(s) == [""] + ts
  {
    var s := Join(ts, ' ');
    JoinEnds(ts, ' ');
    var last := ts[|ts| - 1];
    assert s[|s| - 1] == s[|s| - |last|..][|last| - 1] == last[|last| - 1];
    assert s[0] == ts[0][0];
    TokensJoin(ts);
    TokensAfterSpace(ts[0], s);
    assert ([' '] + s)[|s|] == s[|s| - 1];
  }
}
