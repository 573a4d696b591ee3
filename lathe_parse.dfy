/** parser-lathe.js `parseISO`: one command per line that has something
    left once its comment, its surrounding white space and its block number
    are gone; the command carries the upper-cased, canonical code and the
    values of its X, Z, F and S words. */
module LatheParse {
  import opened Options
  import opened Text
  import opened Numbers

  /** A JavaScript number as the lathe code meets it: a finite value, or
      NaN, which `parseFloat` returns for a word with no number after its
      letter. */
  datatype Num = Fin(v: real) | NaN

  /** A command; `None` is JavaScript's `null`, the value of a letter the
      line does not give. */
  datatype Cmd = Cmd(code: string, x: Option<Num>, z: Option<Num>, f: Option<Num>, s: Option<Num>)

  /** The result of `parseFloat` as a number. */
  function ToNum(r: Option<real>): Num {
    if r.Some? then Fin(r.value) else NaN
  }

  /** The text of a line once the comment is cut off, the line trimmed
      and a leading block number removed: it starts and ends with a
      character that is not white space. */
  function CleanLine(raw: string): (l: string)
    ensures l == [] || (!IsSpace(l[0]) && !IsSpace(l[|l| - 1]))
  {
    var t := Trim(CutComment(raw));
    StripKeepsTrim(t);
    StripBlockNumber(t)
  }

  /** Removing a block number from a trimmed text leaves a trimmed text. */
  lemma StripKeepsTrim(t: string)
    requires t == [] || (!IsSpace(t[0]) && !IsSpace(t[|t| - 1]))
    ensures var l := StripBlockNumber(t); l == [] || (!IsSpace(l[0]) && !IsSpace(l[|l| - 1]))
  {
    var l := StripBlockNumber(t);
    if HasBlockNumber(t) {
      var d := Span(t[1..], IsDigit);
      var rest := t[1 + d..];
      SpanMaximal(rest, IsSpace);
      assert l == rest[Span(rest, IsSpace)..];
    }
    if l != [] {
      assert l[|l| - 1] == t[|t| - 1];
    }
  }

  /** A command with no comment character, no white space at its ends
      and no block number is what is left of the line it starts, whatever
      comment follows it. */
  lemma CleanLineCommand(cmd: string, comment: string)
    requires Avoids(cmd, ';') && Avoids(cmd, '(')
    requires cmd == [] || (!IsSpace(cmd[0]) && !IsSpace(cmd[|cmd| - 1]))
    requires !HasBlockNumber(cmd)
    requires comment == [] || comment[0] == ';' || comment[0] == '('
    ensures CleanLine(cmd + comment) == cmd
  {
    CutCommentBefore(cmd, comment);
    TrimPlain(cmd);
  }

  /** `N10 G0 X5 (rapid)` leaves `G0 X5`: the block number, the white
      space after it and the comment all go. */
  lemma CleanLineNumbered(lead: char, digits: string, sp: string, cmd: string, comment: string)
    requires Fold(lead) == 'N' || Fold(lead) == 'O'
    requires |digits| >= 1 && AllDigits(digits) && AllSpace(sp)
    requires cmd != [] && !IsDigit(cmd[0]) && !IsSpace(cmd[0]) && !IsSpace(cmd[|cmd| - 1])
    requires Avoids(cmd, ';') && Avoids(cmd, '(') && Avoids(sp, ';') && Avoids(sp, '(')
    requires comment == [] || comment[0] == ';' || comment[0] == '('
    ensures CleanLine([lead] + digits + sp + cmd + comment) == cmd
  {
    var line := [lead] + digits + sp + cmd;
    assert Avoids(line, ';') && Avoids(line, '(') by {
      assert forall i :: 0 <= i < |digits| ==> IsDigit(digits[i]);
    }
    CutCommentBefore(line, comment);
    assert line[|line| - 1] == cmd[|cmd| - 1];
    TrimPlain(line);
    StripBlockNumberOf(lead, digits, sp, cmd);
  }

  /** The code as stored: `G00`, `G01` and `M03` become `G0`, `G1` and
      `M3`, and every other code stays as it is. */
  function Canonical(code: string): (c: string)
    ensures c != "G00" && c != "G01" && c != "M03"
    ensures c != code <==> code == "G00" || code == "G01" || code == "M03"
    ensures code == "G00" ==> c == "G0"
    ensures code == "G01" ==> c == "G1"
    ensures code == "M03" ==> c == "M3"
  {
    if code == "G00" then "G0"
    else if code == "G01" then "G1"
    else if code == "M03" then "M3"
    else code
  }

  /** The letter and the value of a word after the code:
      `p[0].toUpperCase()` and `parseFloat(p.slice(1))`. */
  function Entry(w: string): Option<(char, Num)> {
    if w == [] then None else Some((UpperChar(w[0]), ToNum(ParseFloat(w[1..]))))
  }

  /** The value the words give to letter `k`: that of the last word with
      that letter, `None` when there is none. */
  function Field(words: seq<string>, k: char): Option<Num> {
    var m := Collect(Entry, words);
    if k in m then Some(m[k]) else None
  }

  /** The command of one line, if it has one. */
  function ParseLine(raw: string): Option<Cmd> {
    var line := CleanLine(raw);
    if line == [] then None
    else
      var parts := Words(line);
      var words := parts[1..];
      Some(Cmd(Canonical(Upper(parts[0])), Field(words, 'X'), Field(words, 'Z'), Field(words, 'F'), Field(words, 'S')))
  }

  function ParseLines(lines: seq<string>): seq<Cmd> {
    FilterMap(ParseLine, lines)
  }

  /** parser-lathe.js `parseISO`. */
  method ParseISO(text: string) returns (cmds: seq<Cmd>)
    ensures cmds == ParseLines(Lines(text))
  {
    var lines := Lines(text);
    cmds := [];
    for i := 0 to |lines|
      invariant cmds == FilterMap(ParseLine, lines[..i])
    {
      FilterMapSnoc(ParseLine, lines, i);
      var cmd := ReadLine(lines[i]);
      if cmd.Some? {
        cmds := cmds + [cmd.value];
      }
    }
    assert lines[..|lines|] == lines;
  }

  /** The body of the loop over the lines: the command of one line, built
      field by field, or `None` for a line the loop skips. */
  method ReadLine(raw: string) returns (cmd: Option<Cmd>)
    ensures cmd == ParseLine(raw)
  {
    var line := CleanLine(raw);
    if line == [] {
      return None;
    }
    var parts := Words(line);
    var code := Canonical(Upper(parts[0]));
    var x, z, f, s := ReadFields(parts[1..]);
    cmd := Some(Cmd(code, x, z, f, s));
  }

  /** The loop over the words after the code: each word sets the field of
      its letter, if that letter is X, Z, F or S. */
  method ReadFields(words: seq<string>) returns (x: Option<Num>, z: Option<Num>, f: Option<Num>, s: Option<Num>)
    requires forall i :: 0 <= i < |words| ==> words[i] != []
    ensures x == Field(words, 'X') && z == Field(words, 'Z') && f == Field(words, 'F') && s == Field(words, 'S')
  {
    x, z, f, s := None, None, None, None;
    for j := 0 to |words|
      invariant x == Field(words[..j], 'X') && z == Field(words[..j], 'Z')
      invariant f == Field(words[..j], 'F') && s == Field(words[..j], 'S')
    {
      var p := words[j];
      var letter := UpperChar(p[0]);
      var val := ToNum(ParseFloat(p[1..]));
      FieldStep(words, j, letter, val);
      if letter == 'X' {
        x := Some(val);
      } else if letter == 'Z' {
        z := Some(val);
      } else if letter == 'F' {
        f := Some(val);
      } else if letter == 'S' {
        s := Some(val);
      }
    }
    assert words[..|words|] == words;
  }

  /** One more word sets the field of its own letter and leaves the others. */
  lemma FieldStep(words: seq<string>, j: nat, letter: char, val: Num)
    requires j < |words| && words[j] != []
    requires letter == UpperChar(words[j][0]) && val == ToNum(ParseFloat(words[j][1..]))
    ensures forall k :: Field(words[..j + 1], k) == if k == letter then Some(val) else Field(words[..j], k)
  {
    assert Entry(words[j]) == Some((letter, val));
    CollectSnoc(Entry, words, j);
    var m := Collect(Entry, words[..j]);
    assert Collect(Entry, words[..j + 1]) == m[letter := val];
    forall k ensures Field(words[..j + 1], k) == if k == letter then Some(val) else Field(words[..j], k) {
      assert k in m[letter := val] <==> k == letter || k in m;
    }
  }

  /** A line with nothing but white space before its comment gives no
      command. */
  lemma CommentOnlyLine(raw: string)
    requires AllSpace(CutComment(raw))
    ensures ParseLine(raw) == None
  {
    assert Trim(CutComment(raw)) == [];
  }

  /** A line whose text before the comment is a block number alone gives
      no command, even when it is indented or followed by white space: the
      line is trimmed before the block number is removed. */
  lemma BlockNumberOnlyLine(raw: string, lead: char, digits: string)
    requires Trim(CutComment(raw)) == [lead] + digits
    requires Fold(lead) in {'N', 'O'} && |digits| >= 1 && AllDigits(digits)
    ensures ParseLine(raw) == None
  {
    var t := [lead] + digits;
    assert t[1..] == digits;
    SpanIs(digits, IsDigit, |digits|);
    assert t[1 + |digits|..] == [];
  }

  /** An indented block number is one of those lines. */
  lemma IndentedBlockNumber(digits: string)
    requires |digits| >= 1 && AllDigits(digits)
    ensures ParseLine(" N" + digits) == None
  {
    var line := " N" + digits;
    var s := "N" + digits;
    assert line == [' '] + s;
    CutCommentNone(line);
    TrimOneSpace(' ', s);
    BlockNumberOnlyLine(line, 'N', digits);
  }

  /** A line with no comment that is not blank and does not start with a
      block number gives a command. */
  lemma PlainLine(raw: string)
    requires Avoids(raw, ';') && Avoids(raw, '(') && !AllSpace(raw) && !HasBlockNumber(Trim(raw))
    ensures ParseLine(raw).Some?
  {
    CutCommentNone(raw);
  }

  /** Every line gives at most one command: the commands are as many as the
      lines less those that give none. */
  lemma CommandCount(lines: seq<string>)
    ensures |ParseLines(lines)| == |lines| - Dropped(ParseLine, lines)
    ensures |ParseLines(lines)| <= |lines|
  {
    FilterMapCount(ParseLine, lines);
  }

  /** No stored code is one of the three long spellings. */
  lemma ParsedCodes(lines: seq<string>)
    ensures forall c :: c in ParseLines(lines) ==> c.code != "G00" && c.code != "G01" && c.code != "M03"
  {
    forall c | c in ParseLines(lines) ensures c.code != "G00" && c.code != "G01" && c.code != "M03" {
      var k :| 0 <= k < |ParseLines(lines)| && ParseLines(lines)[k] == c;
      FilterMapFrom(ParseLine, lines, k);
    }
  }

  /** A letter is `null` exactly when no word carries it; otherwise it
      holds the value of the last word that does. */
  lemma FieldLast(words: seq<string>, k: char)
    ensures Field(words, k).None? <==> forall i :: 0 <= i < |words| ==> !GivesKey(Entry, words[i], k)
    ensures Field(words, k).Some? ==> exists i :: (0 <= i < |words| && Entry(words[i]) == Some((k, Field(words, k).value))
      && forall j :: i < j < |words| ==> !GivesKey(Entry, words[j], k))
  {
    CollectLast(Entry, words, k);
  }

  /** A letter with no number after it is stored as NaN, which is not
      `null`. */
  lemma LetterWithoutNumber(c: char)
    requires UpperChar(c) == 'X'
    ensures Field([[c]], 'X') == Some(NaN)
  {
    assert [[c]][..0] == [];
    assert ParseFloat([]) == None;
  }
}
