/** `parseISO` of the milling pipeline: every line of the program text
    becomes at most one record: a label, a register assignment, a
    conditional backward jump, a repeat directive or a plain command. */
module MillParse {
  import opened Options
  import opened Text
  import opened Numbers

  /** The comparison of an `IF` directive. */
  datatype Op = Ge | Le | Eq | Gt | Lt

  datatype Record =
    | Label(name: string)
    | Assign(reg: string, expr: string)
      // `value` is `None` where `parseFloat` gives NaN
    | If(reg: string, op: Op, value: Option<real>, target: string)
    | Repeat(block: string, count: nat)
    | Command(line: string)

  /** The line once its comment is cut off, a block number at its very
      start removed and the white space around it trimmed, in that order. */
  function Clean(line: string): string {
    Trim(StripBlockNumber(CutComment(line)))
  }

  /** `^([A-Z_]\w*):$` */
  function AsLabel(s: string): Option<string> {
    if |s| >= 2 && s[|s| - 1] == ':' && IsIdentifier(s[..|s| - 1]) then Some(s[..|s| - 1]) else None
  }

  /** `^R(\d+)\s*=\s*(.+)$` on a trimmed line; the register is named `R`
      followed by the digits as written. */
  function AsAssign(s: string): (r: Option<Record>)
    ensures r.Some? ==> r.value.Assign?
    ensures r.Some? ==>
      |s| >= 2 && Fold(s[0]) == 'R' && IsDigit(s[1]) && exists k :: 1 < k < |s| - 1 && s[k] == '='
  {
    if |s| >= 2 && Fold(s[0]) == 'R' && IsDigit(s[1]) then
      var d := Span(s[1..], IsDigit);
      var r1 := s[1 + d..];
      var v := AssignValue("R" + s[1..1 + d], r1);
      assert d >= 1 && (v.Some? ==> s[1 + d + Span(r1, IsSpace)] == '=');
      v
    else None
  }

  /** `\s*=\s*(.+)$` after the register name: the expression, which must
      be non-empty and stay on one line. */
  function AssignValue(name: string, r1: string): (r: Option<Record>)
    ensures r.Some? ==> r.value.Assign?
    ensures r.Some? ==> Span(r1, IsSpace) < |r1| - 1 && r1[Span(r1, IsSpace)] == '='
  {
    var w1 := Span(r1, IsSpace);
    if w1 < |r1| && r1[w1] == '=' then
      var r2 := r1[w1 + 1..];
      var expr := r2[Span(r2, IsSpace)..];
      if |expr| >= 1 && forall i :: 0 <= i < |expr| ==> !IsLineTerminator(expr[i]) then
        Some(Assign(name, expr))
      else None
    else None
  }

  /** The operator `(>=|<=|==|>|<)` at the head of `s` and its length. */
  function OpAt(s: string): Option<(Op, nat)> {
    if |s| >= 2 && s[..2] == ">=" then Some((Ge, 2))
    else if |s| >= 2 && s[..2] == "<=" then Some((Le, 2))
    else if |s| >= 2 && s[..2] == "==" then Some((Eq, 2))
    else if |s| >= 1 && s[0] == '>' then Some((Gt, 1))
    else if |s| >= 1 && s[0] == '<' then Some((Lt, 1))
    else None
  }

  /** `[\d.-]` */
  predicate IsValueChar(c: char) { IsDigit(c) || c == '.' || c == '-' }

  /** `^IF\s+([Rr]\d+)\s*(>=|<=|==|>|<)\s*([\d.-]+)\s+GOTOB\s+([A-Z_]\w*)$`;
      the register name is upper-cased and the value read by `parseFloat`. */
  function AsIf(s: string): (r: Option<Record>)
    ensures r.Some? ==> r.value.If?
    ensures r.Some? ==> |s| >= 4 && Fold(s[0]) == 'I' && IsSpace(s[2])
  {
    if |s| >= 2 && MatchesFold(s[..2], "IF") then
      var w := Span(s[2..], IsSpace);
      assert Fold(s[..2][0]) == Fold("IF"[0]);
      if w >= 1 then
        assert IsSpace(s[2..][0]);
        IfRegister(s[2 + w..])
      else None
    else None
  }

  /** `([Rr]\d+)\s*` and the rest of the directive. */
  function IfRegister(r: string): (c: Option<Record>)
    ensures c.Some? ==> c.value.If? && |r| >= 2
  {
    if |r| >= 2 && Fold(r[0]) == 'R' && IsDigit(r[1]) then IfDigits(r[1..]) else None
  }

  /** `(\d+)\s*` after the `R` and the rest of the directive. */
  function IfDigits(t: string): (c: Option<Record>)
    ensures c.Some? ==> c.value.If?
  {
    var d := Span(t, IsDigit);
    IfOperator("R" + t[..d], TrimStart(t[d..]))
  }

  /** `(>=|<=|==|>|<)\s*` and the rest of the directive. */
  function IfOperator(reg: string, r: string): (c: Option<Record>)
    ensures c.Some? ==> c.value.If? && c.value.reg == reg
  {
    match OpAt(r)
    case None => None
    case Some(opLen) =>
      var r2 := r[opLen.1..];
      IfValue(reg, opLen.0, r2[Span(r2, IsSpace)..])
  }

  /** `([\d.-]+)\s+` and the rest of the directive. */
  function IfValue(reg: string, op: Op, r: string): (c: Option<Record>)
    ensures c.Some? ==> c.value.If? && c.value.reg == reg && c.value.op == op
  {
    var v := Span(r, IsValueChar);
    var r2 := r[v..];
    var w := Span(r2, IsSpace);
    if v >= 1 && w >= 1 then IfTarget(reg, op, ParseFloat(r[..v]), r2[w..]) else None
  }

  /** `GOTOB\s+([A-Z_]\w*)$` */
  function IfTarget(reg: string, op: Op, value: Option<real>, r: string): (c: Option<Record>)
    ensures c.Some? ==> c.value.If? && c.value.reg == reg && c.value.op == op && c.value.value == value
  {
    if |r| >= 5 && MatchesFold(r[..5], "GOTOB") then
      var w := Span(r[5..], IsSpace);
      var target := r[5 + w..];
      if w >= 1 && IsIdentifier(target) then Some(If(reg, op, value, target)) else None
    else None
  }

  /** `^REPEAT\s+([A-Z_]\w*)\s+P=(\d+)$`, the count read by `parseInt`. */
  function AsRepeat(s: string): (r: Option<Record>)
    ensures r.Some? ==> r.value.Repeat?
    ensures r.Some? ==> |s| >= 8 && Fold(s[0]) == 'R' && !IsDigit(s[1]) && IsSpace(s[6])
  {
    if |s| >= 6 && MatchesFold(s[..6], "REPEAT") then
      var w := Span(s[6..], IsSpace);
      assert Fold(s[..6][0]) == Fold("REPEAT"[0]);
      assert Fold(s[..6][1]) == Fold("REPEAT"[1]);
      assert w >= 1 ==> IsSpace(s[6..][0]);
      if w >= 1 then RepeatBlock(s[6 + w..]) else None
    else None
  }

  /** `([A-Z_]\w*)\s+P=(\d+)$` after `REPEAT` and its white space. */
  function RepeatBlock(r1: string): (r: Option<Record>)
    ensures r.Some? ==> r.value.Repeat? && |r1| >= 2
  {
    var n := Span(r1, IsWordChar);
    if n >= 1 && IsIdentStart(r1[0]) then
      var r2 := r1[n..];
      var w2 := Span(r2, IsSpace);
      var r3 := r2[w2..];
      if w2 >= 1 && |r3| >= 3 && Fold(r3[0]) == 'P' && r3[1] == '=' && AllDigits(r3[2..]) then
        Some(Repeat(r1[..n], DigitsValue(r3[2..])))
      else None
    else None
  }

  /** The record of a cleaned, non-empty line: the first pattern that
      matches wins, and a line no pattern matches is a command. */
  function Classify(s: string): (r: Record)
    ensures r.Command? ==> r.line == s
  {
    match AsLabel(s)
    case Some(name) => Label(name)
    case None =>
      match AsAssign(s)
      case Some(a) => a
      case None =>
        match AsIf(s)
        case Some(c) => c
        case None =>
          match AsRepeat(s)
          case Some(rp) => rp
          case None => Command(s)
  }

  /** The record one line of text contributes, if any. */
  function ParseLine(line: string): (r: Option<Record>)
    ensures r.None? <==> AllSpace(StripBlockNumber(CutComment(line)))
  {
    var c := Clean(line);
    if c == [] then None else Some(Classify(c))
  }

  /** The records of a sequence of lines, in order. */
  function ParseLines(lines: seq<string>): seq<Record> {
    FilterMap(ParseLine, lines)
  }

  /** parser-mill.js `parseISO`. */
  method ParseISO(text: string) returns (raw: seq<Record>)
    ensures raw == ParseLines(Lines(text))
  {
    var lines := Lines(text);
    raw := [];
    for i := 0 to |lines|
      invariant raw == FilterMap(ParseLine, lines[..i])
    {
      FilterMapSnoc(ParseLine, lines, i);
      var rec := ParseLine(lines[i]);
      if rec.Some? {
        raw := raw + [rec.value];
      }
    }
    assert lines[..|lines|] == lines;
  }

  /** Every line yields at most one record: the records are as many as the
      lines less those that yield none. */
  lemma RecordCount(lines: seq<string>)
    ensures |ParseLines(lines)| == |lines| - Dropped(ParseLine, lines)
    ensures |ParseLines(lines)| <= |lines|
  {
    FilterMapCount(ParseLine, lines);
  }

  /** A line that holds only white space before its comment yields nothing. */
  lemma CommentOnlyLine(line: string)
    requires AllSpace(CutComment(line))
    ensures ParseLine(line) == None
  {
    var c := CutComment(line);
    assert c != [] ==> IsSpace(c[0]);
  }

  /** A line that holds a block number at its very start and nothing else
      before its comment yields nothing. */
  lemma BlockNumberOnlyLine(line: string, lead: char, digits: string, rest: string)
    requires CutComment(line) == [lead] + digits + rest
    requires Fold(lead) in {'N', 'O'} && |digits| >= 1 && AllDigits(digits) && AllSpace(rest)
    ensures ParseLine(line) == None
  {
    var c := CutComment(line);
    assert HasBlockNumber(c) by { assert c[0] == lead && c[1] == digits[0]; }
    assert c[1..] == digits + rest;
    SpanConcat(digits, rest, IsDigit);
    assert c[1 + |digits|..] == rest;
    var k := Span(rest, IsSpace);
    assert StripBlockNumber(c) == rest[k..];
    assert AllSpace(rest[k..]) by {
      assert forall i :: 0 <= i < |rest| - k ==> rest[k..][i] == rest[k + i];
    }
  }

  /** The block number is only removed at the very start of the line: an
      indented block number stays and makes a command. */
  lemma IndentedBlockNumber(digits: string)
    requires |digits| >= 1 && AllDigits(digits)
    ensures ParseLine(" N" + digits) == Some(Command("N" + digits))
  {
    var line := " N" + digits;
    var s := "N" + digits;
    assert line == [' '] + s;
    CutCommentNone(line);
    assert !HasBlockNumber(line);
    TrimOneSpace(' ', s);
    NotOtherDirective(s);
  }

  /** A line that starts with neither `R` nor `I` and does not end in a
      colon is neither a label, an assignment, a conditional nor a repeat. */
  lemma NotOtherDirective(s: string)
    requires |s| >= 2 && Fold(s[0]) != 'R' && Fold(s[0]) != 'I' && s[|s| - 1] != ':'
    ensures Classify(s) == Command(s)
  {
    assert AsLabel(s) == None;
    assert AsAssign(s) == None;
    assert Fold(s[0]) != Fold("IF"[0]);
    assert AsIf(s) == None;
    assert |s| >= 6 ==> Fold(s[0]) != Fold("REPEAT"[0]);
    assert AsRepeat(s) == None;
  }

  /** The text of a command record: non-empty, trimmed, and free of the
      comment characters `;` and `(`. */
  predicate CleanCommandText(l: string) {
    l != [] && !IsSpace(l[0]) && !IsSpace(l[|l| - 1]) && Avoids(l, ';') && Avoids(l, '(')
  }

  /** Every command record the parser produces carries clean text; in
      particular no command ever contains a `(`. */
  lemma ParsedCommandsClean(lines: seq<string>)
    ensures forall r :: r in ParseLines(lines) && r.Command? ==> CleanCommandText(r.line)
  {
    forall r | r in ParseLines(lines) && r.Command? ensures CleanCommandText(r.line) {
      var k :| 0 <= k < |ParseLines(lines)| && ParseLines(lines)[k] == r;
      FilterMapFrom(ParseLine, lines, k);
      var i :| 0 <= i < |lines| && ParseLine(lines[i]) == Some(r);
      CleanText(lines[i]);
    }
  }

  /** The cleaned text of a line that keeps something is clean. */
  lemma CleanText(line: string)
    requires Clean(line) != []
    ensures CleanCommandText(Clean(line))
  {
    var cut := CutComment(line);
    var stripped := StripBlockNumber(cut);
    SuffixAvoids(cut, |cut| - |stripped|, ';');
    SuffixAvoids(cut, |cut| - |stripped|, '(');
    TrimAvoids(stripped, ';');
    TrimAvoids(stripped, '(');
    assert Clean(line) == Trim(stripped);
  }

  /** A label line reads back as its name. */
  lemma LabelRoundTrip(name: string)
    requires IsIdentifier(name)
    ensures Classify(name + ":") == Label(name)
  {
    var s := name + ":";
    assert s[..|s| - 1] == name;
  }

  /** An assignment written `R<digits>=<expr>` reads back as its register and
      expression. */
  lemma AssignRoundTrip(digits: string, expr: string)
    requires |digits| >= 1 && AllDigits(digits)
    requires |expr| >= 1 && !IsSpace(expr[0])
    requires forall i :: 0 <= i < |expr| ==> !IsLineTerminator(expr[i])
    ensures Classify("R" + digits + "=" + expr) == Assign("R" + digits, expr)
  {
    var s := "R" + digits + "=" + expr;
    assert s[|digits| + 1] == '=';
    NotLabel(s, |digits| + 1);
    AsAssignOf(digits, expr);
  }

  /** Whichever pattern a line matches decides its record, and a line
      that matches none is a command holding the line itself. */
  lemma ClassifyFirstMatch(s: string)
    ensures AsLabel(s).Some? ==> Classify(s) == Label(AsLabel(s).value)
    ensures AsAssign(s).Some? ==> Classify(s) == AsAssign(s).value
    ensures AsIf(s).Some? ==> Classify(s) == AsIf(s).value
    ensures AsRepeat(s).Some? ==> Classify(s) == AsRepeat(s).value
    ensures AsLabel(s).None? && AsAssign(s).None? && AsIf(s).None? && AsRepeat(s).None? ==> Classify(s) == Command(s)
  {
    ClassifyAssign(s);
    ClassifyIf(s);
    ClassifyRepeat(s);
  }

  lemma ClassifyAssign(s: string)
    ensures AsAssign(s).Some? ==> Classify(s) == AsAssign(s).value
  {
    if AsAssign(s).Some? {
      AssignExcludes(s);
    }
  }

  lemma ClassifyIf(s: string)
    ensures AsIf(s).Some? ==> Classify(s) == AsIf(s).value
  {
    if |s| >= 4 && Fold(s[0]) == 'I' && IsSpace(s[2]) {
      IfExcludes(s);
    }
  }

  lemma ClassifyRepeat(s: string)
    ensures AsRepeat(s).Some? ==> Classify(s) == AsRepeat(s).value
  {
    if |s| >= 8 && Fold(s[0]) == 'R' && !IsDigit(s[1]) && IsSpace(s[6]) {
      NotLabel(s, 6);
      StartNotIf(s);
    }
  }

  /** The text of a comparison. */
  function OpText(op: Op): (t: string)
    ensures |t| >= 1 && !IsSpace(t[0])
    ensures OpAt(t + " ") == Some((op, |t|))
  {
    match op
    case Ge => ">="
    case Le => "<="
    case Eq => "=="
    case Gt => assert (">" + " ")[..2] == "> "; ">"
    case Lt => assert ("<" + " ")[..2] == "< "; "<"
  }

  /** `IF R<digits> <op> <value> GOTOB <target>` reads back as its register,
      comparison, value (read by `parseFloat`) and target. */
  lemma IfRoundTrip(digits: string, op: Op, value: string, target: string)
    requires |digits| >= 1 && AllDigits(digits)
    requires |value| >= 1 && forall i :: 0 <= i < |value| ==> IsValueChar(value[i])
    requires IsIdentifier(target)
    ensures Classify("IF " + ("R" + digits + " " + (OpText(op) + " " + (value + " GOTOB " + target))))
      == If("R" + digits, op, ParseFloat(value), target)
  {
    var rest := OpText(op) + " " + (value + " GOTOB " + target);
    IfAfterKeyword(digits, op, value, target);
    ClassifyAfterIf("R" + digits + " " + rest, If("R" + digits, op, ParseFloat(value), target));
  }

  /** A line `IF ` and a text that reads as a directive is that directive. */
  lemma ClassifyAfterIf(r: string, rec: Record)
    requires IfRegister(r) == Some(rec)
    ensures Classify("IF " + r) == rec
  {
    RegisterStart(r);
    AsIfOf(r);
    ClassifyIf("IF " + r);
  }

  /** What follows `IF ` reads as the whole directive. */
  lemma IfAfterKeyword(digits: string, op: Op, value: string, target: string)
    requires |digits| >= 1 && AllDigits(digits)
    requires |value| >= 1 && forall i :: 0 <= i < |value| ==> IsValueChar(value[i])
    requires IsIdentifier(target)
    ensures IfRegister("R" + digits + " " + (OpText(op) + " " + (value + " GOTOB " + target)))
      == Some(If("R" + digits, op, ParseFloat(value), target))
  {
    var ops := OpText(op) + " " + (value + " GOTOB " + target);
    assert ops[0] == OpText(op)[0];
    IfAfterRegister("R" + digits, op, value, target);
    IfRegisterOf(digits, ops);
  }

  lemma IfAfterRegister(reg: string, op: Op, value: string, target: string)
    requires |value| >= 1 && forall i :: 0 <= i < |value| ==> IsValueChar(value[i])
    requires IsIdentifier(target)
    ensures IfOperator(reg, OpText(op) + " " + (value + " GOTOB " + target)) == Some(If(reg, op, ParseFloat(value), target))
  {
    IfAfterOperator(reg, op, value, target);
    IfOperatorOf(reg, op, value + " GOTOB " + target);
  }

  lemma IfAfterOperator(reg: string, op: Op, value: string, target: string)
    requires |value| >= 1 && forall i :: 0 <= i < |value| ==> IsValueChar(value[i])
    requires IsIdentifier(target)
    ensures IfValue(reg, op, value + " GOTOB " + target) == Some(If(reg, op, ParseFloat(value), target))
  {
    IfTargetOf(reg, op, ParseFloat(value), target);
    IfValueOf(reg, op, value, target);
  }

  lemma AsIfOf(r: string)
    requires |r| >= 1 && !IsSpace(r[0])
    ensures AsIf("IF " + r) == IfRegister(r)
  {
    IfShape(r);
    SpaceThen(r);
  }

  lemma IfShape(r: string)
    ensures var s := "IF " + r; s[..2] == "IF" && s[2..] == " " + r && s[3..] == r
  {
    assert "IF " + r == "IF" + (" " + r);
    DropPrefix("IF", " " + r);
    DropPrefix("IF ", r);
  }

  lemma IfRegisterOf(digits: string, r: string)
    requires |digits| >= 1 && AllDigits(digits)
    requires |r| >= 1 && !IsSpace(r[0])
    ensures IfRegister("R" + digits + " " + r) == IfOperator("R" + digits, r)
  {
    RegisterShape(digits, r);
    IfDigitsOf(digits, r);
  }

  lemma IfDigitsOf(digits: string, r: string)
    requires AllDigits(digits)
    requires |r| >= 1 && !IsSpace(r[0])
    ensures IfDigits(digits + (" " + r)) == IfOperator("R" + digits, r)
  {
    SpanConcat(digits, " " + r, IsDigit);
    DropPrefix(digits, " " + r);
    TrimSpaceThen(r);
  }

  /** A register reference starts with `R`. */
  lemma RegisterStart(r: string)
    requires IfRegister(r).Some?
    ensures |r| >= 1 && !IsSpace(r[0])
  {
  }

  lemma RegisterShape(digits: string, r: string)
    requires |digits| >= 1
    ensures var s := "R" + digits + " " + r;
      && s[0] == 'R' && |s| > 1 + |digits| && s[1] == digits[0]
      && s[1..] == digits + (" " + r) && s[1..1 + |digits|] == digits && s[1 + |digits|..] == " " + r
  {
    var s := "R" + digits + " " + r;
    assert s == "R" + (digits + (" " + r));
    ConsTail('R', digits + (" " + r));
    DropPrefix(digits, " " + r);
  }

  lemma IfOperatorOf(reg: string, op: Op, r: string)
    requires |r| >= 1 && !IsSpace(r[0])
    ensures IfOperator(reg, OpText(op) + " " + r) == IfValue(reg, op, r)
  {
    var t := OpText(op);
    OpAtPrefix(t, r);
    DropAfter(t, " ", r);
    SpaceThen(r);
  }

  /** The operator is read from its own text and the space after it. */
  lemma OpAtPrefix(t: string, r: string)
    requires |t| >= 1
    ensures OpAt(t + " " + r) == OpAt(t + " ")
  {
    var s := t + " " + r;
    DropAfter(t, " ", r);
    assert s[..2] == (t + " ")[..2];
    assert s[0] == (t + " ")[0];
  }

  lemma IfValueOf(reg: string, op: Op, value: string, target: string)
    requires |value| >= 1 && forall i :: 0 <= i < |value| ==> IsValueChar(value[i])
    requires IsIdentifier(target)
    ensures IfValue(reg, op, value + " GOTOB " + target) == IfTarget(reg, op, ParseFloat(value), "GOTOB " + target)
  {
    var r := value + (" GOTOB " + target);
    assert r == value + " GOTOB " + target;
    SpanConcat(value, " GOTOB " + target, IsValueChar);
    assert r[..|value|] == value;
    assert r[|value|..] == " GOTOB " + target;
    SpanIs(" GOTOB " + target, IsSpace, 1);
    assert (" GOTOB " + target)[1..] == "GOTOB " + target;
  }

  lemma IfTargetOf(reg: string, op: Op, value: Option<real>, target: string)
    requires IsIdentifier(target)
    ensures IfTarget(reg, op, value, "GOTOB " + target) == Some(If(reg, op, value, target))
  {
    var r := "GOTOB " + target;
    assert r[..5] == "GOTOB";
    assert r[5..] == " " + target;
    SpanIs(" " + target, IsSpace, 1);
    assert r[6..] == target;
  }

  /** `REPEAT <block> P=<digits>` reads back as its block and count. */
  lemma RepeatRoundTrip(block: string, digits: string)
    requires IsIdentifier(block) && |digits| >= 1 && AllDigits(digits)
    ensures Classify("REPEAT " + block + " P=" + digits) == Repeat(block, DigitsValue(digits))
  {
    RepeatBlockOf(block, digits);
    ClassifyRepeatLine(block, digits, Repeat(block, DigitsValue(digits)));
  }

  /** Once the part after `REPEAT ` reads as a directive, the line does. */
  lemma ClassifyRepeatLine(block: string, digits: string, rec: Record)
    requires IsIdentifier(block)
    requires RepeatBlock(block + (" " + ("P=" + digits))) == Some(rec)
    ensures Classify("REPEAT " + block + " P=" + digits) == rec
  {
    assert !IsSpace(block[0]);
    ClassifyRepeatText(block, digits, rec);
  }

  lemma ClassifyRepeatText(block: string, digits: string, rec: Record)
    requires |block| >= 1 && !IsSpace(block[0])
    requires RepeatBlock(block + (" " + ("P=" + digits))) == Some(rec)
    ensures Classify("REPEAT " + block + " P=" + digits) == rec
  {
    var r1 := block + (" " + ("P=" + digits));
    RepeatText(block, digits);
    AsRepeatOf(r1);
    ClassifyRepeat("REPEAT" + (" " + r1));
  }

  lemma AsRepeatOf(r1: string)
    requires |r1| >= 1 && !IsSpace(r1[0])
    ensures AsRepeat("REPEAT" + (" " + r1)) == RepeatBlock(r1)
  {
    var s := "REPEAT" + (" " + r1);
    assert s[..6] == "REPEAT";
    assert s[6..] == " " + r1;
    SpanIs(" " + r1, IsSpace, 1);
    assert (" " + r1)[1..] == r1;
  }

  lemma RepeatBlockOf(block: string, digits: string)
    requires IsIdentifier(block) && |digits| >= 1 && AllDigits(digits)
    ensures RepeatBlock(block + (" " + ("P=" + digits))) == Some(Repeat(block, DigitsValue(digits)))
  {
    var r3 := "P=" + digits;
    var r2 := " " + r3;
    var r1 := block + r2;
    RepeatShape(block, digits);
    SpanConcat(block, r2, IsWordChar);
    SpanIs(r2, IsSpace, 1);
  }

  lemma RepeatShape(block: string, digits: string)
    requires |block| >= 1
    ensures var r3 := "P=" + digits; var r2 := " " + r3; var r1 := block + r2;
      && r1[0] == block[0] && r1[..|block|] == block && r1[|block|..] == r2
      && r2[0] == ' ' && r2[1..] == r3 && |r3| >= 2 && r3[0] == 'P' && r3[1] == '=' && r3[2..] == digits
  {
    var r3 := "P=" + digits;
    DropPrefix(block, " " + r3);
    ConsTail(' ', r3);
    DropPrefix("P=", digits);
  }

  /** The text of a `REPEAT` directive, grouped as the pattern reads it. */
  lemma RepeatText(block: string, digits: string)
    ensures "REPEAT " + block + " P=" + digits == "REPEAT" + (" " + (block + (" " + ("P=" + digits))))
  {
  }

  /** The four directive patterns exclude one another, so the order in
      which they are tried only matters against the command fallback. */
  lemma AssignExcludes(s: string)
    requires AsAssign(s).Some?
    ensures AsLabel(s).None? && AsIf(s).None? && AsRepeat(s).None?
  {
    var k :| 1 < k < |s| - 1 && s[k] == '=';
    NotLabel(s, k);
    StartNotIf(s);
    DigitNotRepeat(s);
  }

  /** Every `IF` directive has this shape (the ensures of `AsIf`), and no
      text of this shape is a label or a `REPEAT`. */
  lemma IfExcludes(s: string)
    requires |s| >= 4 && Fold(s[0]) == 'I' && IsSpace(s[2])
    ensures AsLabel(s).None? && AsRepeat(s).None?
  {
    NotLabel(s, 2);
    StartNotRepeat(s);
  }

  lemma RepeatExcludes(s: string)
    requires AsRepeat(s).Some?
    ensures AsLabel(s).None?
  {
    NotLabel(s, 6);
  }

  lemma StartNotIf(s: string)
    requires |s| >= 1 && Fold(s[0]) != 'I'
    ensures AsIf(s).None?
  {
    assert |s| >= 2 ==> Fold(s[..2][0]) != Fold("IF"[0]);
  }

  lemma StartNotRepeat(s: string)
    requires |s| >= 1 && Fold(s[0]) != 'R'
    ensures AsRepeat(s).None?
  {
    assert |s| >= 6 ==> Fold(s[..6][0]) != Fold("REPEAT"[0]);
  }

  lemma DigitNotRepeat(s: string)
    requires |s| >= 2 && IsDigit(s[1])
    ensures AsRepeat(s).None?
  {
    assert |s| >= 6 ==> Fold(s[..6][1]) != Fold("REPEAT"[1]);
  }

  /** A line with a character other than a word character before its last
      one is not a label. */
  lemma NotLabel(s: string, k: nat)
    requires k < |s| - 1 && !IsWordChar(s[k])
    ensures AsLabel(s) == None
  {
    assert s[..|s| - 1][k] == s[k];
  }

  lemma AsAssignOf(digits: string, expr: string)
    requires |digits| >= 1 && AllDigits(digits)
    requires |expr| >= 1 && !IsSpace(expr[0])
    requires forall i :: 0 <= i < |expr| ==> !IsLineTerminator(expr[i])
    ensures AsAssign("R" + digits + "=" + expr) == Some(Assign("R" + digits, expr))
  {
    var s := "R" + digits + "=" + expr;
    var t := digits + ("=" + expr);
    assert s == "R" + t;
    assert s[1..] == t;
    SpanConcat(digits, "=" + expr, IsDigit);
    assert t[|digits|..] == "=" + expr;
    assert s[1 + |digits|..] == t[|digits|..];
    assert s[1..1 + |digits|] == digits;
    AssignValueOf("R" + digits, expr);
  }

  lemma AssignValueOf(name: string, expr: string)
    requires |expr| >= 1 && !IsSpace(expr[0])
    requires forall i :: 0 <= i < |expr| ==> !IsLineTerminator(expr[i])
    ensures AssignValue(name, "=" + expr) == Some(Assign(name, expr))
  {
    var r1 := "=" + expr;
    SpanIs(r1, IsSpace, 0);
    assert r1[1..] == expr;
    SpanIs(expr, IsSpace, 0);
    assert expr[0..] == expr;
  }

  /** The parenthesis of `MCALL CYCLE81(...)` would start a comment: the
      line of a cycle call loses its parameter list and becomes the bare
      command `MCALL CYCLE8<d>`. */
  lemma CycleCallCut(d: char, p: string)
    requires '1' <= d <= '9'
    ensures ParseLine("MCALL CYCLE8" + [d] + "(" + p) == Some(Command("MCALL CYCLE8" + [d]))
  {
    var h := "MCALL CYCLE8" + [d];
    var line := h + ("(" + p);
    assert "MCALL CYCLE8" + [d] + "(" + p == line;
    SpanConcat(h, "(" + p, Uncommented);
    PlainCommand(line, h);
  }

  /** A line whose text before the comment is a trimmed command without a
      block number, that starts with neither `R` nor `I` and does not end in
      a colon, yields that command. */
  lemma PlainCommand(line: string, c: string)
    requires CutComment(line) == c && |c| >= 2 && !IsSpace(c[0]) && !IsSpace(c[|c| - 1])
    requires Fold(c[0]) !in {'N', 'O', 'R', 'I'} && c[|c| - 1] != ':'
    ensures ParseLine(line) == Some(Command(c))
  {
    assert StripBlockNumber(c) == c;
    TrimPlain(c);
    NotOtherDirective(c);
  }

  /** A text that starts and ends with a non-space character is already
      trimmed. */
  lemma TrimPlain(s: string)
    requires s != [] && !IsSpace(s[0]) && !IsSpace(s[|s| - 1])
    ensures Trim(s) == s
  {
    assert Span(s, IsSpace) == 0;
    assert SpanEnd(s, IsSpace) == 0;
  }

  /** `s` ends with a cycle name `CYCLE8<d>`, `d` from 1 to 9, in any case. */
  predicate EndsWithCycleName(s: string) {
    |s| >= 7 && MatchesFold(s[|s| - 7..|s| - 1], "CYCLE8") && '1' <= s[|s| - 1] <= '9'
  }

  /** A character that does not close a parameter list or start a `;`
      comment. */
  predicate InList(c: char) {
    c != ')' && c != ';'
  }

  /** Comment cutting that spares the parameter list of a cycle call: a `(`
      that follows a cycle name (white space allowed between) opens the
      list, which runs to the next `)`, and the cutting goes on after it; a
      `;`, and any other `(`, starts a comment as before. */
  function CutCommentIntended(s: string): (r: string)
    ensures |r| <= |s|
  {
    var n := Span(s, Uncommented);
    if n < |s| && s[n] == '(' && EndsWithCycleName(TrimEnd(s[..n])) then SpareList(s, n) else s[..n]
  }

  /** The cutting once a cycle name's `(` is found at `n`: the list is kept
      when it is closed, and the rest is cut as usual. */
  function SpareList(s: string, n: nat): (r: string)
    requires n < |s|
    ensures |r| <= |s|
  {
    var rest := s[n + 1..];
    var m := Span(rest, InList);
    if m < |rest| && rest[m] == ')' then s[..n + m + 2] + CutComment(rest[m + 1..]) else s[..n]
  }

  /** `ParseLine` with the comment cutting that spares cycle parameters. */
  function ParseLineIntended(line: string): Option<Record> {
    var c := Trim(StripBlockNumber(CutCommentIntended(line)));
    if c == [] then None else Some(Classify(c))
  }

  /** With the parameter list spared, the line of a cycle call reaches the
      interpreter whole. */
  lemma CycleCallKept(d: char, p: string)
    requires '1' <= d <= '9' && Avoids(p, ')') && Avoids(p, ';')
    ensures ParseLineIntended("MCALL CYCLE8" + [d] + "(" + p + ")") == Some(Command("MCALL CYCLE8" + [d] + "(" + p + ")"))
  {
    var line := "MCALL CYCLE8" + [d] + "(" + p + ")";
    CycleParamsSpared(d, p);
    assert StripBlockNumber(line) == line;
    TrimPlain(line);
    NotOtherDirective(line);
  }

  /** The comment cutting that spares cycle parameters keeps a cycle call
      whole. */
  lemma CycleParamsSpared(d: char, p: string)
    requires '1' <= d <= '9' && Avoids(p, ')') && Avoids(p, ';')
    ensures CutCommentIntended("MCALL CYCLE8" + [d] + "(" + p + ")") == "MCALL CYCLE8" + [d] + "(" + p + ")"
  {
    var h := "MCALL CYCLE8" + [d];
    TrimEndPlain(h);
    assert EndsWithCycleName(h) by {
      assert h[|h| - 7..|h| - 1] == "CYCLE8";
    }
    ListSpared(h, p);
  }

  /** A text free of comment starts that ends with a cycle name, followed by
      a parameter list, is left whole. */
  lemma ListSpared(h: string, p: string)
    requires Avoids(h, ';') && Avoids(h, '(') && EndsWithCycleName(TrimEnd(h))
    requires Avoids(p, ')') && Avoids(p, ';')
    ensures CutCommentIntended(h + "(" + p + ")") == h + "(" + p + ")"
  {
    var line := h + "(" + p + ")";
    assert line == h + ("(" + p + ")");
    SpanConcat(h, "(" + p + ")", Uncommented);
    assert line[..|h|] == h;
    var rest := line[|h| + 1..];
    assert rest == p + ")";
    SpanConcat(p, ")", InList);
    ListReachesEnd(line, |h|, |p|);
  }

  /** A line whose parameter list closes at its last character is left
      whole. */
  lemma ListReachesEnd(line: string, n: nat, m: nat)
    requires n == Span(line, Uncommented) && n + m + 2 == |line| && line[n] == '('
    requires EndsWithCycleName(TrimEnd(line[..n]))
    requires m == Span(line[n + 1..], InList) && line[n + 1 + m] == ')'
    ensures CutCommentIntended(line) == line
  {
    ListClosesAtEnd(line, n, m);
  }

  lemma ListClosesAtEnd(line: string, n: nat, m: nat)
    requires n + m + 2 == |line|
    requires m == Span(line[n + 1..], InList) && line[n + 1 + m] == ')'
    ensures SpareList(line, n) == line
  {
    var rest := line[n + 1..];
    assert rest[m] == ')' && rest[m + 1..] == [];
    CutCommentNone([]);
    assert line[..n + m + 2] == line;
  }

  /** A text that ends with a non-space character is its own `TrimEnd`. */
  lemma TrimEndPlain(s: string)
    requires s != [] && !IsSpace(s[|s| - 1])
    ensures TrimEnd(s) == s
  {
    assert SpanEnd(s, IsSpace) == 0;
  }
}
