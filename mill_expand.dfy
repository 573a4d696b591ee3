/** `expandProgram` of the milling pipeline: an interpreter that walks the
    records with a program counter, keeps a register bank and a
    drill-cycle context, and emits the moves the time integrator reads. */
module MillExpand {
  import opened Options
  import opened Text
  import opened Numbers
  import opened MillParse

  /** A piece of the text handed to `eval`: a character of the expression
      as written, or the value a register reference was replaced by. */
  datatype Token = Lit(c: char) | Num(v: real)

  /** `eval` of the substituted expression; `None` stands for a result that
      is not a number (NaN). */
  type Evaluator = seq<Token> -> Option<real>

  /** The register bank: the value `eval` gave each assigned register. */
  type Registers = map<string, Option<real>>

  /** `vars[name] || 0`: an unassigned register, and one holding NaN, reads
      as 0. */
  function Read(vars: Registers, name: string): real {
    if name in vars && vars[name].Some? then vars[name].value else 0.0
  }

  /** `expr.replace(/R(\d+)/g, ...)`: every upper-case `R` followed by
      digits, the digits taken as far as they go, becomes the value of that
      register; every other character is kept. */
  function Substitute(expr: string, vars: Registers): seq<Token>
    decreases |expr|
  {
    if expr == [] then []
    else if |expr| >= 2 && expr[0] == 'R' && IsDigit(expr[1]) then
      var d := Span(expr[1..], IsDigit);
      [Num(Read(vars, "R" + expr[1..1 + d]))] + Substitute(expr[1 + d..], vars)
    else [Lit(expr[0])] + Substitute(expr[1..], vars)
  }

  /** The characters of `s`, each as a literal token. */
  function Literal(s: string): (ts: seq<Token>)
    ensures |ts| == |s|
    ensures forall i :: 0 <= i < |s| ==> ts[i] == Lit(s[i])
  {
    seq(|s|, i requires 0 <= i < |s| => Lit(s[i]))
  }

  /** No upper-case `R` followed by a digit anywhere in `s`. */
  predicate NoReference(s: string) {
    forall i :: 0 <= i < |s| - 1 ==> !(s[i] == 'R' && IsDigit(s[i + 1]))
  }

  /** An expression that names no register reaches `eval` as written. */
  lemma {:induction false} SubstituteNoReference(expr: string, vars: Registers)
    requires NoReference(expr)
    ensures Substitute(expr, vars) == Literal(expr)
    decreases |expr|
  {
    if expr != [] {
      assert NoReference(expr[1..]) by {
        forall i | 0 <= i < |expr[1..]| - 1 ensures !(expr[1..][i] == 'R' && IsDigit(expr[1..][i + 1])) {
          assert expr[1..][i] == expr[i + 1] && expr[1..][i + 1] == expr[i + 2];
        }
      }
      SubstituteNoReference(expr[1..], vars);
      assert Literal(expr) == [Lit(expr[0])] + Literal(expr[1..]);
    }
  }

  /** With no register assigned, every reference is replaced by 0. */
  lemma {:induction false} SubstituteUnassigned(expr: string)
    ensures forall t :: t in Substitute(expr, map[]) && t.Num? ==> t.v == 0.0
    decreases |expr|
  {
    if expr != [] {
      if |expr| >= 2 && expr[0] == 'R' && IsDigit(expr[1]) {
        SubstituteUnassigned(expr[1 + Span(expr[1..], IsDigit)..]);
      } else {
        SubstituteUnassigned(expr[1..]);
      }
    }
  }

  /** The comparison of an `IF` directive; a NaN value compares false. */
  predicate Holds(op: Op, v: real, value: Option<real>) {
    match value
    case None => false
    case Some(x) =>
      match op
      case Ge => v >= x
      case Le => v <= x
      case Eq => v == x
      case Gt => v > x
      case Lt => v < x
  }

  /** The parameters of the active drill cycle. A parameter the call did not
      supply is `None` (`undefined` in the interpreter). */
  datatype Cycle = Cycle(approach: real, plane: Option<real>, safety: Option<real>, depth: Option<real>)

  /** One line handed to the time integrator: a command line as written, or
      one of the three move shapes of a drill cycle. A `None` coordinate
      stands for NaN or `undefined` in the line's text. */
  datatype Emitted =
    | Verbatim(line: string)
    | RapidZ(z: Option<real>)
    | RapidXY(x: Option<real>, y: Option<real>)
    | FeedZ(z: Option<real>)

  /** Element `k` of the parameter list, when there is one. */
  function Param(vals: seq<real>, k: nat): Option<real> {
    if k < |vals| then Some(vals[k]) else None
  }

  /** `p.split(',').map(v => parseFloat(v) || 0)` and the first four
      entries of the result. */
  function CycleParams(p: string): (c: Cycle)
    ensures Count(p, ',') >= 3 ==> c.plane.Some? && c.safety.Some? && c.depth.Some?
    ensures Count(p, ',') == 0 ==> c.plane.None? && c.safety.None? && c.depth.None?
  {
    var vals := Values(Split(p, ','));
    Cycle(vals[0], Param(vals, 1), Param(vals, 2), Param(vals, 3))
  }

  /** `parseFloat(v) || 0` of every piece, in order. */
  function Values(parts: seq<string>): (vals: seq<real>)
    ensures |vals| == |parts|
    ensures forall i :: 0 <= i < |parts| ==> vals[i] == ParseFloat(parts[i]).GetOr(0.0)
  {
    if parts == [] then [] else [ParseFloat(parts[0]).GetOr(0.0)] + Values(parts[1..])
  }

  /** `approach,plane,safety,depth` written as four integers reads back
      as those four values. */
  lemma CycleParamsOf(a: int, b: int, c: int, d: int)
    ensures CycleParams(ShowInt(a) + "," + ShowInt(b) + "," + ShowInt(c) + "," + ShowInt(d))
      == Cycle(a as real, Some(b as real), Some(c as real), Some(d as real))
  {
    var sa, sb, sc, sd := ShowInt(a), ShowInt(b), ShowInt(c), ShowInt(d);
    var p := sa + "," + sb + "," + sc + "," + sd;
    assert Split(p, ',') == [sa, sb, sc, sd] by {
      NoCommaInInt(a);
      NoCommaInInt(b);
      NoCommaInInt(c);
      NoCommaInInt(d);
      SplitFour(sa, sb, sc, sd);
    }
    var vals := Values([sa, sb, sc, sd]);
    assert vals[0] == a as real by { ParseShowInt(a); }
    assert vals[1] == b as real by { ParseShowInt(b); }
    assert vals[2] == c as real by { ParseShowInt(c); }
    assert vals[3] == d as real by { ParseShowInt(d); }
  }

  /** Four pieces without a comma, joined by commas, split back apart. */
  lemma SplitFour(sa: string, sb: string, sc: string, sd: string)
    requires ',' !in sa && ',' !in sb && ',' !in sc && ',' !in sd
    ensures Split(sa + "," + sb + "," + sc + "," + sd, ',') == [sa, sb, sc, sd]
  {
    assert sa + "," + sb + "," + sc + "," + sd == sa + [','] + (sb + [','] + (sc + [','] + sd));
    SplitFirst(sa, sb + [','] + (sc + [','] + sd), ',');
    SplitFirst(sb, sc + [','] + sd, ',');
    SplitFirst(sc, sd, ',');
    SplitOne(sd, ',');
  }

  /** An integer is written without a comma. */
  lemma NoCommaInInt(i: int)
    ensures ',' !in ShowInt(i)
  {
    var n := ShowNat(if i < 0 then -i else i);
    assert forall k :: 0 <= k < |n| ==> IsDigit(n[k]);
  }

  predicate NotClose(c: char) { c != ')' }

  /** `^MCALL\s+CYCLE8[1-9]\s*\(\s*([^)]+)\)` under the `i` flag: the call
      that starts a drill cycle, with its parameters. */
  function AsCycleStart(line: string): Option<Cycle> {
    if |line| >= 5 && MatchesFold(line[..5], "MCALL") then
      var r := line[5..];
      var w := Span(r, IsSpace);
      if w >= 1 then CycleName(r[w..]) else None
    else None
  }

  /** `CYCLE8[1-9]\s*\(` and the parameter list after it. */
  function CycleName(r: string): Option<Cycle> {
    if |r| >= 7 && MatchesFold(r[..6], "CYCLE8") && '1' <= r[6] <= '9' then
      var r2 := r[7..];
      var r3 := r2[Span(r2, IsSpace)..];
      if |r3| >= 1 && r3[0] == '(' then CycleGroup(r3[1..]) else None
    else None
  }

  /** A cycle call has an opening parenthesis. */
  lemma CycleStartParen(line: string)
    requires AsCycleStart(line).Some?
    ensures !Avoids(line, '(')
  {
    var r := line[5..];
    var w := Span(r, IsSpace);
    CycleNameParen(r[w..]);
    var i :| 0 <= i < |r[w..]| && r[w..][i] == '(';
    assert line[5 + w + i] == '(';
  }

  lemma CycleNameParen(r: string)
    requires CycleName(r).Some?
    ensures !Avoids(r, '(')
  {
    var r2 := r[7..];
    assert r[7 + Span(r2, IsSpace)] == '(';
  }

  /** `\s*([^)]+)\)`: the group runs up to the first `)` and holds at least
      one character; the white space before it is skipped as far as that
      allows. */
  function CycleGroup(r: string): Option<Cycle> {
    var k := Span(r, NotClose);
    if 1 <= k < |r| then
      var s := Span(r, IsSpace);
      Some(CycleParams(r[if s < k then s else k - 1..k]))
    else None
  }

  /** `^MCALL\s*$` under the `i` flag: the call that ends a drill cycle. */
  predicate IsCycleEnd(line: string) {
    |line| >= 5 && MatchesFold(line[..5], "MCALL") && AllSpace(line[5..])
  }

  /** `^X([-\d.]+)\s+Y([-\d.]+)` under the `i` flag, the coordinates read by
      `parseFloat` (`None` for NaN). */
  function AsXY(line: string): Option<(Option<real>, Option<real>)> {
    if |line| >= 1 && Fold(line[0]) == 'X' then
      var r := line[1..];
      var a := Span(r, IsValueChar);
      var r2 := r[a..];
      var w := Span(r2, IsSpace);
      var r3 := r2[w..];
      if a >= 1 && w >= 1 && |r3| >= 1 && Fold(r3[0]) == 'Y' then
        var b := Span(r3[1..], IsValueChar);
        if b >= 1 then Some((ParseFloat(r[..a]), ParseFloat(r3[1..1 + b]))) else None
      else None
    else None
  }

  /** `undefined + x` and `NaN + x` are NaN. */
  function Sum(a: Option<real>, b: Option<real>): Option<real> {
    if a.Some? && b.Some? then Some(a.value + b.value) else None
  }

  /** The five moves one hole of a drill cycle stands for. */
  function Drill(c: Cycle, x: Option<real>, y: Option<real>): seq<Emitted> {
    [RapidZ(Some(c.approach)), RapidXY(x, y), RapidZ(Sum(c.plane, c.safety)), FeedZ(c.depth), RapidZ(Some(c.approach))]
  }

  /** The label table: each label name with the index of the label record,
      a later record of the same name replacing an earlier one. */
  function LabelTable(raw: seq<Record>): (t: map<string, nat>)
    ensures forall n :: n in t ==> t[n] < |raw|
  {
    if raw == [] then map[]
    else
      var t := LabelTable(raw[..|raw| - 1]);
      match raw[|raw| - 1]
      case Label(name) => t[name := |raw| - 1]
      case _ => t
  }

  /** The index `k` holds the last label record named `name`. */
  predicate LastLabel(raw: seq<Record>, name: string, k: int) {
    0 <= k < |raw| && raw[k] == Label(name) && forall j :: k < j < |raw| ==> raw[j] != Label(name)
  }

  /** A name is in the label table exactly when some record labels it, and
      then the table holds the index of the last such record. */
  lemma {:induction false} LabelTableLast(raw: seq<Record>, name: string)
    ensures name in LabelTable(raw) <==> exists k :: 0 <= k < |raw| && raw[k] == Label(name)
    ensures name in LabelTable(raw) ==> LastLabel(raw, name, LabelTable(raw)[name])
  {
    if raw != [] {
      var init := raw[..|raw| - 1];
      LabelTableLast(init, name);
      if raw[|raw| - 1] != Label(name) {
        if exists k :: 0 <= k < |raw| && raw[k] == Label(name) {
          var k :| 0 <= k < |raw| && raw[k] == Label(name);
          assert init[k] == Label(name);
        }
        if name in LabelTable(init) {
          var k := LabelTable(init)[name];
          assert raw[k] == init[k];
          assert forall j :: k < j < |init| ==> raw[j] == init[j];
        }
      }
    }
  }

  /** `raw.forEach((r, i) => { if (r.type === 'label') labels[r.name] = i; })` */
  method BuildLabels(raw: seq<Record>) returns (labels: map<string, nat>)
    ensures labels == LabelTable(raw)
  {
    labels := map[];
    for i := 0 to |raw|
      invariant labels == LabelTable(raw[..i])
    {
      assert raw[..i + 1][..i] == raw[..i];
      if raw[i].Label? {
        labels := labels[raw[i].name := i];
      }
    }
    assert raw[..|raw|] == raw;
  }

  /** `labels['ENDLABEL'] || raw.length`: a repeat range ends at the
      `ENDLABEL` label, or at the end when there is none or it sits at
      index 0. */
  function RepeatEnd(raw: seq<Record>): (e: nat)
    ensures e <= |raw|
  {
    var t := LabelTable(raw);
    if "ENDLABEL" in t && t["ENDLABEL"] != 0 then t["ENDLABEL"] else |raw|
  }

  /** The range ends at the last `ENDLABEL` label when one sits past index
      0, and at the end of the program otherwise. */
  lemma RepeatEndLast(raw: seq<Record>)
    ensures (exists k :: 0 < k < |raw| && raw[k] == Label("ENDLABEL")) ==> LastLabel(raw, "ENDLABEL", RepeatEnd(raw))
    ensures (forall k :: 0 < k < |raw| ==> raw[k] != Label("ENDLABEL")) ==> RepeatEnd(raw) == |raw|
  {
    LabelTableLast(raw, "ENDLABEL");
    var t := LabelTable(raw);
    if "ENDLABEL" in t && t["ENDLABEL"] == 0 {
      assert forall k :: 0 < k < |raw| ==> raw[k] != Label("ENDLABEL");
    }
  }

  /** The lines of the command records at indices `lo` to `hi - 1`. */
  function CommandLines(raw: seq<Record>, lo: nat, hi: nat): seq<Emitted>
    requires lo <= hi <= |raw|
    decreases hi
  {
    if hi == lo then []
    else CommandLines(raw, lo, hi - 1) + (if raw[hi - 1].Command? then [Verbatim(raw[hi - 1].line)] else [])
  }

  /** The lines one pass of `REPEAT block` copies; none when the block
      label is missing or sits at or after the end of the range. */
  function RepeatBody(raw: seq<Record>, block: string): seq<Emitted> {
    var t := LabelTable(raw);
    var e := RepeatEnd(raw);
    if block in t && t[block] <= e then CommandLines(raw, t[block], e) else []
  }

  /** `s` written `n` times in a row. */
  function Repeated(s: seq<Emitted>, n: nat): seq<Emitted> {
    if n == 0 then [] else Repeated(s, n - 1) + s
  }

  /** The interpreter's variables: the program counter `i`, the register
      bank, the drill-cycle context and the lines emitted so far. */
  datatype State = State(ip: nat, vars: Registers, cycle: Option<Cycle>, out: seq<Emitted>)

  const Start := State(0, map[], None, [])

  /** One pass of the `while` loop, on the record the counter is at. */
  function Step(raw: seq<Record>, eval: Evaluator, st: State): State
    requires st.ip < |raw|
  {
    var next := st.ip + 1;
    match raw[st.ip]
    case Label(_) => st.(ip := next)
    case Assign(reg, expr) => st.(ip := next, vars := st.vars[reg := eval(Substitute(expr, st.vars))])
    case If(reg, op, value, target) =>
      var t := LabelTable(raw);
      var ok := Holds(op, Read(st.vars, reg), value);
      st.(ip := if ok && target in t && t[target] != 0 then t[target] else next)
    case Repeat(block, count) => st.(ip := next, out := st.out + Repeated(RepeatBody(raw, block), count))
    case Command(line) =>
      var e := Execute(line, st.cycle, st.out);
      st.(ip := next, cycle := e.0, out := e.1)
  }

  /** A command record: it starts or ends a drill cycle, stands for a hole
      of the active cycle, or is emitted as written. The result is the new
      cycle context and the new output. */
  function Execute(line: string, cycle: Option<Cycle>, out: seq<Emitted>): (Option<Cycle>, seq<Emitted>) {
    match AsCycleStart(line)
    case Some(c) => (Some(c), out)
    case None =>
      if IsCycleEnd(line) then (None, out)
      else if cycle.Some? && AsXY(line).Some? then
        (cycle, out + Drill(cycle.value, AsXY(line).value.0, AsXY(line).value.1))
      else (cycle, out + [Verbatim(line)])
  }

  /** At most `fuel` passes of the loop from `st`; the loop ends once the
      counter is past the last record. */
  function Run(raw: seq<Record>, eval: Evaluator, fuel: nat, st: State): State
    decreases fuel
  {
    if st.ip >= |raw| || fuel == 0 then st else Run(raw, eval, fuel - 1, Step(raw, eval, st))
  }

  lemma RunStep(raw: seq<Record>, eval: Evaluator, fuel: nat, st: State)
    requires st.ip < |raw| && fuel > 0
    ensures Run(raw, eval, fuel, st) == Run(raw, eval, fuel - 1, Step(raw, eval, st))
  {
  }

  lemma RunDone(raw: seq<Record>, eval: Evaluator, fuel: nat, st: State)
    requires st.ip >= |raw| || fuel == 0
    ensures Run(raw, eval, fuel, st) == st
  {
  }

  /** parser-mill.js `expandProgram`, bounded to `fuel` passes of its loop:
      `cmds` is what it has emitted by then and `halted` says whether the
      loop ended on its own. */
  method ExpandProgram(raw: seq<Record>, eval: Evaluator, fuel: nat) returns (cmds: seq<Emitted>, halted: bool)
    ensures cmds == Run(raw, eval, fuel, Start).out
    ensures halted <==> Run(raw, eval, fuel, Start).ip >= |raw|
  {
    var labels := BuildLabels(raw);
    var st := Start;
    var steps := 0;
    while st.ip < |raw| && steps < fuel
      invariant steps <= fuel
      invariant Run(raw, eval, fuel, Start) == Run(raw, eval, fuel - steps, st)
      decreases fuel - steps
    {
      RunStep(raw, eval, fuel - steps, st);
      st := Pass(raw, labels, eval, st);
      steps := steps + 1;
    }
    RunDone(raw, eval, fuel - steps, st);
    cmds := st.out;
    halted := st.ip >= |raw|;
  }

  /** The body of the `while` loop: the record at `i` is handled and the
      new counter, registers, cycle context and output are returned. */
  method Pass(raw: seq<Record>, labels: map<string, nat>, eval: Evaluator, before: State)
    returns (next: State)
    requires before.ip < |raw| && labels == LabelTable(raw)
    ensures next == Step(raw, eval, before)
  {
    var i, vars, cycle, cmds := before.ip, before.vars, before.cycle, before.out;
    match raw[i] {
      case Label(_) =>
        i := i + 1;
      case Assign(reg, expr) =>
        vars := vars[reg := eval(Substitute(expr, vars))];
        i := i + 1;
      case If(reg, op, value, target) =>
        var v := Read(vars, reg);
        if Holds(op, v, value) && target in labels && labels[target] != 0 {
          i := labels[target];
        } else {
          i := i + 1;
        }
      case Repeat(block, count) =>
        cmds := RepeatBlock(raw, labels, block, count, cmds);
        i := i + 1;
      case Command(line) =>
        StepCommand(raw, eval, before, line);
        cycle, cmds := ExecuteCommand(line, cycle, cmds);
        i := i + 1;
    }
    next := State(i, vars, cycle, cmds);
  }

  /** A command record moves the counter on by one and leaves the
      registers alone; the context and the output are what `Execute` makes
      of them. */
  lemma StepCommand(raw: seq<Record>, eval: Evaluator, st: State, line: string)
    requires st.ip < |raw| && raw[st.ip] == Command(line)
    ensures var e := Execute(line, st.cycle, st.out);
      Step(raw, eval, st) == State(st.ip + 1, st.vars, e.0, e.1)
  {
  }

  /** The `command` branch: a cycle call replaces the context, a bare
      `MCALL` clears it, a hole of the active cycle emits its five moves and
      any other line is emitted as written. */
  method ExecuteCommand(line: string, cycle0: Option<Cycle>, cmds0: seq<Emitted>)
    returns (cycle: Option<Cycle>, cmds: seq<Emitted>)
    ensures (cycle, cmds) == Execute(line, cycle0, cmds0)
  {
    cycle, cmds := cycle0, cmds0;
    var start := AsCycleStart(line);
    if start.Some? {
      cycle := start;
      return;
    }
    if IsCycleEnd(line) {
      cycle := None;
      return;
    }
    var xy := AsXY(line);
    if cycle.Some? && xy.Some? {
      cmds := cmds + Drill(cycle.value, xy.value.0, xy.value.1);
      return;
    }
    cmds := cmds + [Verbatim(line)];
  }

  /** The `repeat` branch: `count` passes over the block, each appending the
      line of every command record in the range. */
  method RepeatBlock(raw: seq<Record>, labels: map<string, nat>, block: string, count: nat, cmds0: seq<Emitted>)
    returns (cmds: seq<Emitted>)
    requires labels == LabelTable(raw)
    ensures cmds == cmds0 + Repeated(RepeatBody(raw, block), count)
  {
    var body := RepeatBody(raw, block);
    var end := if "ENDLABEL" in labels && labels["ENDLABEL"] != 0 then labels["ENDLABEL"] else |raw|;
    cmds := cmds0;
    if block !in labels || labels[block] > end {
      RepeatedEmpty(body, count);
      return;
    }
    var start := labels[block];
    assert body == CommandLines(raw, start, end);
    for c := 0 to count
      invariant cmds == cmds0 + Repeated(body, c)
    {
      cmds := CopyBlock(raw, start, end, cmds);
      assert cmds == cmds0 + Repeated(body, c + 1);
    }
  }

  /** One pass of the repeat: the line of every command record from
      `start` up to `end` is appended. */
  method CopyBlock(raw: seq<Record>, start: nat, end: nat, cmds0: seq<Emitted>) returns (cmds: seq<Emitted>)
    requires start <= end <= |raw|
    ensures cmds == cmds0 + CommandLines(raw, start, end)
  {
    cmds := cmds0;
    var j := start;
    while j < end
      invariant start <= j <= end
      invariant cmds == cmds0 + CommandLines(raw, start, j)
    {
      if raw[j].Command? {
        cmds := cmds + [Verbatim(raw[j].line)];
      }
      j := j + 1;
    }
  }

  lemma {:induction false} RepeatedEmpty(s: seq<Emitted>, n: nat)
    requires s == []
    ensures Repeated(s, n) == []
  {
    if n > 0 { RepeatedEmpty(s, n - 1); }
  }

  /** Every line a program emits as written is the line of one of its
      command records; labels, assignments, conditionals and repeat
      directives never show up themselves. */
  predicate FromCommands(raw: seq<Record>, out: seq<Emitted>) {
    forall e :: e in out && e.Verbatim? ==> Command(e.line) in raw
  }

  /** The lines one repeat pass copies are exactly the lines of the command
      records in its range, in order of index, unexpanded. */
  lemma {:induction false} CommandLinesFrom(raw: seq<Record>, lo: nat, hi: nat)
    requires lo <= hi <= |raw|
    ensures forall e :: e in CommandLines(raw, lo, hi) ==>
      e.Verbatim? && exists k :: lo <= k < hi && raw[k] == Command(e.line)
    ensures forall k :: lo <= k < hi && raw[k].Command? ==> Verbatim(raw[k].line) in CommandLines(raw, lo, hi)
    decreases hi
  {
    if hi > lo {
      CommandLinesFrom(raw, lo, hi - 1);
    }
  }

  /** `count` copies make the output `count` times as long, and hold only
      what one copy holds. */
  lemma {:induction false} RepeatedShape(s: seq<Emitted>, n: nat)
    ensures |Repeated(s, n)| == n * |s|
    ensures forall e :: e in Repeated(s, n) ==> e in s
  {
    if n > 0 {
      RepeatedShape(s, n - 1);
      assert |Repeated(s, n)| == (n - 1) * |s| + |s|;
    }
  }

  /** One pass of the loop never takes back output. */
  lemma StepExtends(raw: seq<Record>, eval: Evaluator, st: State)
    requires st.ip < |raw|
    ensures |Step(raw, eval, st).out| >= |st.out| && Step(raw, eval, st).out[..|st.out|] == st.out
  {
    var out := Step(raw, eval, st).out;
    assert out == st.out + out[|st.out|..];
  }

  /** The output of a run starts with the output it started from. */
  lemma {:induction false} RunExtends(raw: seq<Record>, eval: Evaluator, fuel: nat, st: State)
    ensures |Run(raw, eval, fuel, st).out| >= |st.out|
    ensures Run(raw, eval, fuel, st).out[..|st.out|] == st.out
    decreases fuel
  {
    if st.ip < |raw| && fuel > 0 {
      var next := Step(raw, eval, st);
      StepExtends(raw, eval, st);
      RunExtends(raw, eval, fuel - 1, next);
      assert Run(raw, eval, fuel - 1, next).out[..|next.out|][..|st.out|] == st.out;
    }
  }

  /** Labels, assignments and conditionals emit nothing and leave the drill
      cycle alone; labels and conditionals leave the registers alone too. */
  lemma StepQuiet(raw: seq<Record>, eval: Evaluator, st: State)
    requires st.ip < |raw| && (raw[st.ip].Label? || raw[st.ip].Assign? || raw[st.ip].If?)
    ensures Step(raw, eval, st).out == st.out && Step(raw, eval, st).cycle == st.cycle
    ensures !raw[st.ip].Assign? ==> Step(raw, eval, st).vars == st.vars
    ensures !raw[st.ip].If? ==> Step(raw, eval, st).ip == st.ip + 1
  {
  }

  /** An assignment stores what `eval` makes of the expression once every
      register reference in it is replaced by the register's value, and
      touches no other register. */
  lemma StepAssign(raw: seq<Record>, eval: Evaluator, st: State)
    requires st.ip < |raw| && raw[st.ip].Assign?
    ensures var after := Step(raw, eval, st); var reg := raw[st.ip].reg;
      && reg in after.vars && after.vars[reg] == eval(Substitute(raw[st.ip].expr, st.vars))
      && (forall name :: name != reg ==> (name in after.vars <==> name in st.vars))
      && (forall name :: name != reg && name in st.vars ==> after.vars[name] == st.vars[name])
  {
  }

  /** The pass of one loop iteration adds only lines of command records. */
  lemma StepFromCommands(raw: seq<Record>, eval: Evaluator, st: State)
    requires st.ip < |raw| && FromCommands(raw, st.out)
    ensures FromCommands(raw, Step(raw, eval, st).out)
  {
    match raw[st.ip]
    case Repeat(block, count) =>
      assert Step(raw, eval, st).out == st.out + Repeated(RepeatBody(raw, block), count);
      RepeatFromCommands(raw, block, count, st.out);
    case Command(line) =>
      StepCommand(raw, eval, st, line);
      ExecuteAdds(line, st.cycle, st.out);
    case _ =>
  }

  /** A repeat pass only copies lines of command records. */
  lemma RepeatFromCommands(raw: seq<Record>, block: string, count: nat, out: seq<Emitted>)
    requires FromCommands(raw, out)
    ensures FromCommands(raw, out + Repeated(RepeatBody(raw, block), count))
  {
    var body := RepeatBody(raw, block);
    RepeatedShape(body, count);
    var t := LabelTable(raw);
    if block in t && t[block] <= RepeatEnd(raw) {
      CommandLinesFrom(raw, t[block], RepeatEnd(raw));
    }
    forall e | e in out + Repeated(body, count) && e.Verbatim? ensures Command(e.line) in raw {
      if e !in out {
        assert e in body;
        var k :| 0 <= k < |raw| && raw[k] == Command(e.line);
      }
    }
  }

  /** Labels, assignments, conditionals and repeat directives are never
      emitted: every line a run emits as written is the line of a command
      record of the program. */
  lemma {:induction false} RunFromCommands(raw: seq<Record>, eval: Evaluator, fuel: nat, st: State)
    requires FromCommands(raw, st.out)
    ensures FromCommands(raw, Run(raw, eval, fuel, st).out)
    decreases fuel
  {
    if st.ip < |raw| && fuel > 0 {
      StepFromCommands(raw, eval, st);
      RunFromCommands(raw, eval, fuel - 1, Step(raw, eval, st));
    }
  }

  /** A line that starts with `X` is never a cycle call nor a bare `MCALL`:
      with a cycle active, an `X.. Y..` line emits exactly the five moves of
      the hole, in order, and the cycle stays active. */
  lemma StepDrill(raw: seq<Record>, eval: Evaluator, st: State, line: string)
    requires st.ip < |raw| && raw[st.ip] == Command(line) && st.cycle.Some?
    requires AsXY(line).Some?
    ensures var xy := AsXY(line).value; var c := st.cycle.value;
      Step(raw, eval, st) == st.(ip := st.ip + 1, out := st.out + [
        RapidZ(Some(c.approach)), RapidXY(xy.0, xy.1), RapidZ(Sum(c.plane, c.safety)),
        FeedZ(c.depth), RapidZ(Some(c.approach))])
  {
    StepCommand(raw, eval, st, line);
    ExecuteHole(line, st.cycle.value, st.out);
  }

  /** With a cycle active, a hole line emits the cycle's moves and keeps the
      cycle. */
  lemma ExecuteHole(line: string, c: Cycle, out: seq<Emitted>)
    requires AsXY(line).Some?
    ensures Execute(line, Some(c), out) == (Some(c), out + Drill(c, AsXY(line).value.0, AsXY(line).value.1))
  {
    HoleIsNoCall(line);
  }

  /** A line that starts with `X` is neither a cycle call nor a bare `MCALL`. */
  lemma HoleIsNoCall(line: string)
    requires AsXY(line).Some?
    ensures AsCycleStart(line) == None && !IsCycleEnd(line)
  {
    assert Fold(line[0]) != Fold("MCALL"[0]);
  }

  /** A command record adds at most its own line as written; everything
      else it may add is a drill move. */
  lemma ExecuteAdds(line: string, cycle: Option<Cycle>, out: seq<Emitted>)
    ensures forall e :: e in Execute(line, cycle, out).1 && e.Verbatim? ==> e in out || e == Verbatim(line)
  {
  }

  /** The drill cycle changes only on a command record: a cycle call makes
      its parameters the active cycle, a bare `MCALL` clears it, and every
      other record, holes included, leaves it as it was. */
  lemma StepCycle(raw: seq<Record>, eval: Evaluator, st: State)
    requires st.ip < |raw|
    ensures var r := raw[st.ip]; var c := Step(raw, eval, st).cycle;
      && (r.Command? && AsCycleStart(r.line).Some? ==> c == AsCycleStart(r.line))
      && (r.Command? && AsCycleStart(r.line).None? && IsCycleEnd(r.line) ==> c == None)
      && (!(r.Command? && (AsCycleStart(r.line).Some? || IsCycleEnd(r.line))) ==> c == st.cycle)
  {
  }

  /** The conditional jump. When the comparison of the register's value
      (0 when unassigned) fails, the counter moves on by one. When it
      holds, the counter goes to the last label of the target's name, unless
      there is none or it sits at index 0, where it moves on by one too. */
  lemma StepIf(raw: seq<Record>, eval: Evaluator, st: State)
    requires st.ip < |raw| && raw[st.ip].If?
    ensures var r := raw[st.ip]; var ip := Step(raw, eval, st).ip;
      var ok := Holds(r.op, if r.reg in st.vars && st.vars[r.reg].Some? then st.vars[r.reg].value else 0.0, r.value);
      && (!ok ==> ip == st.ip + 1)
      && (ok && (forall k :: 0 < k < |raw| ==> raw[k] != Label(r.target)) ==> ip == st.ip + 1)
      && (ok && (exists k :: 0 < k < |raw| && raw[k] == Label(r.target)) ==> LastLabel(raw, r.target, ip))
  {
    var r := raw[st.ip];
    LabelTableLast(raw, r.target);
    var t := LabelTable(raw);
    if r.target in t && t[r.target] == 0 {
      assert forall k :: 0 < k < |raw| ==> raw[k] != Label(r.target);
    }
  }

  /** A repeat directive appends its block `count` times: the output grows
      by `count` times the number of command lines in the range, and every
      line added is the line of a command record in the range, copied as
      written even where it is a hole of an active drill cycle. A block
      without a label adds nothing. */
  lemma StepRepeat(raw: seq<Record>, eval: Evaluator, st: State)
    requires st.ip < |raw| && raw[st.ip].Repeat?
    ensures var r := raw[st.ip]; var after := Step(raw, eval, st);
      && |after.out| == |st.out| + r.count * |RepeatBody(raw, r.block)|
      && after.out[..|st.out|] == st.out
      && after.cycle == st.cycle && after.vars == st.vars && after.ip == st.ip + 1
      && (forall e :: e in after.out[|st.out|..] ==> e.Verbatim? && exists k :: 0 <= k < |raw| && raw[k] == Command(e.line))
      && ((forall k :: 0 <= k < |raw| ==> raw[k] != Label(r.block)) ==> after.out == st.out)
  {
    var r := raw[st.ip];
    var after := Step(raw, eval, st);
    var body := RepeatBody(raw, r.block);
    RepeatedShape(body, r.count);
    LabelTableLast(raw, r.block);
    var t := LabelTable(raw);
    if r.block in t && t[r.block] <= RepeatEnd(raw) {
      CommandLinesFrom(raw, t[r.block], RepeatEnd(raw));
    }
    assert after.out[|st.out|..] == Repeated(body, r.count);
  }

  /** The lines of one repeat pass: the command records between the last
      label of the block (inclusive) and the end of the range (exclusive),
      every one of them. */
  lemma RepeatBodyRange(raw: seq<Record>, block: string, k: nat)
    requires LastLabel(raw, block, k) && k <= RepeatEnd(raw)
    ensures forall e :: e in RepeatBody(raw, block) ==>
      e.Verbatim? && exists j :: k <= j < RepeatEnd(raw) && raw[j] == Command(e.line)
    ensures forall j :: k <= j < RepeatEnd(raw) && raw[j].Command? ==> Verbatim(raw[j].line) in RepeatBody(raw, block)
  {
    LabelTableLast(raw, block);
    var t := LabelTable(raw);
    assert t[block] == k;
    CommandLinesFrom(raw, k, RepeatEnd(raw));
  }

  /** No record is an `IF`. */
  predicate NoJumps(raw: seq<Record>) {
    forall k :: 0 <= k < |raw| ==> !raw[k].If?
  }

  /** Without conditional jumps every pass moves the counter on by one, so
      the loop ends after at most as many passes as there are records. */
  lemma {:induction false} NoJumpsHalt(raw: seq<Record>, eval: Evaluator, fuel: nat, st: State)
    requires NoJumps(raw) && st.ip + fuel >= |raw|
    ensures Run(raw, eval, fuel, st).ip >= |raw|
    decreases fuel
  {
    if st.ip < |raw| {
      StepAdvances(raw, eval, st);
      NoJumpsHalt(raw, eval, fuel - 1, Step(raw, eval, st));
    }
  }

  /** Every record but a conditional moves the counter on by one. */
  lemma StepAdvances(raw: seq<Record>, eval: Evaluator, st: State)
    requires st.ip < |raw| && !raw[st.ip].If?
    ensures Step(raw, eval, st).ip == st.ip + 1
  {
  }

  /** No command record is a cycle call. */
  predicate NoCycleCalls(raw: seq<Record>) {
    forall k :: 0 <= k < |raw| && raw[k].Command? ==> AsCycleStart(raw[k].line).None?
  }

  /** Without a cycle call a run never activates a drill cycle and emits
      only lines as written. */
  lemma {:induction false} RunWithoutCycles(raw: seq<Record>, eval: Evaluator, fuel: nat, st: State)
    requires NoCycleCalls(raw) && st.cycle.None? && forall e :: e in st.out ==> e.Verbatim?
    ensures Run(raw, eval, fuel, st).cycle.None?
    ensures forall e :: e in Run(raw, eval, fuel, st).out ==> e.Verbatim?
    decreases fuel
  {
    if st.ip < |raw| && fuel > 0 {
      var next := Step(raw, eval, st);
      match raw[st.ip] {
        case Repeat(block, count) =>
          StepRepeat(raw, eval, st);
          assert forall e :: e in next.out ==> e in st.out || e in next.out[|st.out|..] by {
            assert next.out == st.out + next.out[|st.out|..];
          }
        case Command(line) =>
          assert AsCycleStart(line).None?;
        case _ =>
          StepQuiet(raw, eval, st);
      }
      RunWithoutCycles(raw, eval, fuel - 1, next);
    }
  }

  /** The drill cycles of a parsed program are dead: the comment cutting
      removes the parameter list of every cycle call, so no run of a parsed
      program ever activates a cycle, and it emits only lines as written. */
  lemma ParsedNeverDrills(lines: seq<string>, eval: Evaluator, fuel: nat)
    ensures Run(ParseLines(lines), eval, fuel, Start).cycle.None?
    ensures forall e :: e in Run(ParseLines(lines), eval, fuel, Start).out ==> e.Verbatim?
  {
    var raw := ParseLines(lines);
    ParsedCommandsClean(lines);
    forall k | 0 <= k < |raw| && raw[k].Command? ensures AsCycleStart(raw[k].line).None? {
      assert raw[k] in raw;
      if AsCycleStart(raw[k].line).Some? {
        CycleStartParen(raw[k].line);
      }
    }
    RunWithoutCycles(raw, eval, fuel, Start);
  }

  /** What is left of a cycle call once parsed is no cycle call. */
  lemma CycleCallInert(d: char, p: string)
    requires '1' <= d <= '9'
    ensures ParseLine("MCALL CYCLE8" + [d] + "(" + p) == Some(Command("MCALL CYCLE8" + [d]))
    ensures AsCycleStart("MCALL CYCLE8" + [d]).None?
  {
    CycleCallCut(d, p);
    var cmd := "MCALL CYCLE8" + [d];
    CleanText("MCALL CYCLE8" + [d] + "(" + p);
    if AsCycleStart(cmd).Some? {
      CycleStartParen(cmd);
    }
  }

  /** With the parameter list spared, a cycle call reaches the interpreter
      whole and starts the cycle its parameters describe. */
  lemma IntendedCycleStarts(d: char, p: string)
    requires '1' <= d <= '9' && Avoids(p, ')') && Avoids(p, ';') && p != [] && !IsSpace(p[0])
    ensures var line := "MCALL CYCLE8" + [d] + "(" + p + ")";
      ParseLineIntended(line) == Some(Command(line)) && AsCycleStart(line) == Some(CycleParams(p))
  {
    CycleCallKept(d, p);
    CycleStartOf(d, p);
  }

  lemma CycleStartOf(d: char, p: string)
    requires '1' <= d <= '9' && Avoids(p, ')') && p != [] && !IsSpace(p[0])
    ensures AsCycleStart("MCALL CYCLE8" + [d] + "(" + p + ")") == Some(CycleParams(p))
  {
    var line := "MCALL CYCLE8" + [d] + "(" + p + ")";
    assert line[..5] == "MCALL";
    var r := line[5..];
    assert Span(r, IsSpace) == 1;
    assert r[1..] == "CYCLE8" + [d] + "(" + p + ")";
    CycleNameOf(d, p);
  }

  lemma CycleNameOf(d: char, p: string)
    requires '1' <= d <= '9' && Avoids(p, ')') && p != [] && !IsSpace(p[0])
    ensures CycleName("CYCLE8" + [d] + "(" + p + ")") == Some(CycleParams(p))
  {
    var r := "CYCLE8" + [d] + "(" + p + ")";
    assert r[..6] == "CYCLE8" && r[6] == d;
    var r2 := r[7..];
    assert r2 == "(" + p + ")";
    assert Span(r2, IsSpace) == 0;
    assert r2[1..] == p + ")";
    SpanConcat(p, ")", NotClose);
    assert Span(p + ")", IsSpace) == 0;
    assert (p + ")")[0..|p|] == p;
  }
}
