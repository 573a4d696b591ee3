/** `computeMillTime`: a pass over the expanded lines that tracks the
    position on X, Y, Z and the rotary axis B, the modal feed and the
    elapsed minutes, and returns the elapsed time in seconds. */
module MillTime {
  import opened Options
  import opened Text
  import opened Numbers
  import opened Geometry
  import opened MillParse
  import opened MillExpand

  /** Rapid traverse rate in mm/min. */
  const Rapid: real := 10000.0

  /** A line as the integrator reads it: its upper-cased first word and the
      numeric arguments of the words after it, by upper-cased letter. */
  datatype Block = Block(code: string, args: map<char, real>)

  /** `p[0].toUpperCase()` and `parseFloat(p.slice(1))` of one word: its
      letter and its number, nothing when the number is NaN. */
  function Word(w: string): Option<(char, real)> {
    if w == [] then None
    else match ParseFloat(w[1..])
      case Some(v) => Some((UpperChar(w[0]), v))
      case None => None
  }

  /** The arguments of the words after the first: each word whose number is
      not NaN sets its letter, a later word replacing an earlier one (the
      last-wins rule is `Options.CollectLast`). */
  function ArgsOf(words: seq<string>): map<char, real> {
    Collect(Word, words)
  }

  /** A line the integrator can read: JavaScript's `split(/\s+/)` of a line
      that ends in white space yields an empty last word, whose first
      character is `undefined`, and reading it throws. */
  predicate Readable(line: string) {
    line == [] || !IsSpace(line[|line| - 1])
  }

  /** The block of a line: `line.split(/\s+/)`, the first word upper-cased,
      the arguments of the others. */
  function ParseBlock(line: string): Block
    requires Readable(line)
  {
    var ws := Words(line);
    Block(Upper(ws[0]), ArgsOf(ws[1..]))
  }

  /** The argument a drill move's text gives, when its number is not NaN. */
  function Coord(k: char, v: Option<real>): map<char, real> {
    if v.Some? then map[k := v.value] else map[]
  }

  /** The block the integrator reads from an emitted line. A drill move
      `G0 Z<z>`, `G0 X<x> Y<y>` or `G1 Z<z>` reads as its code and the
      coordinates that are numbers. */
  function Decode(e: Emitted): Block
    requires e.Verbatim? ==> Readable(e.line)
  {
    match e
    case Verbatim(line) => ParseBlock(line)
    case RapidZ(z) => Block("G0", Coord('Z', z))
    case RapidXY(x, y) => Block("G0", Coord('X', x) + Coord('Y', y))
    case FeedZ(z) => Block("G1", Coord('Z', z))
  }

  /** The integrator's variables: `pos`, `feed` and `t` (minutes). */
  datatype Machine = Machine(x: real, y: real, z: real, b: real, feed: real, t: real)

  const Init := Machine(0.0, 0.0, 0.0, 0.0, 0.0, 0.0)

  /** `args.K ?? current` */
  function Arg(args: map<char, real>, k: char, current: real): real {
    if k in args then args[k] else current
  }

  predicate IsRapid(code: string) { code == "G0" || code == "G00" }
  predicate IsLinear(code: string) { code == "G1" || code == "G01" }
  predicate IsArc(code: string) { code == "G2" || code == "G3" }
  predicate IsDwell(code: string) { code == "G4" || code == "G04" }

  /** The swept angle of an arc from (x0, y0) to (x1, y1) around (xc, yc):
      the difference of the two `atan2` angles, turned by a full circle
      when it points the wrong way for the direction (`G2` clockwise, `G3`
      counter-clockwise). */
  function Sweep(g: Geo, code: string, x0: real, y0: real, xc: real, yc: real, x1: real, y1: real): (dth: real)
    requires Valid(g)
    ensures code == "G2" ==> dth <= 0.0
    ensures code == "G3" ==> dth >= 0.0
    ensures -2.0 * g.pi <= dth <= 2.0 * g.pi
  {
    var d := g.atan2(y1 - yc, x1 - xc) - g.atan2(y0 - yc, x0 - xc);
    if code == "G2" && d > 0.0 then d - 2.0 * g.pi
    else if code == "G3" && d < 0.0 then d + 2.0 * g.pi
    else d
  }

  /** The length of that arc: the radius times the swept angle, in
      absolute value. */
  function ArcLength(g: Geo, code: string, x0: real, y0: real, xc: real, yc: real, x1: real, y1: real): (len: real)
    requires Valid(g)
    ensures len >= 0.0
  {
    Abs(g.hypot2(x0 - xc, y0 - yc) * Sweep(g, code, x0, y0, xc, yc, x1, y1))
  }

  /** `((delta + 180) % 360) - 180` in absolute value, with JavaScript's
      remainder, which keeps the sign of a negative left operand. */
  function TurnAsWritten(from: real, to: real): (a: real)
    ensures a >= 0.0
  {
    Abs(Rem(to - from + 180.0, 360.0) - 180.0)
  }

  /** The same expression with the floored remainder: the angle of the
      shortest turn from `from` to `to`. */
  function Turn(from: real, to: real): (a: real)
    ensures 0.0 <= a <= 180.0
  {
    Abs(Mod(to - from + 180.0, 360.0) - 180.0)
  }

  /** One pass of the loop: the feed is taken first, then the code decides
      the move. */
  function Advance(g: Geo, m: Machine, blk: Block): Machine
    requires Valid(g)
  {
    var a := blk.args;
    var feed := Arg(a, 'F', m.feed);
    if IsRapid(blk.code) || IsLinear(blk.code) then
      var x, y, z := Arg(a, 'X', m.x), Arg(a, 'Y', m.y), Arg(a, 'Z', m.z);
      var d := g.hypot3(x - m.x, y - m.y, z - m.z);
      var dt := if IsRapid(blk.code) then d / Rapid else if feed > 0.0 then d / feed else 0.0;
      Machine(x, y, z, m.b, feed, m.t + dt)
    else if IsArc(blk.code) then
      var xc, yc := Arg(a, 'I', 0.0) + m.x, Arg(a, 'J', 0.0) + m.y;
      var r := g.hypot2(m.x - xc, m.y - yc);
      var x1, y1 := Arg(a, 'X', m.x), Arg(a, 'Y', m.y);
      var arc := ArcLength(g, blk.code, m.x, m.y, xc, yc, x1, y1);
      Machine(x1, y1, m.z, m.b, feed, m.t + if feed > 0.0 then arc / feed else 0.0)
    else if IsDwell(blk.code) then
      m.(feed := feed, t := m.t + Arg(a, 'P', 0.0) / 60.0)
    else if 'B' in a then
      m.(b := a['B'], feed := feed, t := m.t + TurnAsWritten(m.b, a['B']) / 30.0 / 60.0)
    else m.(feed := feed)
  }

  /** Every line can be read. */
  predicate AllReadable(cmds: seq<Emitted>) {
    forall i :: 0 <= i < |cmds| && cmds[i].Verbatim? ==> Readable(cmds[i].line)
  }

  /** The machine after the given lines, from the start state. */
  function Integrate(g: Geo, cmds: seq<Emitted>): Machine
    requires Valid(g) && AllReadable(cmds)
  {
    if cmds == [] then Init
    else Advance(g, Integrate(g, cmds[..|cmds| - 1]), Decode(cmds[|cmds| - 1]))
  }

  /** Every line a parsed program emits can be read: a command record's
      text never ends in white space, and the lines emitted as written are
      the texts of command records. */
  lemma ParsedReadable(lines: seq<string>, eval: Evaluator, fuel: nat)
    ensures AllReadable(Run(ParseLines(lines), eval, fuel, Start).out)
  {
    var raw := ParseLines(lines);
    var out := Run(raw, eval, fuel, Start).out;
    RunFromCommands(raw, eval, fuel, Start);
    ParsedCommandsClean(lines);
    forall i | 0 <= i < |out| && out[i].Verbatim? ensures Readable(out[i].line) {
      assert out[i] in out;
      assert Command(out[i].line) in raw;
    }
  }

  /** The block of one line, the argument map built word by word. */
  method ReadLine(line: string) returns (blk: Block)
    requires Readable(line)
    ensures blk == ParseBlock(line)
  {
    var parts := Words(line);
    var code := Upper(parts[0]);
    var words := parts[1..];
    var args: map<char, real> := map[];
    for j := 0 to |words|
      invariant args == Collect(Word, words[..j])
    {
      var p := words[j];
      CollectSnoc(Word, words, j);
      var v := ParseFloat(p[1..]);
      if v.Some? {
        args := args[UpperChar(p[0]) := v.value];
      }
    }
    assert words[..|words|] == words;
    blk := Block(code, args);
  }

  /** parser-mill.js `computeMillTime`: the elapsed time in seconds. */
  method ComputeMillTime(g: Geo, cmds: seq<Emitted>) returns (seconds: real)
    requires Valid(g) && AllReadable(cmds)
    ensures seconds == Integrate(g, cmds).t * 60.0
  {
    var m := Init;
    for i := 0 to |cmds|
      invariant m == Integrate(g, cmds[..i])
    {
      assert cmds[..i + 1][..i] == cmds[..i];
      var blk: Block;
      if cmds[i].Verbatim? {
        blk := ReadLine(cmds[i].line);
      } else {
        blk := Decode(cmds[i]);
      }
      m := AdvanceLine(g, m, blk);
    }
    assert cmds[..|cmds|] == cmds;
    seconds := m.t * 60.0;
  }

  /** The body of the loop over the lines: the feed first, then the move
      the code calls for. */
  method AdvanceLine(g: Geo, m: Machine, blk: Block) returns (next: Machine)
    requires Valid(g)
    ensures next == Advance(g, m, blk)
  {
    var x, y, z, b, feed, t := m.x, m.y, m.z, m.b, m.feed, m.t;
    var args := blk.args;
    if 'F' in args {
      feed := args['F'];
    }
    if IsRapid(blk.code) || IsLinear(blk.code) {
      AdvanceMove(g, m, blk);
      var x1, y1, z1 := Arg(args, 'X', x), Arg(args, 'Y', y), Arg(args, 'Z', z);
      var d := g.hypot3(x1 - x, y1 - y, z1 - z);
      if IsRapid(blk.code) {
        t := t + d / Rapid;
      } else if feed > 0.0 {
        t := t + d / feed;
      }
      x, y, z := x1, y1, z1;
      assert Machine(x, y, z, b, feed, t) == Advance(g, m, blk);
    } else if IsArc(blk.code) {
      var xc, yc := Arg(args, 'I', 0.0) + x, Arg(args, 'J', 0.0) + y;
      var r := g.hypot2(x - xc, y - yc);
      var x1, y1 := Arg(args, 'X', x), Arg(args, 'Y', y);
      var dth := g.atan2(y1 - yc, x1 - xc) - g.atan2(y - yc, x - xc);
      if blk.code == "G2" && dth > 0.0 {
        dth := dth - 2.0 * g.pi;
      }
      if blk.code == "G3" && dth < 0.0 {
        dth := dth + 2.0 * g.pi;
      }
      SweepIs(g, blk.code, x, y, xc, yc, x1, y1);
      AdvanceArc(g, m, blk);
      ArcLengthOf(g, blk.code, x, y, xc, yc, x1, y1, r, dth);
      var arc := Abs(r * dth);
      if feed > 0.0 {
        t := t + arc / feed;
      }
      x, y := x1, y1;
      assert Machine(x, y, z, b, feed, t) == Advance(g, m, blk);
    } else if IsDwell(blk.code) {
      AdvanceDwell(g, m, blk);
      t := t + Arg(args, 'P', 0.0) / 60.0;
      assert Machine(x, y, z, b, feed, t) == Advance(g, m, blk);
    } else if 'B' in args {
      AdvanceTurn(g, m, blk);
      var delta := Rem(args['B'] - b + 180.0, 360.0) - 180.0;
      delta := Abs(delta);
      t := t + delta / 30.0 / 60.0;
      b := args['B'];
      assert Machine(x, y, z, b, feed, t) == Advance(g, m, blk);
    } else {
      AdvanceOther(g, m, blk);
      assert Machine(x, y, z, b, feed, t) == Advance(g, m, blk);
    }
    next := Machine(x, y, z, b, feed, t);
  }

  /** The swept angle, written out. */
  lemma SweepIs(g: Geo, code: string, x0: real, y0: real, xc: real, yc: real, x1: real, y1: real)
    requires Valid(g)
    ensures var d := g.atan2(y1 - yc, x1 - xc) - g.atan2(y0 - yc, x0 - xc);
      Sweep(g, code, x0, y0, xc, yc, x1, y1) == if code == "G2" && d > 0.0 then d - 2.0 * g.pi
        else if code == "G3" && d < 0.0 then d + 2.0 * g.pi else d
  {
  }

  /** A `G0`/`G00` or `G1`/`G01` line goes to the given X, Y and Z, keeping
      each coordinate it does not give, and leaves B alone. The move takes
      its length at the rapid rate, or at the feed (the line's `F` if it has
      one) when that is positive, and no time otherwise. */
  lemma AdvanceMove(g: Geo, m: Machine, blk: Block)
    requires Valid(g) && (IsRapid(blk.code) || IsLinear(blk.code))
    ensures var a := blk.args; var feed := Arg(a, 'F', m.feed);
      var x, y, z := Arg(a, 'X', m.x), Arg(a, 'Y', m.y), Arg(a, 'Z', m.z);
      var d := g.hypot3(x - m.x, y - m.y, z - m.z);
      Advance(g, m, blk) == Machine(x, y, z, m.b, feed,
        if IsRapid(blk.code) then m.t + d / Rapid else if feed > 0.0 then m.t + d / feed else m.t)
  {
  }

  /** A `G2`/`G3` line goes to the given X and Y around the centre at the
      offsets I and J (0 when absent), leaves Z and B alone, and takes the
      arc length `|r * sweep|` at the feed when that is positive. */
  lemma AdvanceArc(g: Geo, m: Machine, blk: Block)
    requires Valid(g) && IsArc(blk.code)
    ensures var a := blk.args; var feed := Arg(a, 'F', m.feed);
      var xc, yc := Arg(a, 'I', 0.0) + m.x, Arg(a, 'J', 0.0) + m.y;
      var x1, y1 := Arg(a, 'X', m.x), Arg(a, 'Y', m.y);
      var arc := ArcLength(g, blk.code, m.x, m.y, xc, yc, x1, y1);
      Advance(g, m, blk) == Machine(x1, y1, m.z, m.b, feed, if feed > 0.0 then m.t + arc / feed else m.t)
  {
  }

  /** A `G4`/`G04` line waits P seconds (0 when absent) and moves nothing. */
  lemma AdvanceDwell(g: Geo, m: Machine, blk: Block)
    requires Valid(g) && IsDwell(blk.code)
    ensures Advance(g, m, blk) == m.(feed := Arg(blk.args, 'F', m.feed), t := m.t + Arg(blk.args, 'P', 0.0) / 60.0)
  {
  }

  /** Any other line with a B word turns the rotary axis to B, taking the
      turned angle, as the source's remainder computes it, at 30 degrees a
      second. */
  lemma AdvanceTurn(g: Geo, m: Machine, blk: Block)
    requires Valid(g) && !IsRapid(blk.code) && !IsLinear(blk.code) && !IsArc(blk.code) && !IsDwell(blk.code)
    requires 'B' in blk.args
    ensures Advance(g, m, blk) == m.(b := blk.args['B'], feed := Arg(blk.args, 'F', m.feed),
      t := m.t + TurnAsWritten(m.b, blk.args['B']) / 30.0 / 60.0)
  {
  }

  /** Any other line without a B word only sets the feed. */
  lemma AdvanceOther(g: Geo, m: Machine, blk: Block)
    requires Valid(g) && !IsRapid(blk.code) && !IsLinear(blk.code) && !IsArc(blk.code) && !IsDwell(blk.code)
    requires 'B' !in blk.args
    ensures Advance(g, m, blk) == m.(feed := Arg(blk.args, 'F', m.feed))
  {
  }

  /** The arc length from the radius and the swept angle already computed. */
  lemma ArcLengthOf(g: Geo, code: string, x0: real, y0: real, xc: real, yc: real, x1: real, y1: real, r: real, dth: real)
    requires Valid(g) && r == g.hypot2(x0 - xc, y0 - yc) && dth == Sweep(g, code, x0, y0, xc, yc, x1, y1)
    ensures ArcLength(g, code, x0, y0, xc, yc, x1, y1) == Abs(r * dth)
  {
  }

  /** The feed is taken from the line before the code is looked at, for
      every code: a line's `F` word holds from that line on, its own move
      included. */
  lemma AdvanceFeed(g: Geo, m: Machine, blk: Block)
    requires Valid(g)
    ensures Advance(g, m, blk).feed == if 'F' in blk.args then blk.args['F'] else m.feed
  {
  }

  /** A feed move (`G1`, `G2`, `G3`) at a feed that is not positive takes no
      time. */
  lemma NoFeedNoTime(g: Geo, m: Machine, blk: Block)
    requires Valid(g) && (IsLinear(blk.code) || IsArc(blk.code)) && !IsRapid(blk.code)
    requires Arg(blk.args, 'F', m.feed) <= 0.0
    ensures Advance(g, m, blk).t == m.t
  {
  }

  /** A dwell with a negative P: the only line that winds the clock back. */
  predicate Rewinds(blk: Block) {
    IsDwell(blk.code) && Arg(blk.args, 'P', 0.0) < 0.0
  }

  /** Every other line adds a time that is not negative. */
  lemma AdvanceMonotone(g: Geo, m: Machine, blk: Block)
    requires Valid(g) && !Rewinds(blk)
    ensures Advance(g, m, blk).t >= m.t
  {
    var a := blk.args;
    var feed := Arg(a, 'F', m.feed);
    if IsRapid(blk.code) || IsLinear(blk.code) {
      var x, y, z := Arg(a, 'X', m.x), Arg(a, 'Y', m.y), Arg(a, 'Z', m.z);
      var d := g.hypot3(x - m.x, y - m.y, z - m.z);
      DivSign(d, Rapid);
      if feed > 0.0 { DivSign(d, feed); }
      AdvanceMove(g, m, blk);
    } else if IsArc(blk.code) {
      var xc, yc := Arg(a, 'I', 0.0) + m.x, Arg(a, 'J', 0.0) + m.y;
      var arc := Abs(g.hypot2(m.x - xc, m.y - yc) * Sweep(g, blk.code, m.x, m.y, xc, yc, Arg(a, 'X', m.x), Arg(a, 'Y', m.y)));
      if feed > 0.0 { DivSign(arc, feed); }
      AdvanceArc(g, m, blk);
    } else if IsDwell(blk.code) {
      DivSign(Arg(a, 'P', 0.0), 60.0);
      AdvanceDwell(g, m, blk);
    } else if 'B' in a {
      var turn := TurnAsWritten(m.b, a['B']);
      DivSign(turn, 30.0);
      DivSign(turn / 30.0, 60.0);
      AdvanceTurn(g, m, blk);
    } else {
      AdvanceOther(g, m, blk);
    }
  }

  /** No line of the program rewinds the clock. */
  predicate NoRewinds(cmds: seq<Emitted>)
    requires AllReadable(cmds)
  {
    forall k :: 0 <= k < |cmds| ==> !Rewinds(Decode(cmds[k]))
  }

  /** Without a negative dwell the elapsed time only grows along the
      program: every prefix takes no longer than the whole. */
  lemma {:induction false} IntegratePrefix(g: Geo, cmds: seq<Emitted>, i: nat)
    requires Valid(g) && AllReadable(cmds) && NoRewinds(cmds) && i <= |cmds|
    ensures Integrate(g, cmds[..i]).t <= Integrate(g, cmds).t
    decreases |cmds|
  {
    if i < |cmds| {
      var init := cmds[..|cmds| - 1];
      assert cmds[..i] == init[..i];
      IntegratePrefix(g, init, i);
      AdvanceMonotone(g, Integrate(g, init), Decode(cmds[|cmds| - 1]));
    } else {
      assert cmds[..i] == cmds;
    }
  }

  /** Without a negative dwell the total is not negative. */
  lemma IntegrateNonNegative(g: Geo, cmds: seq<Emitted>)
    requires Valid(g) && AllReadable(cmds) && NoRewinds(cmds)
    ensures Integrate(g, cmds).t >= 0.0
  {
    IntegratePrefix(g, cmds, 0);
    assert cmds[..0] == [];
  }

  /** A line winds the clock back exactly when it is a negative dwell. */
  lemma TimeGoesBack(g: Geo, m: Machine, blk: Block)
    requires Valid(g)
    ensures Advance(g, m, blk).t < m.t <==> Rewinds(blk)
  {
    if !Rewinds(blk) {
      AdvanceMonotone(g, m, blk);
    }
  }

  /** How far the change of angle from `from` to `to` is from `k` full
      turns. */
  function Offset(from: real, to: real, k: int): real {
    Abs(to - from - 360.0 * k as real)
  }

  /** The turn is the shortest one: it is the distance from the commanded
      change of angle to some whole number of full turns, and to no whole
      number of turns is that distance smaller. */
  lemma TurnShortest(from: real, to: real)
    ensures exists k: int :: Turn(from, to) == Offset(from, to, k)
    ensures forall k: int :: Turn(from, to) <= Offset(from, to, k)
  {
    var n := to - from + 180.0;
    var q := (n / 360.0).Floor;
    FloorBounds(n, 360.0);
    var x := n - 360.0 * q as real - 180.0;
    assert Turn(from, to) == Abs(x) == Offset(from, to, q);
    forall k: int ensures Turn(from, to) <= Offset(from, to, k) {
      var j := q - k;
      assert to - from - 360.0 * k as real == x + 360.0 * j as real;
      if j >= 1 {
        assert 360.0 * j as real >= 360.0;
      } else if j <= -1 {
        assert 360.0 * j as real <= -360.0;
      }
    }
  }

  /** As written, a turn to an angle more than half a turn below the
      current one is taken the long way round: from 0 to -270 the axis is
      timed for 270 degrees, not the 90 of the shortest turn. */
  lemma TurnAsWrittenOvershoots()
    ensures TurnAsWritten(0.0, -270.0) == 270.0 && Turn(0.0, -270.0) == 90.0
  {
    assert Trunc(-90.0 / 360.0) == 0;
    assert Rem(-90.0, 360.0) == -90.0;
    assert (-90.0 / 360.0).Floor == -1;
    assert Mod(-90.0, 360.0) == 270.0;
  }

  /** The integrator times that turn the long way: a `B-270` line from the
      start state takes 270 degrees at 30 degrees a second. */
  lemma AdvanceOvershoots(g: Geo)
    requires Valid(g)
    ensures Advance(g, Init, Block("G90", map['B' := -270.0])).t == 270.0 / 30.0 / 60.0
  {
    TurnAsWrittenOvershoots();
  }

  /** The two agree whenever the change of angle is at least -180 degrees;
      below that the expression as written turns at least half a turn. */
  lemma TurnAsWrittenAgrees(from: real, to: real)
    ensures to - from + 180.0 >= 0.0 ==> TurnAsWritten(from, to) == Turn(from, to)
    ensures to - from + 180.0 < 0.0 ==> TurnAsWritten(from, to) >= 180.0
  {
    if to - from + 180.0 >= 0.0 {
      RemIsMod(to - from + 180.0, 360.0);
    }
  }
}
