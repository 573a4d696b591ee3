/** `computeLatheTime`: a pass over the parsed commands that tracks the feed
    per revolution, the cutting speed, the spindle speed, the position on X
    and Z and the elapsed minutes, and returns the elapsed time in seconds.
    Every quantity is a JavaScript number, so it may be NaN. */
module LatheTime {
  import opened Options
  import opened Geometry
  import opened LatheParse

  /** Rapid traverse rate in mm/min. */
  const RapidRate: real := 10000.0

  /** The integrator's variables: `feedRev`, `cuttingSpeed`, `rpm`,
      `pos.X`, `pos.Z` and `totalMin`. */
  datatype Lathe = Lathe(feedRev: Num, vc: Num, rpm: Num, x: Num, z: Num, total: Num)

  /** Every variable starts at 0. */
  const Init := Lathe(Fin(0.0), Fin(0.0), Fin(0.0), Fin(0.0), Fin(0.0), Fin(0.0))

  /** `a ?? b`: `null` gives way, NaN does not. */
  function Or(a: Option<Num>, b: Num): (r: Num)
    ensures a.None? ==> r == b
    ensures a.Some? ==> r == a.value
  {
    if a.Some? then a.value else b
  }

  /** `a - b`. */
  function Sub(a: Num, b: Num): (r: Num)
    ensures r.Fin? <==> a.Fin? && b.Fin?
  {
    if a.Fin? && b.Fin? then Fin(a.v - b.v) else NaN
  }

  /** `a + b`. */
  function Plus(a: Num, b: Num): (r: Num)
    ensures r.Fin? <==> a.Fin? && b.Fin?
    ensures r.Fin? && b.v >= 0.0 ==> r.v >= a.v
  {
    if a.Fin? && b.Fin? then Fin(a.v + b.v) else NaN
  }

  /** `a * b`. */
  function Times(a: Num, b: Num): (r: Num)
    ensures r.Fin? <==> a.Fin? && b.Fin?
  {
    if a.Fin? && b.Fin? then Fin(a.v * b.v) else NaN
  }

  /** `a / d` for a positive finite divisor. */
  function Over(a: Num, d: real): (r: Num)
    requires d > 0.0
    ensures r.Fin? <==> a.Fin?
    ensures r.Fin? && a.v >= 0.0 ==> r.v >= 0.0
  {
    if a.Fin? then DivSign(a.v, d); Fin(a.v / d) else NaN
  }

  /** `Math.hypot(a, b)`: NaN when either side is. */
  function Hypot(g: Geo, a: Num, b: Num): (r: Num)
    requires Valid(g)
    ensures r.Fin? <==> a.Fin? && b.Fin?
    ensures r.Fin? ==> r.v >= 0.0
  {
    if a.Fin? && b.Fin? then Fin(g.hypot2(a.v, b.v)) else NaN
  }

  /** `n > 0`, which is false for NaN. */
  predicate Positive(n: Num) {
    n.Fin? && n.v > 0.0
  }

  /** `n` taken as a condition: 0 and NaN are false. */
  predicate Truthy(n: Num) {
    n.Fin? && n.v != 0.0
  }

  /** `(1000 * cuttingSpeed) / (Math.PI * pos.X)`. */
  function SurfaceRpm(g: Geo, vc: real, x: real): real
    requires g.pi > 0.0 && x > 0.0
  {
    PositiveProduct(g.pi, x);
    (1000.0 * vc) / (g.pi * x)
  }

  /** The distance from the current position to the commanded one, each
      axis the command leaves out kept where it is. */
  function Distance(g: Geo, st: Lathe, cmd: Cmd): Num
    requires Valid(g)
  {
    Hypot(g, Sub(Or(cmd.x, st.x), st.x), Sub(Or(cmd.z, st.z), st.z))
  }

  /** One case of the `switch`. */
  function Advance(g: Geo, st: Lathe, cmd: Cmd): Lathe
    requires Valid(g)
  {
    if cmd.code == "G96" then
      var vc := Or(cmd.s, st.vc);
      var rpm := if Positive(st.x) && Truthy(vc) then Fin(SurfaceRpm(g, vc.v, st.x.v)) else st.rpm;
      st.(vc := vc, rpm := rpm, feedRev := Or(cmd.f, st.feedRev))
    else if cmd.code == "M3" then
      st.(rpm := Or(cmd.s, st.rpm))
    else if cmd.code == "G0" then
      var total := Plus(st.total, Over(Distance(g, st, cmd), RapidRate));
      st.(total := total, x := Or(cmd.x, st.x), z := Or(cmd.z, st.z))
    else if cmd.code == "G1" then
      var feedRev := Or(cmd.f, st.feedRev);
      var feed := Times(feedRev, st.rpm);
      var total := if Positive(feed) then Plus(st.total, Over(Distance(g, st, cmd), feed.v)) else st.total;
      st.(feedRev := feedRev, total := total, x := Or(cmd.x, st.x), z := Or(cmd.z, st.z))
    else st
  }

  /** The state after the commands, in order, from `Init`. */
  function Integrate(g: Geo, cmds: seq<Cmd>): Lathe
    requires Valid(g)
  {
    if cmds == [] then Init else Advance(g, Integrate(g, cmds[..|cmds| - 1]), cmds[|cmds| - 1])
  }

  /** parser-lathe.js `computeLatheTime`: `totalMin * 60`. */
  method ComputeLatheTime(g: Geo, cmds: seq<Cmd>) returns (seconds: Num)
    requires Valid(g)
    ensures seconds == Times(Integrate(g, cmds).total, Fin(60.0))
  {
    var st := Init;
    for i := 0 to |cmds|
      invariant st == Integrate(g, cmds[..i])
    {
      assert cmds[..i + 1][..i] == cmds[..i];
      st := AdvanceCommand(g, st, cmds[i]);
    }
    assert cmds[..|cmds|] == cmds;
    seconds := Times(st.total, Fin(60.0));
  }

  /** The body of the loop: the `switch` on the command's code. */
  method AdvanceCommand(g: Geo, st: Lathe, cmd: Cmd) returns (next: Lathe)
    requires Valid(g)
    ensures next == Advance(g, st, cmd)
  {
    var feedRev, vc, rpm, x, z, total := st.feedRev, st.vc, st.rpm, st.x, st.z, st.total;
    if cmd.code == "G96" {
      if cmd.s.Some? {
        vc := cmd.s.value;
      }
      if Positive(x) && Truthy(vc) {
        rpm := Fin(SurfaceRpm(g, vc.v, x.v));
      }
      if cmd.f.Some? {
        feedRev := cmd.f.value;
      }
    } else if cmd.code == "M3" {
      if cmd.s.Some? {
        rpm := cmd.s.value;
      }
    } else if cmd.code == "G0" {
      var dx := Sub(Or(cmd.x, x), x);
      var dz := Sub(Or(cmd.z, z), z);
      total := Plus(total, Over(Hypot(g, dx, dz), RapidRate));
      x := Or(cmd.x, x);
      z := Or(cmd.z, z);
    } else if cmd.code == "G1" {
      if cmd.f.Some? {
        feedRev := cmd.f.value;
      }
      var dx := Sub(Or(cmd.x, x), x);
      var dz := Sub(Or(cmd.z, z), z);
      var dist := Hypot(g, dx, dz);
      var feed := Times(feedRev, rpm);
      if Positive(feed) {
        total := Plus(total, Over(dist, feed.v));
      }
      x := Or(cmd.x, x);
      z := Or(cmd.z, z);
    }
    next := Lathe(feedRev, vc, rpm, x, z, total);
  }

  /** G0 and G1 move each axis to the commanded value, or keep it where the
      command leaves it out; every other code leaves the position alone. */
  lemma AdvancePosition(g: Geo, st: Lathe, cmd: Cmd)
    requires Valid(g)
    ensures var next := Advance(g, st, cmd);
      if cmd.code == "G0" || cmd.code == "G1" then
        && (cmd.x.None? ==> next.x == st.x) && (cmd.x.Some? ==> next.x == cmd.x.value)
        && (cmd.z.None? ==> next.z == st.z) && (cmd.z.Some? ==> next.z == cmd.z.value)
      else next.x == st.x && next.z == st.z
  {
  }

  /** G96 takes its S as the cutting speed and its F as the feed per
      revolution when given, and recomputes the spindle speed from the
      cutting speed only when X is positive and the cutting speed is a
      number other than 0; position and time stay. */
  lemma AdvanceG96(g: Geo, st: Lathe, cmd: Cmd)
    requires Valid(g) && cmd.code == "G96"
    ensures var next := Advance(g, st, cmd);
      && next.vc == (if cmd.s.Some? then cmd.s.value else st.vc)
      && next.feedRev == (if cmd.f.Some? then cmd.f.value else st.feedRev)
      && (Positive(st.x) && Truthy(next.vc) ==> next.rpm == Fin((1000.0 * next.vc.v) / (g.pi * st.x.v)))
      && (!(Positive(st.x) && Truthy(next.vc)) ==> next.rpm == st.rpm)
      && next.x == st.x && next.z == st.z && next.total == st.total
  {
  }

  /** M3 sets the spindle speed from S when given and changes nothing else. */
  lemma AdvanceM3(g: Geo, st: Lathe, cmd: Cmd)
    requires Valid(g) && cmd.code == "M3"
    ensures Advance(g, st, cmd) == st.(rpm := if cmd.s.Some? then cmd.s.value else st.rpm)
  {
  }

  /** A code other than G96, M3, G0 and G1 changes nothing. */
  lemma AdvanceOther(g: Geo, st: Lathe, cmd: Cmd)
    requires Valid(g) && cmd.code != "G96" && cmd.code != "M3" && cmd.code != "G0" && cmd.code != "G1"
    ensures Advance(g, st, cmd) == st
  {
  }

  /** G1 takes the F on its own line before it times the move: the time it
      adds is the distance over the new feed per revolution times the
      spindle speed, and it adds none unless that product is positive. The
      position moves either way. */
  lemma AdvanceG1(g: Geo, st: Lathe, cmd: Cmd)
    requires Valid(g) && cmd.code == "G1"
    ensures var next := Advance(g, st, cmd);
      && next.feedRev == (if cmd.f.Some? then cmd.f.value else st.feedRev)
      && (!Positive(Times(next.feedRev, st.rpm)) ==> next.total == st.total)
      && (Positive(Times(next.feedRev, st.rpm)) ==>
            next.total == Plus(st.total, Over(Distance(g, st, cmd), next.feedRev.v * st.rpm.v)))
      && next.rpm == st.rpm && next.vc == st.vc
  {
  }

  /** With the spindle stopped, or no feed, a G1 takes no time. */
  lemma NoSpindleNoTime(g: Geo, st: Lathe, cmd: Cmd)
    requires Valid(g) && cmd.code == "G1" && st.rpm == Fin(0.0)
    ensures Advance(g, st, cmd).total == st.total
  {
    var feedRev := Or(cmd.f, st.feedRev);
    assert feedRev.Fin? ==> feedRev.v * 0.0 == 0.0;
  }

  /** A rapid move to a NaN coordinate makes the total NaN: NaN is kept
      apart from `null`, which would keep the axis where it is. */
  lemma RapidToNaN(g: Geo, st: Lathe, cmd: Cmd)
    requires Valid(g) && cmd.code == "G0" && cmd.x == Some(NaN)
    ensures Advance(g, st, cmd).total == NaN
    ensures Advance(g, st, cmd.(x := None)).total.Fin? <==> st.total.Fin? && st.x.Fin? && st.z.Fin? && Or(cmd.z, st.z).Fin?
  {
  }

  /** No command takes time back: a finite total stays finite and grows or
      becomes NaN, and a NaN total stays NaN. */
  lemma AdvanceGrows(g: Geo, st: Lathe, cmd: Cmd)
    requires Valid(g)
    ensures var next := Advance(g, st, cmd);
      && (st.total.Fin? && next.total.Fin? ==> next.total.v >= st.total.v)
      && (st.total.NaN? ==> next.total.NaN?)
  {
    if cmd.code == "G1" {
      var feed := Times(Or(cmd.f, st.feedRev), st.rpm);
      if Positive(feed) {
        var d := Over(Distance(g, st, cmd), feed.v);
        assert d.Fin? ==> d.v >= 0.0;
      }
    }
  }

  /** The total after a prefix of the commands is at most the total after
      all of them, as long as both are numbers; once NaN it stays NaN. */
  lemma {:induction false} IntegrateGrows(g: Geo, cmds: seq<Cmd>, k: nat)
    requires Valid(g) && k <= |cmds|
    ensures var a := Integrate(g, cmds[..k]).total; var b := Integrate(g, cmds).total;
      && (a.Fin? && b.Fin? ==> a.v <= b.v)
      && (a.NaN? ==> b.NaN?)
    decreases |cmds|
  {
    if k < |cmds| {
      var init := cmds[..|cmds| - 1];
      assert init[..k] == cmds[..k];
      IntegrateGrows(g, init, k);
      AdvanceGrows(g, Integrate(g, init), cmds[|cmds| - 1]);
    } else {
      assert cmds[..k] == cmds;
    }
  }

  /** The total is never negative, and neither is the result. */
  lemma IntegrateNonNegative(g: Geo, cmds: seq<Cmd>)
    requires Valid(g)
    ensures Integrate(g, cmds).total.Fin? ==> Integrate(g, cmds).total.v >= 0.0
    ensures var s := Times(Integrate(g, cmds).total, Fin(60.0)); s.Fin? ==> s.v >= 0.0
  {
    IntegrateGrows(g, cmds, 0);
    assert cmds[..0] == [];
  }

  /** No field of the command is NaN. */
  predicate NoNaN(cmd: Cmd) {
    (cmd.x.Some? ==> cmd.x.value.Fin?) && (cmd.z.Some? ==> cmd.z.value.Fin?)
    && (cmd.f.Some? ==> cmd.f.value.Fin?) && (cmd.s.Some? ==> cmd.s.value.Fin?)
  }

  /** All of the variables are numbers. */
  predicate AllFinite(st: Lathe) {
    st.feedRev.Fin? && st.vc.Fin? && st.rpm.Fin? && st.x.Fin? && st.z.Fin? && st.total.Fin?
  }

  /** Commands whose every number parsed give a finite time. */
  lemma {:induction false} IntegrateFinite(g: Geo, cmds: seq<Cmd>)
    requires Valid(g) && forall i :: 0 <= i < |cmds| ==> NoNaN(cmds[i])
    ensures AllFinite(Integrate(g, cmds))
  {
    if cmds != [] {
      var init := cmds[..|cmds| - 1];
      IntegrateFinite(g, init);
      assert NoNaN(cmds[|cmds| - 1]);
    }
  }

  /** A rapid move to X20 Z0 followed by `G96 S200` runs the spindle at
      1000 · 200 / (π · 20): X is used as it stands, with no halving from
      diameter to radius. */
  lemma SurfaceSpeedExample(g: Geo)
    requires Valid(g)
    ensures Integrate(g, [Cmd("G0", Some(Fin(20.0)), Some(Fin(0.0)), None, None),
                          Cmd("G96", None, None, None, Some(Fin(200.0)))]).rpm
         == Fin(200000.0 / (g.pi * 20.0))
  {
    var c0 := Cmd("G0", Some(Fin(20.0)), Some(Fin(0.0)), None, None);
    var c1 := Cmd("G96", None, None, None, Some(Fin(200.0)));
    assert [c0, c1][..1] == [c0];
    assert [c0][..0] == [];
    var s0 := Advance(g, Init, c0);
    assert s0.x == Fin(20.0);
    assert Advance(g, s0, c1).rpm == Fin(SurfaceRpm(g, 200.0, 20.0));
  }
}
