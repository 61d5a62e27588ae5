/** The settings of one oscilloscope channel as values (ChannelInfo.java), the registers of the device
    they are sent to, and the preferences they are kept in. */
module ChannelModel {

  /** What the voltage provider tells: the number of voltage steps, and half the range of the zero
      position at each step.  `housed` says that the application's data house exists, so that a change
      of the step is followed by a new zero position. */
  datatype Provider = Provider(steps: int, halfRange: int -> int, housed: bool)

  ghost predicate Sensible(p: Provider) {
    p.steps >= 1 && forall i :: p.halfRange(i) >= 0
  }

  datatype Settings = Settings(
    on: bool, measureCurrentOn: bool, probeMultiIdx: int, couplingIdx: int, vbIdx: int, pos0: int,
    pos0HalfRange: int, bandlimit: bool, inverse: bool, amperePerVolt: int)

  datatype Registers = Registers(on: bool, coupling: int, vb: int, pos0: int, bandlimit: bool)

  /** One order to the device. */
  datatype Order = ONOFF(on: bool) | COUPLING(idx: int) | VB(idx: int) | POS0(pos: int) | BANDLIMIT(bl: bool)

  function Execute(r: Registers, o: Order): Registers {
    match o
    case ONOFF(on) => r.(on := on)
    case COUPLING(idx) => r.(coupling := idx)
    case VB(idx) => r.(vb := idx)
    case POS0(pos) => r.(pos0 := pos)
    case BANDLIMIT(bl) => r.(bandlimit := bl)
  }

  function ExecuteAll(r: Registers, os: seq<Order>): Registers
    decreases os
  {
    if os == [] then r else ExecuteAll(Execute(r, os[0]), os[1..])
  }

  lemma {:induction false} ExecuteSnoc(r: Registers, os: seq<Order>, o: Order)
    ensures ExecuteAll(r, os + [o]) == Execute(ExecuteAll(r, os), o)
    decreases os
  {
    if os == [] {
      assert [o][1..] == [];
    } else {
      assert (os + [o])[1..] == os[1..] + [o];
      ExecuteSnoc(Execute(r, os[0]), os[1..], o);
    }
  }

  /** What is reported to the rest of the program: the changes of the zero position, the changes of the
      voltage step, and how often the channel display was told to update. */
  datatype Reports = Reports(deltas: seq<int>, steps: seq<StepReport>, updates: nat)

  /** A change of the voltage step, with the zero position after it. */
  datatype StepReport = StepReport(pos0: int, from: int, to: int)

  datatype Channel = Channel(s: Settings, regs: Registers, reports: Reports)

  // ----- Getters

  /** The lowest step always works with the band limit on. */
  predicate ShouldForceBandlimit(vbIdx: int) {
    vbIdx == 0
  }

  function IsBandlimit(s: Settings): bool {
    ShouldForceBandlimit(s.vbIdx) || s.bandlimit
  }

  function ValidVoltageIndex(p: Provider, idx: int): int {
    if idx >= p.steps then p.steps - 1 else if idx < 0 then 0 else idx
  }

  function Clamp(x: int, h: int): int {
    if x < -h then -h else if x > h then h else x
  }

  // ----- The operations

  datatype Op =
    | SetVoltage(idx: int)
    | SetZero(zero: int, commit: bool)
    | SetBandLimit(bl: bool)
    | SetCoupling(coupling: int)
    | NextCoupling
    | SetOn(on: bool)
    | SetInverse(inverse: bool)

  const COUPLINGS := 3

  function ZeroTo(c: Channel, zero: int, commit: bool): Channel {
    var z := Clamp(zero, c.s.pos0HalfRange);
    c.(s := c.s.(pos0 := z),
       regs := if commit then c.regs.(pos0 := z) else c.regs,
       reports := c.reports.(deltas := c.reports.deltas + [z - c.s.pos0]))
  }

  /** The step itself, with the new range and the zero position that follows it. */
  function StepTo(p: Provider, c: Channel, idx: int): Channel {
    var d := c.(s := c.s.(vbIdx := idx, pos0HalfRange := p.halfRange(idx)));
    if p.housed then ZeroTo(d, c.s.pos0, true) else d
  }

  function VoltageTo(p: Provider, c: Channel, idx: int): Channel {
    var v0, v1 := c.s.vbIdx, ValidVoltageIndex(p, idx);
    if v1 < 0 then c
    else
      var d := StepTo(p, c, v1);
      var touches := ShouldForceBandlimit(v1) || ShouldForceBandlimit(v0);
      d.(regs := (if touches then d.regs.(bandlimit := IsBandlimit(d.s)) else d.regs).(vb := v1),
         reports := d.reports.(steps := d.reports.steps + [StepReport(d.s.pos0, v0, v1)],
                               updates := d.reports.updates + if touches then 1 else 0))
  }

  function CouplingTo(c: Channel, coupling: int): Channel {
    c.(s := c.s.(couplingIdx := coupling), regs := c.regs.(coupling := coupling))
  }

  function OnTo(c: Channel, on: bool): Channel {
    var s := c.s.(on := on);
    c.(s := s, regs := if on then Registers(true, s.couplingIdx, s.vbIdx, s.pos0, IsBandlimit(s))
                       else c.regs.(on := false))
  }

  function Apply(p: Provider, c: Channel, op: Op): Channel {
    match op
    case SetVoltage(idx) => VoltageTo(p, c, idx)
    case SetZero(zero, commit) => ZeroTo(c, zero, commit)
    case SetBandLimit(bl) =>
      var s := c.s.(bandlimit := bl);
      c.(s := s, regs := c.regs.(bandlimit := IsBandlimit(s)))
    case SetCoupling(coupling) => CouplingTo(c, coupling)
    case NextCoupling => CouplingTo(c, JavaRem(c.s.couplingIdx + 1, COUPLINGS))
    case SetOn(on) => OnTo(c, on)
    case SetInverse(inverse) => c.(s := c.s.(inverse := inverse))
  }

  /** Java's `%`, which keeps the sign of the dividend. */
  function JavaRem(a: int, b: int): int
    requires b > 0
  {
    if a >= 0 then a % b else -((-a) % b)
  }

  function Run(p: Provider, c: Channel, ops: seq<Op>): Channel {
    if ops == [] then c else Apply(p, Run(p, c, ops[..|ops| - 1]), ops[|ops| - 1])
  }

  // ----- What an operation sets, and what it leaves alone

  /** A zero position that is asked for within the range is taken as it is, and otherwise the nearer end. */
  lemma ZeroIsSet(p: Provider, c: Channel, zero: int, commit: bool)
    ensures var d, h := Apply(p, c, SetZero(zero, commit)), c.s.pos0HalfRange;
      && (zero < -h ==> d.s.pos0 == -h)
      && (-h <= zero <= h ==> d.s.pos0 == zero)
      && (zero > h && zero >= -h ==> d.s.pos0 == h)
      && d.s == c.s.(pos0 := d.s.pos0)
      && d.regs == (if commit then c.regs.(pos0 := d.s.pos0) else c.regs)
      && d.reports == c.reports.(deltas := c.reports.deltas + [d.s.pos0 - c.s.pos0])
  {
  }

  /** A voltage step that exists is taken as it is, and otherwise the nearest; the zero position stays where it
      is as long as the new range allows. */
  lemma VoltageIsSet(p: Provider, c: Channel, idx: int)
    requires p.steps >= 1
    ensures var d := Apply(p, c, SetVoltage(idx)); var h := p.halfRange(d.s.vbIdx);
      && (idx < 0 ==> d.s.vbIdx == 0)
      && (0 <= idx < p.steps ==> d.s.vbIdx == idx)
      && (idx >= p.steps ==> d.s.vbIdx == p.steps - 1)
      && d.s.pos0HalfRange == h
      && (!p.housed || -h <= c.s.pos0 <= h ==> d.s.pos0 == c.s.pos0)
      && (p.housed && c.s.pos0 < -h ==> d.s.pos0 == -h)
      && (p.housed && c.s.pos0 > h && c.s.pos0 >= -h ==> d.s.pos0 == h)
      && d.s == c.s.(vbIdx := d.s.vbIdx, pos0HalfRange := h, pos0 := d.s.pos0)
  {
  }

  /** What a voltage change sends and reports: the new step and position, and the band limit only where the
      lowest step is entered or left. */
  lemma VoltageIsSent(p: Provider, c: Channel, idx: int)
    requires p.steps >= 1
    ensures var d := Apply(p, c, SetVoltage(idx)); var lowest := d.s.vbIdx == 0 || c.s.vbIdx == 0;
      && d.regs.on == c.regs.on && d.regs.coupling == c.regs.coupling && d.regs.vb == d.s.vbIdx
      && d.regs.pos0 == (if p.housed then d.s.pos0 else c.regs.pos0)
      && d.regs.bandlimit == (if !lowest then c.regs.bandlimit else d.s.vbIdx == 0 || c.s.bandlimit)
      && d.reports.updates == c.reports.updates + (if lowest then 1 else 0)
      && d.reports.steps == c.reports.steps + [StepReport(d.s.pos0, c.s.vbIdx, d.s.vbIdx)]
      && d.reports.deltas == c.reports.deltas + (if p.housed then [d.s.pos0 - c.s.pos0] else [])
  {
  }

  /** Without voltage steps, only an index below their number gets through. */
  lemma NoVoltageToSet(p: Provider, c: Channel, idx: int)
    requires p.steps <= 0
    ensures var d := Apply(p, c, SetVoltage(idx)); if idx >= p.steps then d == c else d.s.vbIdx == 0
  {
  }

  /** The other operations leave their argument in its setting, send what belongs to it, and report nothing. */
  lemma OthersAreSet(p: Provider, c: Channel, bl: bool, coupling: int, on: bool, inverse: bool)
    ensures Apply(p, c, SetBandLimit(bl)) ==
            Channel(c.s.(bandlimit := bl), c.regs.(bandlimit := bl || c.s.vbIdx == 0), c.reports)
    ensures Apply(p, c, SetCoupling(coupling)) ==
            Channel(c.s.(couplingIdx := coupling), c.regs.(coupling := coupling), c.reports)
    ensures Apply(p, c, SetInverse(inverse)) == Channel(c.s.(inverse := inverse), c.regs, c.reports)
    ensures Apply(p, c, SetOn(false)) == Channel(c.s.(on := false), c.regs.(on := false), c.reports)
    ensures Apply(p, c, SetOn(true)) ==
            Channel(c.s.(on := true),
                    Registers(true, c.s.couplingIdx, c.s.vbIdx, c.s.pos0, c.s.bandlimit || c.s.vbIdx == 0),
                    c.reports)
  {
  }

  /** The next coupling goes round the three there are. */
  lemma CouplingGoesRound(p: Provider, c: Channel)
    requires 0 <= c.s.couplingIdx < 3
    ensures var next := match c.s.couplingIdx case 0 => 1 case 1 => 2 case _ => 0;
      Apply(p, c, NextCoupling) == Apply(p, c, SetCoupling(next))
  {
  }

  /** Operations that change the same setting. */
  predicate SameKind(a: Op, b: Op) {
    || (a.SetVoltage? && b.SetVoltage?)
    || (a.SetZero? && (b.SetZero? || b.SetVoltage?))
    || (a.SetBandLimit? && b.SetBandLimit?)
    || ((a.SetCoupling? || a.NextCoupling?) && (b.SetCoupling? || b.NextCoupling?))
    || (a.SetOn? && b.SetOn?)
    || (a.SetInverse? && b.SetInverse?)
  }

  /** The setting shows the operation. */
  ghost predicate Shows(p: Provider, s: Settings, op: Op) {
    match op
    case SetVoltage(idx) => 0 <= idx < p.steps ==> s.vbIdx == idx && s.pos0HalfRange == p.halfRange(idx)
    case SetZero(zero, commit) => -s.pos0HalfRange <= zero <= s.pos0HalfRange ==> s.pos0 == zero
    case SetBandLimit(bl) => s.bandlimit == bl
    case SetCoupling(coupling) => s.couplingIdx == coupling
    case NextCoupling => true
    case SetOn(on) => s.on == on
    case SetInverse(inverse) => s.inverse == inverse
  }

  /** In every run, what was set last for a setting is what it shows, whatever else was done since. */
  lemma {:induction false} LastSettingHolds(p: Provider, c: Channel, before: seq<Op>, op: Op, after: seq<Op>)
    requires forall a <- after :: !SameKind(op, a)
    ensures Shows(p, Run(p, c, before + [op] + after).s, op)
  {
    var ops := before + [op] + after;
    if after == [] {
      assert ops[..|ops| - 1] == before && ops[|ops| - 1] == op;
      SetShows(p, Run(p, c, before), op);
    } else {
      var n := |after| - 1;
      assert ops[..|ops| - 1] == before + [op] + after[..n] && ops[|ops| - 1] == after[n];
      LastSettingHolds(p, c, before, op, after[..n]);
      OtherKeepsShowing(p, Run(p, c, before + [op] + after[..n]), op, after[n]);
    }
  }

  lemma SetShows(p: Provider, c: Channel, op: Op)
    ensures Shows(p, Apply(p, c, op).s, op)
  {
  }

  lemma OtherKeepsShowing(p: Provider, c: Channel, op: Op, other: Op)
    requires Shows(p, c.s, op) && !SameKind(op, other)
    ensures Shows(p, Apply(p, c, other).s, op)
  {
  }

  // ----- Every run keeps the device in step

  /** The device holds what the getters say. */
  predicate Synced(c: Channel) {
    && c.regs.on == c.s.on
    && c.regs.coupling == c.s.couplingIdx
    && c.regs.vb == c.s.vbIdx
    && c.regs.bandlimit == IsBandlimit(c.s)
  }

  lemma ApplyKeepsSynced(p: Provider, c: Channel, op: Op)
    requires Synced(c)
    ensures Synced(Apply(p, c, op))
  {
  }

  /** Although the band limit is sent again only when the lowest step is entered or left. */
  lemma {:induction false} SyncedInEveryRun(p: Provider, c: Channel, ops: seq<Op>)
    requires Synced(c)
    ensures Synced(Run(p, c, ops))
  {
    hide Synced, Apply;
    if ops == [] {
    } else {
      SyncedInEveryRun(p, c, ops[..|ops| - 1]);
      ApplyKeepsSynced(p, Run(p, c, ops[..|ops| - 1]), ops[|ops| - 1]);
    }
  }

  // ----- The zero position

  predicate InRange(c: Channel) {
    -c.s.pos0HalfRange <= c.s.pos0 <= c.s.pos0HalfRange
  }

  predicate RightRange(p: Provider, c: Channel) {
    0 <= c.s.vbIdx < p.steps && c.s.pos0HalfRange == p.halfRange(c.s.vbIdx)
  }

  function Sum(xs: seq<int>): int {
    if xs == [] then 0 else Sum(xs[..|xs| - 1]) + xs[|xs| - 1]
  }

  lemma SumSnoc(xs: seq<int>, x: int)
    ensures Sum(xs + [x]) == Sum(xs) + x
  {
    assert (xs + [x])[..|xs|] == xs;
  }

  lemma DeltaOfStep(p: Provider, c: Channel, op: Op)
    ensures var d := Apply(p, c, op);
      Sum(d.reports.deltas) - Sum(c.reports.deltas) == d.s.pos0 - c.s.pos0
  {
    hide Clamp, Sum;
    SumSnoc(c.reports.deltas, Apply(p, c, op).s.pos0 - c.s.pos0);
  }

  /** The reported changes of the zero position add up to the change there was, for every provider and from
      every state. */
  lemma {:induction false} DeltasInEveryRun(p: Provider, c: Channel, ops: seq<Op>)
    ensures var d := Run(p, c, ops);
      Sum(d.reports.deltas) - Sum(c.reports.deltas) == d.s.pos0 - c.s.pos0
  {
    hide Apply, Sum;
    if ops == [] {
    } else {
      DeltasInEveryRun(p, c, ops[..|ops| - 1]);
      DeltaOfStep(p, Run(p, c, ops[..|ops| - 1]), ops[|ops| - 1]);
    }
  }

  lemma RangeOfStep(p: Provider, c: Channel, op: Op)
    requires Sensible(p) && p.housed && RightRange(p, c) && InRange(c)
    ensures RightRange(p, Apply(p, c, op)) && InRange(Apply(p, c, op))
  {
  }

  /** The position stays within the range of the current step. */
  lemma {:induction false} PositionInEveryRun(p: Provider, c: Channel, ops: seq<Op>)
    requires Sensible(p) && p.housed && RightRange(p, c) && InRange(c)
    ensures RightRange(p, Run(p, c, ops)) && InRange(Run(p, c, ops))
  {
    hide Apply, Sensible;
    if ops == [] {
    } else {
      PositionInEveryRun(p, c, ops[..|ops| - 1]);
      RangeOfStep(p, Run(p, c, ops[..|ops| - 1]), ops[|ops| - 1]);
    }
  }

  /** The operations that send the position to the device. */
  predicate Commits(p: Provider, op: Op) {
    match op
    case SetZero(_, commit) => commit
    case SetVoltage(idx) => p.housed && ValidVoltageIndex(p, idx) >= 0
    case SetOn(on) => on
    case _ => false
  }

  /** The position at the last committing operation of a run, or what the device held before it. */
  function LastCommitted(p: Provider, c: Channel, ops: seq<Op>): int {
    if ops == [] then c.regs.pos0
    else if Commits(p, ops[|ops| - 1]) then Run(p, c, ops).s.pos0
    else LastCommitted(p, c, ops[..|ops| - 1])
  }

  /** The device's position is the one of the last committing operation; dragging without committing is
      not seen by the device. */
  lemma {:induction false} DevicePositionInEveryRun(p: Provider, c: Channel, ops: seq<Op>)
    ensures Run(p, c, ops).regs.pos0 == LastCommitted(p, c, ops)
    ensures ops != [] && Commits(p, ops[|ops| - 1]) ==> Run(p, c, ops).regs.pos0 == Run(p, c, ops).s.pos0
  {
    if ops == [] {
    } else {
      DevicePositionInEveryRun(p, c, ops[..|ops| - 1]);
    }
  }

  // ----- The reported voltage steps

  /** The reports lead from one step to another without a gap. */
  predicate Path(from: int, steps: seq<StepReport>, to: int) {
    if steps == [] then from == to
    else
      var last := steps[|steps| - 1];
      last.to == to && Path(from, steps[..|steps| - 1], last.from)
  }

  lemma {:induction false} StepsInEveryRun(p: Provider, c: Channel, ops: seq<Op>, from: int)
    requires Path(from, c.reports.steps, c.s.vbIdx)
    ensures Path(from, Run(p, c, ops).reports.steps, Run(p, c, ops).s.vbIdx)
  {
    if ops == [] {
    } else {
      var d := Run(p, c, ops[..|ops| - 1]);
      StepsInEveryRun(p, c, ops[..|ops| - 1], from);
      var e := Run(p, c, ops);
      assert |e.reports.steps| > |d.reports.steps| ==> e.reports.steps[..|d.reports.steps|] == d.reports.steps;
    }
  }

  // ----- Preferences

  datatype Pref = Pref(
    vbIdx: int, pos0: int, on: bool, measureCurrentOn: bool, probeMultiIdx: int, couplingIdx: int,
    bandlimit: bool, inverse: bool, amperePerVolt: int)

  function Saved(s: Settings): Pref {
    Pref(s.vbIdx, s.pos0, s.on, s.measureCurrentOn, s.probeMultiIdx, s.couplingIdx, IsBandlimit(s), s.inverse,
         s.amperePerVolt)
  }

  function Loaded(p: Provider, f: Pref): Settings {
    var vb := if f.vbIdx < 0 || f.vbIdx >= p.steps then 0 else f.vbIdx;
    Settings(f.on, f.measureCurrentOn, f.probeMultiIdx, f.couplingIdx, vb, f.pos0, p.halfRange(vb), f.bandlimit,
             f.inverse, if f.amperePerVolt == 0 then 10000 else f.amperePerVolt)
  }

  /** Loading takes the preferences as they are, but for a step that does not exist, which becomes the lowest,
      and a current probe that was never set, which becomes 10000. */
  lemma LoadedTakesPreferences(p: Provider, f: Pref)
    ensures var s := Loaded(p, f);
      && s.vbIdx == (if 0 <= f.vbIdx < p.steps then f.vbIdx else 0) && s.pos0HalfRange == p.halfRange(s.vbIdx)
      && s.amperePerVolt == (if f.amperePerVolt == 0 then 10000 else f.amperePerVolt)
      && s.pos0 == f.pos0 && s.on == f.on && s.measureCurrentOn == f.measureCurrentOn
      && s.probeMultiIdx == f.probeMultiIdx && s.couplingIdx == f.couplingIdx
      && s.bandlimit == f.bandlimit && s.inverse == f.inverse
  {
  }

  /** What a round trip through the preferences keeps: everything a getter shows always, the raw band
      limit exactly when the lowest step did not mask it. */
  lemma SaveLoadRoundTrip(p: Provider, s: Settings)
    requires 0 <= s.vbIdx < p.steps && s.pos0HalfRange == p.halfRange(s.vbIdx) && s.amperePerVolt != 0
    ensures Loaded(p, Saved(s)) == s.(bandlimit := IsBandlimit(s))
    ensures Saved(Loaded(p, Saved(s))) == Saved(s)
    ensures Loaded(p, Saved(s)) == s <==> s.vbIdx != 0 || s.bandlimit
  {
  }

  /** Whatever the preferences hold, one load and save settles them. */
  lemma SaveLoadSettles(p: Provider, f: Pref)
    requires p.steps >= 1
    ensures var g := Saved(Loaded(p, f)); Saved(Loaded(p, g)) == g
  {
  }

  lemma {:induction false} OnlyStepIsZero(p: Provider, c: Channel, ops: seq<Op>)
    requires p.steps == 1 && c.s.vbIdx == 0
    ensures Run(p, c, ops).s.vbIdx == 0
  {
    if ops == [] {
    } else {
      OnlyStepIsZero(p, c, ops[..|ops| - 1]);
    }
  }

  /** Some run of voltage changes shows a different band limit after the round trip. */
  ghost predicate Distinguishable(p: Provider, c: Channel) {
    exists idxs: seq<int> ::
      IsBandlimit(Run(p, c, Voltages(idxs)).s) !=
      IsBandlimit(Run(p, c.(s := Loaded(p, Saved(c.s))), Voltages(idxs)).s)
  }

  function Voltages(idxs: seq<int>): (ops: seq<Op>)
    ensures |ops| == |idxs| && forall i :: 0 <= i < |ops| ==> ops[i] == SetVoltage(idxs[i])
  {
    seq(|idxs|, i requires 0 <= i < |idxs| => SetVoltage(idxs[i]))
  }

  lemma RunOne(p: Provider, c: Channel, op: Op)
    ensures Run(p, c, [op]) == Apply(p, c, op)
  {
    assert [op][..0] == [];
  }

  /** The masked band limit is lost in the round trip, and that shows as soon as another step exists. */
  lemma MaskedBandlimitIsLost(p: Provider, c: Channel)
    requires Sensible(p) && c.s.amperePerVolt != 0 && RightRange(p, c)
    ensures Distinguishable(p, c) <==> p.steps >= 2 && c.s.vbIdx == 0 && !c.s.bandlimit
  {
    var d := c.(s := Loaded(p, Saved(c.s)));
    SaveLoadRoundTrip(p, c.s);
    if p.steps >= 2 && c.s.vbIdx == 0 && !c.s.bandlimit {
      var ops := Voltages([1]);
      assert ops == [SetVoltage(1)];
      RunOne(p, c, SetVoltage(1));
      RunOne(p, d, SetVoltage(1));
      assert IsBandlimit(Run(p, c, Voltages([1])).s) != IsBandlimit(Run(p, d, Voltages([1])).s);
    } else if p.steps == 1 {
      forall idxs: seq<int>
        ensures IsBandlimit(Run(p, c, Voltages(idxs)).s) == IsBandlimit(Run(p, d, Voltages(idxs)).s)
      {
        OnlyStepIsZero(p, c, Voltages(idxs));
        OnlyStepIsZero(p, d, Voltages(idxs));
      }
    } else {
      assert d == c;
    }
  }
}
