/** The channel object itself (ChannelInfo.java): fields, and operations that also talk to the device and
    to the rest of the program.  What they do to all three is `Apply` of module ChannelModel. */
module ChannelInfo {
  import opened ChannelModel

  class Device {
    var regs: Registers

    constructor (regs: Registers)
      ensures this.regs == regs
    {
      this.regs := regs;
    }
  }

  /** Orders are collected and then sent in order; the `d_` orders are sent at once. */
  class Submitable {
    const device: Device
    var queue: seq<Order>

    constructor (device: Device)
      ensures this.device == device && queue == []
    {
      this.device, queue := device, [];
    }

    method CChl(o: Order)
      modifies this
      ensures queue == old(queue) + [o]
    {
      queue := queue + [o];
    }

    method Submit()
      modifies this, device
      ensures device.regs == ExecuteAll(old(device.regs), old(queue)) && queue == []
    {
      var i := 0;
      while i < |queue|
        invariant 0 <= i <= |queue| && queue == old(queue)
        invariant ExecuteAll(device.regs, queue[i..]) == ExecuteAll(old(device.regs), queue)
      {
        assert queue[i..][1..] == queue[i + 1..];
        device.regs := Execute(device.regs, queue[i]);
        i := i + 1;
      }
      queue := [];
    }

    method DChl(o: Order)
      modifies device
      ensures device.regs == Execute(old(device.regs), o)
    {
      device.regs := Execute(device.regs, o);
    }
  }

  /** What follows from changes of a channel elsewhere in the program; here it keeps a record. */
  class Influence {
    var reports: Reports

    constructor ()
      ensures reports == Reports([], [], 0)
    {
      reports := Reports([], [], 0);
    }

    method ByPos0(dp: int)
      modifies this
      ensures reports == old(reports).(deltas := old(reports).deltas + [dp])
    {
      reports := reports.(deltas := reports.deltas + [dp]);
    }

    method ByVoltBase(pos0: int, vb0: int, vb1: int)
      modifies this
      ensures reports == old(reports).(steps := old(reports).steps + [StepReport(pos0, vb0, vb1)])
    {
      reports := reports.(steps := reports.steps + [StepReport(pos0, vb0, vb1)]);
    }

    method NotifyChannelUpdate()
      modifies this
      ensures reports == old(reports).(updates := old(reports).updates + 1)
    {
      reports := reports.(updates := reports.updates + 1);
    }
  }

  class ChannelInfo {
    const vp: Provider
    const device: Device
    const pvi: Influence
    var on: bool
    var isMeasureCurrentOn: bool
    var probeMultiIdx: int
    var couplingIdx: int
    var vbIdx: int
    var pos0: int
    var pos0HalfRange: int
    var bandlimit: bool
    var inverse: bool
    var amperePerVolt: int

    ghost function SettingsNow(): Settings
      reads this
    {
      Settings(on, isMeasureCurrentOn, probeMultiIdx, couplingIdx, vbIdx, pos0, pos0HalfRange, bandlimit, inverse,
               amperePerVolt)
    }

    ghost function View(): Channel
      reads this, device, pvi
    {
      Channel.Channel(SettingsNow(), device.regs, pvi.reports)
    }

    constructor (vp: Provider, device: Device, pvi: Influence)
      ensures this.vp == vp && this.device == device && this.pvi == pvi
      ensures !on && !isMeasureCurrentOn && probeMultiIdx == 0 && couplingIdx == 0 && vbIdx == 0 && pos0 == 0
      ensures pos0HalfRange == 0 && !bandlimit && !inverse && amperePerVolt == 0
    {
      this.vp, this.device, this.pvi := vp, device, pvi;
      on, isMeasureCurrentOn, bandlimit, inverse := false, false, false, false;
      probeMultiIdx, couplingIdx, vbIdx, pos0, pos0HalfRange, amperePerVolt := 0, 0, 0, 0, 0, 0;
    }

    method IsBandlimit() returns (b: bool)
      ensures b == ChannelModel.IsBandlimit(SettingsNow())
    {
      if ShouldForceBandlimit(vbIdx) {
        return true;
      }
      return bandlimit;
    }

    method GetValidVoltageChangeIndex(idx: int) returns (change: int)
      ensures change == ValidVoltageIndex(vp, idx)
    {
      change := idx;
      if idx < 0 {
        change := 0;
      }
      if idx >= vp.steps {
        change := vp.steps - 1;
      }
    }

    method CForceBandLimit(bw: bool)
      modifies device
      ensures device.regs == old(device.regs).(bandlimit := bw)
    {
      var sbm := new Submitable(device);
      sbm.CChl(BANDLIMIT(bw));
      sbm.Submit();
    }

    method CSetBandLimit(bl: bool)
      modifies this`bandlimit, device
      ensures View() == Apply(vp, old(View()), SetBandLimit(bl))
    {
      bandlimit := bl;
      var b := IsBandlimit();
      CForceBandLimit(b);
    }

    method CSetInverse(iv: bool)
      modifies this`inverse
      ensures View() == Apply(vp, old(View()), SetInverse(iv))
    {
      if inverse == iv {
        return;
      }
      inverse := iv;
    }

    method CSyncChannel(sbm: Submitable)
      requires sbm.queue == []
      modifies sbm
      ensures ExecuteAll(device.regs, sbm.queue) ==
        if on then Registers(true, couplingIdx, vbIdx, pos0, ChannelModel.IsBandlimit(SettingsNow()))
        else device.regs.(on := false)
    {
      ghost var r := device.regs;
      if on {
        sbm.CChl(ONOFF(true));
        ExecuteSnoc(r, [], ONOFF(true));
        ghost var q := sbm.queue;
        sbm.CChl(COUPLING(couplingIdx));
        ExecuteSnoc(r, q, COUPLING(couplingIdx));
        q := sbm.queue;
        sbm.CChl(VB(vbIdx));
        ExecuteSnoc(r, q, VB(vbIdx));
        q := sbm.queue;
        sbm.CChl(POS0(pos0));
        ExecuteSnoc(r, q, POS0(pos0));
        q := sbm.queue;
        var b := IsBandlimit();
        sbm.CChl(BANDLIMIT(b));
        ExecuteSnoc(r, q, BANDLIMIT(b));
      } else {
        sbm.CChl(ONOFF(false));
        ExecuteSnoc(r, [], ONOFF(false));
      }
    }

    method CSetOn(on: bool)
      modifies this`on, device
      ensures View() == Apply(vp, old(View()), SetOn(on))
    {
      this.on := on;
      var sbm := new Submitable(device);
      CSyncChannel(sbm);
      sbm.Submit();
    }

    method CSetCoupling(coupling: int)
      modifies this`couplingIdx, device
      ensures View() == Apply(vp, old(View()), SetCoupling(coupling))
    {
      couplingIdx := coupling;
      var sbm := new Submitable(device);
      sbm.CChl(COUPLING(couplingIdx));
      sbm.Submit();
    }

    method CSetNextCoupling()
      modifies this`couplingIdx, device
      ensures View() == Apply(vp, old(View()), NextCoupling)
    {
      CSetCoupling(JavaRem(couplingIdx + 1, COUPLINGS));
    }

    method CSetZero(zero: int, commit: bool)
      modifies this`pos0, device, pvi
      ensures View() == Apply(vp, old(View()), SetZero(zero, commit))
    {
      var z := zero;
      var p0, hpr := pos0, pos0HalfRange;
      if z < -hpr {
        z := -hpr;
      } else if z > hpr {
        z := hpr;
      }
      var dp := z - p0;
      pos0 := z;
      pvi.ByPos0(dp);
      if commit {
        var sbm := new Submitable(device);
        sbm.DChl(POS0(pos0));
      }
    }

    /** `isfirstload` is set while the preferences are read.  The waveform manager's `setZeroYLoc` is
        taken to hand the position on to `c_setZero`. */
    method SetVoltbaseIndex(idx: int, restrictPos0: bool, isfirstload: bool)
      requires 0 <= idx < vp.steps
      modifies this`vbIdx, this`pos0HalfRange, this`pos0, device, pvi
      ensures View() ==
        if restrictPos0 && !isfirstload then StepTo(vp, old(View()), idx)
        else old(View()).(s := old(SettingsNow()).(vbIdx := idx, pos0HalfRange := vp.halfRange(idx)))
    {
      vbIdx := idx;
      pos0HalfRange := vp.halfRange(idx);
      if !restrictPos0 {
        return;
      }
      if !vp.housed || isfirstload {
        return;
      }
      CSetZero(pos0, true);
    }

    /** The band limit is sent again only when the lowest step is entered or left. */
    method ResendBandLimit(vb0: int, vb1: int)
      requires vbIdx == vb1
      modifies device, pvi
      ensures if ShouldForceBandlimit(vb0) || ShouldForceBandlimit(vb1) then
          && device.regs == old(device.regs).(bandlimit := ChannelModel.IsBandlimit(SettingsNow()))
          && pvi.reports == old(pvi.reports).(updates := old(pvi.reports).updates + 1)
        else device.regs == old(device.regs) && pvi.reports == old(pvi.reports)
    {
      if ShouldForceBandlimit(vb1) {
        CForceBandLimit(true);
        pvi.NotifyChannelUpdate();
      } else if ShouldForceBandlimit(vb0) {
        var b := IsBandlimit();
        CForceBandLimit(b);
        pvi.NotifyChannelUpdate();
      }
    }

    method CSetVoltage(idx: int)
      requires vp.steps >= 1
      modifies this`vbIdx, this`pos0HalfRange, this`pos0, device, pvi
      ensures View() == Apply(vp, old(View()), SetVoltage(idx))
    {
      hide Clamp;
      var change := GetValidVoltageChangeIndex(idx);
      if change < 0 {
        return;
      }
      var vb0 := vbIdx;
      SetVoltbaseIndex(change, true, false);
      ResendBandLimit(vb0, change);
      var sbm := new Submitable(device);
      sbm.DChl(VB(vbIdx));
      pvi.ByVoltBase(pos0, vb0, change);
    }

    method Persist() returns (f: Pref)
      ensures f == Saved(SettingsNow())
      ensures f.vbIdx == vbIdx && f.pos0 == pos0 && f.on == on && f.measureCurrentOn == isMeasureCurrentOn
      ensures f.probeMultiIdx == probeMultiIdx && f.couplingIdx == couplingIdx && f.inverse == inverse
      ensures f.bandlimit == (bandlimit || vbIdx == 0) && f.amperePerVolt == amperePerVolt
    {
      var b := IsBandlimit();
      f := Pref(vbIdx, pos0, on, isMeasureCurrentOn, probeMultiIdx, couplingIdx, b, inverse, amperePerVolt);
    }

    method Load(f: Pref)
      requires vp.steps >= 1
      modifies this, device, pvi
      ensures View() == old(View()).(s := Loaded(vp, f))
    {
      hide StepTo, ChannelModel.IsBandlimit;
      var vb := f.vbIdx;
      if vb < 0 || vb >= vp.steps {
        vb := 0;
      }
      pos0 := f.pos0;
      SetVoltbaseIndex(vb, true, true);
      on := f.on;
      isMeasureCurrentOn := f.measureCurrentOn;
      probeMultiIdx := f.probeMultiIdx;
      couplingIdx := f.couplingIdx;
      bandlimit := f.bandlimit;
      inverse := f.inverse;
      amperePerVolt := f.amperePerVolt;
      if amperePerVolt == 0 {
        amperePerVolt := 10000;
      }
    }
  }
}
