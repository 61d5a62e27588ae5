/** The JNI bridge of LibusbJava.c: `usb_get_busses` copies the C bus list into linked Java objects,
    `usb_open` finds the C device a Java device was made from. */
module UsbMirror {
  import opened UsbStructs
  import opened UsbWhole

  class UsbDevice {
    var next: UsbDevice?
    var prev: UsbDevice?
    var bus: UsbBus?
    var filename: Ptr<string>
    var descriptor: Ptr<JDeviceDescriptor>
    var config: Ptr<seq<JConfig>>
    var devnum: JByte
    var num_children: JByte
    var children: UsbDevice?
    var devStructAddr: int

    /** The state a Java object is born with. */
    ghost predicate Blank()
      reads this
    {
      && next == null && prev == null && bus == null && filename.Null? && descriptor.Null?
      && config.Null? && devnum == 0 && num_children == 0 && children == null && devStructAddr == 0
    }

    constructor ()
      ensures Blank()
    {
      next, prev, bus, children := null, null, null, null;
      filename, descriptor, config := Null, Null, Null;
      devnum, num_children, devStructAddr := 0, 0, 0;
    }

    /** Everything but the links: this object shows the C device `c` sitting on the Java bus `b`. */
    ghost predicate Shows(c: CDevice, b: UsbBus)
      requires c.CDevice? && ReadableDevice(c)
      reads this
    {
      && bus == b
      && filename == To(c.filename)
      && Unsigned8(devnum) == c.devnum
      && Unsigned8(num_children) == c.num_children
      && children == null
      && devStructAddr == c.address
      && descriptor.To? && ShowsDescriptor(descriptor.target, c.descriptor)
      && config.To? && ShowsConfigs(config.target, c.descriptor.bNumConfigurations, c.config)
    }
  }

  class UsbBus {
    var next: UsbBus?
    var prev: UsbBus?
    var dirname: Ptr<string>
    var devices: UsbDevice?
    var location: int
    var root_dev: UsbDevice?

    ghost predicate Blank()
      reads this
    {
      next == null && prev == null && dirname.Null? && devices == null && location == 0 && root_dev == null
    }

    constructor ()
      ensures Blank()
    {
      next, prev, devices, root_dev := null, null, null, null;
      dirname, location := Null, 0;
    }
  }

  // ----- The nested arrays of one device

  method CopyExtra(extra: Ptr<seq<U8>>, extralen: int) returns (j: Ptr<seq<JByte>>)
    requires ReadableExtra(extra, extralen)
    ensures ShowsExtra(j, extralen, extra, extralen)
  {
    if extra.To? {
      j := To(seq(extralen, k requires 0 <= k < extralen => ToJByte(extra.target[k])));
    } else {
      j := Null;
    }
  }

  method CopyEndpoint(c: CEndpoint) returns (j: JEndpoint)
    requires ReadableEndpoint(c)
    ensures ShowsEndpoint(j, c)
  {
    hide ShowsExtra;
    var extra := CopyExtra(c.extra, c.extralen);
    j := JEndpoint(
      ToJByte(c.bLength), ToJByte(c.bDescriptorType), ToJByte(c.bEndpointAddress), ToJByte(c.bmAttributes),
      ToJShort(c.wMaxPacketSize), ToJByte(c.bInterval), ToJByte(c.bRefresh), ToJByte(c.bSynchAddress),
      extra, c.extralen);
  }

  method CopyEndpoints(alt: CAltsetting) returns (js: seq<JEndpoint>, p: Problem)
    requires ReadableAltsetting(alt)
    ensures p == EndpointProblem(alt)
    ensures p == Fine ==> ShowsEndpoints(js, alt.bNumEndpoints, alt.endpoint)
  {
    hide ShowsEndpoint;
    js, p := [], Fine;
    for e := 0 to alt.bNumEndpoints
      invariant |js| == e
      invariant e > 0 ==> alt.endpoint.To?
      invariant forall k :: 0 <= k < e ==> ShowsEndpoint(js[k], alt.endpoint.target[k])
    {
      if alt.endpoint.Null? {
        p := NullEndpoint;
        return;
      }
      var j := CopyEndpoint(alt.endpoint.target[e]);
      js := js + [j];
    }
  }

  /** One round of the loop over alternate settings; on a problem the record is not used. */
  method CopyAltsetting(c: CAltsetting) returns (j: JAltsetting, p: Problem)
    requires ReadableAltsetting(c)
    ensures p == EndpointProblem(c)
    ensures p == Fine ==> ShowsAltsetting(j, c)
  {
    hide ShowsExtra, ShowsEndpoints;
    var extra := CopyExtra(c.extra, c.extralen);
    var endpoints;
    endpoints, p := CopyEndpoints(c);
    j := JAltsetting(
      ToJByte(c.bLength), ToJByte(c.bDescriptorType), ToJByte(c.bInterfaceNumber),
      ToJByte(c.bAlternateSetting), ToJByte(c.bNumEndpoints), ToJByte(c.bInterfaceClass),
      ToJByte(c.bInterfaceSubClass), ToJByte(c.bInterfaceProtocol), ToJByte(c.iInterface),
      endpoints, extra, c.extralen);
  }

  method CopyAltsettings(intf: CInterface) returns (js: seq<JAltsetting>, p: Problem)
    requires ReadableInterface(intf)
    ensures p == AltsettingProblem(intf)
    ensures p == Fine ==> ShowsAltsettings(js, intf.num_altsetting, intf.altsetting)
  {
    hide ShowsAltsetting, EndpointProblem, First;
    js, p := [], Fine;
    if intf.num_altsetting < 0 {  // NewObjectArray refuses a negative length
      p := NegativeCount;
      return;
    }
    var n := intf.num_altsetting;
    ghost var findings := EndpointFindings(intf);
    for a := 0 to n
      invariant p == Fine && |js| == a
      invariant a > 0 ==> intf.altsetting.To?
      invariant forall k :: 0 <= k < a ==>
        findings[k] == Fine && ShowsAltsetting(js[k], intf.altsetting.target[k])
    {
      if intf.altsetting.Null? {
        p := NullAltsetting;
        return;
      }
      var j;
      j, p := CopyAltsetting(intf.altsetting.target[a]);
      if p != Fine {
        FirstAt(findings, a);
        return;
      }
      js := js + [j];
    }
    FirstAt(findings, |findings|);
  }

  method CopyInterfaces(conf: CConfig) returns (js: seq<JInterface>, p: Problem)
    requires ReadableConfig(conf)
    ensures p == InterfaceProblem(conf)
    ensures p == Fine ==> ShowsInterfaces(js, conf.bNumInterfaces, conf.interfaces)
  {
    hide ShowsAltsettings, AltsettingProblem, First;
    js, p := [], Fine;
    var n := conf.bNumInterfaces;
    ghost var findings := AltsettingFindings(conf);
    for i := 0 to n
      invariant |js| == i
      invariant i > 0 ==> conf.interfaces.To?
      invariant forall k :: 0 <= k < i ==>
        findings[k] == Fine && ShowsInterface(js[k], conf.interfaces.target[k])
    {
      if conf.interfaces.Null? {
        p := NullInterface;
        return;
      }
      var c := conf.interfaces.target[i];
      var altsettings, inner := CopyAltsettings(c);
      if inner != Fine {
        p := inner;
        FirstAt(findings, i);
        return;
      }
      js := js + [JInterface(altsettings, c.num_altsetting)];
    }
    FirstAt(findings, |findings|);
  }

  /** One round of the loop over configurations; on a problem the record is not used. */
  method CopyConfig(c: CConfig) returns (j: JConfig, p: Problem)
    requires ReadableConfig(c)
    ensures p == InterfaceProblem(c)
    ensures p == Fine ==> ShowsConfig(j, c)
  {
    hide ShowsExtra, ShowsInterfaces, InterfaceProblem;
    var extra := CopyExtra(c.extra, c.extralen);
    var interfaces;
    interfaces, p := CopyInterfaces(c);
    j := JConfig(
      ToJByte(c.bLength), ToJByte(c.bDescriptorType), ToJShort(c.wTotalLength), ToJByte(c.bNumInterfaces),
      ToJByte(c.bConfigurationValue), ToJByte(c.iConfiguration), ToJByte(c.bmAttributes), ToJByte(c.MaxPower),
      interfaces, extra, c.extralen);
  }

  method CopyConfigs(dev: CDevice) returns (js: seq<JConfig>, p: Problem)
    requires dev.CDevice? && ReadableDevice(dev)
    ensures p == DeviceProblem(dev)
    ensures p == Fine ==> ShowsConfigs(js, dev.descriptor.bNumConfigurations, dev.config)
  {
    hide ShowsConfig, InterfaceProblem, First;
    js, p := [], Fine;
    var n := dev.descriptor.bNumConfigurations;
    ghost var findings := InterfaceFindings(dev);
    for k := 0 to n
      invariant p == Fine && |js| == k
      invariant k > 0 ==> dev.config.To?
      invariant forall m :: 0 <= m < k ==>
        findings[m] == Fine && ShowsConfig(js[m], dev.config.target[m])
    {
      if dev.config.Null? {
        p := NullConfig;
        return;
      }
      var j;
      j, p := CopyConfig(dev.config.target[k]);
      if p != Fine {
        FirstAt(findings, k);
        return;
      }
      js := js + [j];
    }
    FirstAt(findings, |findings|);
  }

  function CopyDescriptor(d: CDeviceDescriptor): (j: JDeviceDescriptor)
    ensures ShowsDescriptor(j, d)
  {
    JDeviceDescriptor(
      ToJByte(d.bLength), ToJByte(d.bDescriptorType), ToJShort(d.bcdUSB), ToJByte(d.bDeviceClass),
      ToJByte(d.bDeviceSubClass), ToJByte(d.bDeviceProtocol), ToJByte(d.bMaxPacketSize0),
      ToJShort(d.idVendor), ToJShort(d.idProduct), ToJShort(d.bcdDevice), ToJByte(d.iManufacturer),
      ToJByte(d.iProduct), ToJByte(d.iSerialNumber), ToJByte(d.bNumConfigurations))
  }

  // ----- The device list of one bus

  ghost predicate Distinct<T>(xs: seq<T>) {
    forall i, j :: 0 <= i < j < |xs| ==> xs[i] != xs[j]
  }

  /** `ds` is a doubly linked list, `tail` what its last cell points on to. */
  ghost predicate DevicesLinked(ds: seq<UsbDevice>, tail: UsbDevice?)
    reads ds
  {
    && (forall k {:trigger ds[k].prev} :: 0 <= k < |ds| ==> ds[k].prev == if k == 0 then null else ds[k - 1])
    && (forall k {:trigger ds[k].next} :: 0 <= k < |ds| ==>
          ds[k].next == if k + 1 < |ds| then ds[k + 1] else tail)
  }

  ghost predicate DevicesShow(ds: seq<UsbDevice>, cs: seq<CDevice>, b: UsbBus)
    reads ds
  {
    && |ds| <= |cs|
    && forall k :: 0 <= k < |ds| ==> cs[k].CDevice? && ReadableDevice(cs[k]) && ds[k].Shows(cs[k], b)
  }

  lemma LinkOneMore(ds: seq<UsbDevice>, d: UsbDevice, tail: UsbDevice?)
    requires DevicesLinked(ds, d)
    requires d.prev == (if ds == [] then null else ds[|ds| - 1]) && d.next == tail
    ensures DevicesLinked(ds + [d], tail)
  {
  }

  lemma ShowOneMore(ds: seq<UsbDevice>, d: UsbDevice, cs: seq<CDevice>, b: UsbBus)
    requires DevicesShow(ds, cs, b) && |ds| < |cs|
    requires cs[|ds|].CDevice? && ReadableDevice(cs[|ds|]) && d.Shows(cs[|ds|], b)
    ensures DevicesShow(ds + [d], cs, b)
  {
  }

  /** `k` devices of the bus were copied whole and `dev` is what remains of the list. */
  ghost predicate Reached(bus: CBus, k: nat, dev: CDevice)
    requires bus.CBus? && ReadableBus(bus)
  {
    var all := Devices(bus.devices);
    && k <= |all| && all[k..] == Devices(dev)
    && forall i :: 0 <= i < k ==> DeviceProblem(all[i]) == Fine
  }

  lemma ReachedNext(bus: CBus, k: nat, dev: CDevice)
    requires bus.CBus? && ReadableBus(bus) && Reached(bus, k, dev)
    ensures dev.NoDevice? ==> k == |Devices(bus.devices)| && BusProblem(bus) == Fine
    ensures dev.CDevice? ==> k < |Devices(bus.devices)| && dev == Devices(bus.devices)[k] && ReadableDevice(dev)
    ensures dev.CDevice? && DeviceProblem(dev) == Fine ==> Reached(bus, k + 1, dev.next)
    ensures dev.CDevice? && DeviceProblem(dev) != Fine ==> BusProblem(bus) == DeviceProblem(dev)
  {
    var all := Devices(bus.devices);
    FirstAt(DeviceFindings(bus), k);
    if dev.CDevice? {
      assert all[k] == all[k..][0] == dev;
      assert all[k + 1..] == all[k..][1..];
    }
  }

  ghost function FirstDevice(ds: seq<UsbDevice>): UsbDevice? {
    if ds == [] then null else ds[0]
  }

  /** One round of the device loop: link the object at hand and fill it from `dev`. */
  method FillDevice(devObj: UsbDevice, dev: CDevice, next: UsbDevice?, prev: UsbDevice?, busObj: UsbBus)
    returns (p: Problem)
    requires dev.CDevice? && ReadableDevice(dev) && devObj.Blank()
    modifies devObj
    ensures p == DeviceProblem(dev)
    ensures devObj.next == next && devObj.prev == prev && devObj.bus == busObj
    ensures if p == Fine then devObj.Shows(dev, busObj) else devObj.config.Null?
  {
    devObj.next := next;
    devObj.prev := prev;
    devObj.bus := busObj;
    devObj.filename := To(dev.filename);
    devObj.devnum := ToJByte(dev.devnum);
    devObj.num_children := ToJByte(dev.num_children);
    devObj.devStructAddr := dev.address;
    devObj.descriptor := To(CopyDescriptor(dev.descriptor));
    var configs;
    configs, p := CopyConfigs(dev);
    if p == Fine {
      devObj.config := To(configs);
    }
  }

  ghost function LastDevice(ds: seq<UsbDevice>): UsbDevice? {
    if ds == [] then null else ds[|ds| - 1]
  }

  /** What one round adds: `ds` are the objects already done, `cs` the C devices they show. */
  method AppendDevice(ghost ds: seq<UsbDevice>, ghost cs: seq<CDevice>, devObj: UsbDevice, dev: CDevice,
                      next: UsbDevice?, prev: UsbDevice?, busObj: UsbBus)
    returns (p: Problem)
    requires |ds| < |cs| && cs[|ds|] == dev && dev.CDevice? && ReadableDevice(dev)
    requires devObj.Blank() && devObj !in ds && Distinct(ds)
    requires DevicesLinked(ds, devObj) && DevicesShow(ds, cs, busObj) && prev == LastDevice(ds)
    modifies devObj
    ensures p == DeviceProblem(dev)
    ensures Distinct(ds + [devObj])
    ensures p == Fine ==> DevicesLinked(ds + [devObj], next) && DevicesShow(ds + [devObj], cs, busObj)
  {
    p := FillDevice(devObj, dev, next, prev, busObj);
    if p == Fine {
      LinkOneMore(ds, devObj, next);
      ShowOneMore(ds, devObj, cs, busObj);
    }
  }

  /** The object of this round (only the first round finds none waiting) and, allocated one round
      early so that `next` can point at it, the object of the round after. */
  method DeviceObjects(devObj: UsbDevice?, more: bool) returns (cur: UsbDevice, ahead: UsbDevice?)
    requires devObj != null ==> devObj.Blank()
    ensures if devObj == null then fresh(cur) else cur == devObj
    ensures cur.Blank()
    ensures more <==> ahead != null
    ensures ahead != null ==> fresh(ahead) && ahead != cur && ahead.Blank()
  {
    if devObj == null {
      cur := new UsbDevice();
    } else {
      cur := devObj;
    }
    ahead := null;
    if more {
      ahead := new UsbDevice();
    }
  }

  /** Between two rounds: `ds` are done and linked up to `devObj`, the object of the next round. */
  ghost predicate DevicesUnderWay(bus: CBus, busObj: UsbBus, ds: seq<UsbDevice>, dev: CDevice,
                                  devObj: UsbDevice?)
    requires bus.CBus? && ReadableBus(bus)
    reads ds, devObj
  {
    && Reached(bus, |ds|, dev) && Distinct(ds)
    && DevicesLinked(ds, devObj) && DevicesShow(ds, Devices(bus.devices), busObj)
    && (devObj == null <==> ds == [] || dev.NoDevice?)
    && (devObj != null ==> devObj !in ds && devObj.Blank())
  }

  lemma NothingDoneYet(bus: CBus, busObj: UsbBus)
    requires bus.CBus? && ReadableBus(bus)
    ensures DevicesUnderWay(bus, busObj, [], bus.devices, null)
  {
  }

  method DeviceRound(bus: CBus, busObj: UsbBus, ghost ds: seq<UsbDevice>, dev: CDevice,
                     devObj: UsbDevice?, devObjPrev: UsbDevice?)
    returns (cur: UsbDevice, devObjNext: UsbDevice?, p: Problem)
    requires bus.CBus? && ReadableBus(bus) && dev.CDevice?
    requires DevicesUnderWay(bus, busObj, ds, dev, devObj) && devObjPrev == LastDevice(ds)
    modifies devObj
    ensures if devObj == null then fresh(cur) else cur == devObj
    ensures devObjNext != null ==> fresh(devObjNext)
    ensures p == Fine ==> DevicesUnderWay(bus, busObj, ds + [cur], dev.next, devObjNext)
    ensures p != Fine ==> p == BusProblem(bus)
  {
    ReachedNext(bus, |ds|, dev);
    cur, devObjNext := DeviceObjects(devObj, dev.next.CDevice?);
    p := AppendDevice(ds, Devices(bus.devices), cur, dev, devObjNext, devObjPrev, busObj);
  }

  lemma EndsOfLonger(ds: seq<UsbDevice>, d: UsbDevice)
    ensures FirstDevice(ds + [d]) == (if ds == [] then d else FirstDevice(ds)) && LastDevice(ds + [d]) == d
    ensures forall x :: x in ds + [d] <==> x in ds || x == d
  {
  }

  method CopyDevices(bus: CBus, busObj: UsbBus) returns (main: UsbDevice?, p: Problem, ghost ds: seq<UsbDevice>)
    requires bus.CBus? && ReadableBus(bus)
    ensures p == BusProblem(bus)
    ensures fresh(ds)
    ensures p == Fine ==>
      && |ds| == |Devices(bus.devices)| && main == FirstDevice(ds) && Distinct(ds)
      && DevicesLinked(ds, null) && DevicesShow(ds, Devices(bus.devices), busObj)
  {
    hide DevicesShow, DevicesLinked;
    NothingDoneYet(bus, busObj);
    var dev := bus.devices;
    var devObj: UsbDevice?, devObjPrev: UsbDevice? := null, null;
    main, p, ds := null, Fine, [];
    while dev.CDevice?
      invariant p == Fine && fresh(ds) && (devObj != null ==> fresh(devObj))
      invariant DevicesUnderWay(bus, busObj, ds, dev, devObj)
      invariant main == FirstDevice(ds) && devObjPrev == LastDevice(ds)
      decreases dev
    {
      var cur, devObjNext;
      cur, devObjNext, p := DeviceRound(bus, busObj, ds, dev, devObj, devObjPrev);
      if main == null {
        main := cur;
      }
      if p != Fine {
        return;
      }
      EndsOfLonger(ds, cur);
      ds, devObjPrev, devObj, dev := ds + [cur], cur, devObjNext, dev.next;
    }
    ReachedNext(bus, |ds|, dev);
  }

  // ----- The bus list

  ghost predicate BusesLinked(ns: seq<UsbBus>, tail: UsbBus?)
    reads ns
  {
    && (forall k {:trigger ns[k].prev} :: 0 <= k < |ns| ==> ns[k].prev == if k == 0 then null else ns[k - 1])
    && (forall k {:trigger ns[k].next} :: 0 <= k < |ns| ==>
          ns[k].next == if k + 1 < |ns| then ns[k + 1] else tail)
  }

  /** The bus object `n`, with the device objects `ds`, shows the C bus `c` and all its devices. */
  ghost predicate ShowsBus(n: UsbBus, ds: seq<UsbDevice>, c: CBus)
    requires c.CBus? && ReadableBus(c)
    reads n, ds
  {
    && n.dirname == To(c.dirname) && n.location == c.location
    && n.devices == FirstDevice(ds) && n.root_dev == FirstDevice(ds)
    && |ds| == |Devices(c.devices)| && Distinct(ds)
    && DevicesLinked(ds, null) && DevicesShow(ds, Devices(c.devices), n)
  }

  ghost function Pooled(dss: seq<seq<UsbDevice>>): (pool: set<UsbDevice>)
    ensures forall k, d :: 0 <= k < |dss| && d in dss[k] ==> d in pool
  {
    set k, d | 0 <= k < |dss| && d in dss[k] :: d
  }

  ghost predicate BusesShow(ns: seq<UsbBus>, dss: seq<seq<UsbDevice>>, cs: seq<CBus>)
    reads ns, Pooled(dss)
  {
    && |ns| == |dss| <= |cs|
    && forall k :: 0 <= k < |ns| ==> cs[k].CBus? && ReadableBus(cs[k]) && ShowsBus(ns[k], dss[k], cs[k])
  }

  ghost function FirstBus(ns: seq<UsbBus>): UsbBus? {
    if ns == [] then null else ns[0]
  }

  ghost function LastBus(ns: seq<UsbBus>): UsbBus? {
    if ns == [] then null else ns[|ns| - 1]
  }

  ghost predicate ReachedBus(lib: CBus, k: nat, bus: CBus)
    requires ReadableLibrary(lib)
  {
    k <= GoodBuses(Buses(lib)) && Buses(lib)[k..] == Buses(bus)
  }

  lemma ReachedBusNext(lib: CBus, k: nat, bus: CBus)
    requires ReadableLibrary(lib) && ReachedBus(lib, k, bus)
    ensures bus.NoBus? ==> k == |Buses(lib)| == GoodBuses(Buses(lib))
    ensures bus.CBus? ==> k < |Buses(lib)| && bus == Buses(lib)[k] && ReadableBus(bus)
    ensures bus.CBus? && BusProblem(bus) == Fine ==> ReachedBus(lib, k + 1, bus.next)
    ensures bus.CBus? && BusProblem(bus) != Fine ==> k == GoodBuses(Buses(lib))
    ensures bus.CBus? ==> (bus.next.CBus? <==> k + 1 < |Buses(lib)|)
  {
    var all := Buses(lib);
    if k < GoodBuses(all) {
      GoodBusesAreFine(all, k);
    }
    if bus.CBus? {
      assert all[k] == all[k..][0] == bus;
      assert all[k + 1..] == all[k..][1..] == Buses(bus.next);
    }
  }

  ghost predicate BusesUnderWay(lib: CBus, ns: seq<UsbBus>, dss: seq<seq<UsbDevice>>, bus: CBus, busObj: UsbBus?)
    requires ReadableLibrary(lib)
    reads ns, busObj, Pooled(dss)
  {
    && ReachedBus(lib, |ns|, bus) && Distinct(ns)
    && BusesLinked(ns, busObj) && BusesShow(ns, dss, Buses(lib))
    && (busObj == null <==> ns == [] || bus.NoBus?)
    && (busObj != null ==> busObj !in ns && busObj.Blank())
  }

  lemma NoBusDoneYet(lib: CBus)
    requires ReadableLibrary(lib)
    ensures BusesUnderWay(lib, [], [], lib, null)
  {
  }

  /** The object of this round (only the first round finds none waiting) and, allocated one round
      early so that `next` can point at it, the object of the round after. */
  method BusObjects(busObj: UsbBus?, more: bool) returns (cur: UsbBus, ahead: UsbBus?)
    requires busObj != null ==> busObj.Blank()
    ensures if busObj == null then fresh(cur) else cur == busObj
    ensures cur.Blank()
    ensures more <==> ahead != null
    ensures ahead != null ==> fresh(ahead) && ahead != cur && ahead.Blank()
  {
    if busObj == null {
      cur := new UsbBus();
    } else {
      cur := busObj;
    }
    ahead := null;
    if more {
      ahead := new UsbBus();
    }
  }

  /** One round of the bus loop on the object at hand: its own fields, then its devices; the two
      device fields stay null when the copy of the devices stops. */
  method FillBus(busObj: UsbBus, bus: CBus, next: UsbBus?, prev: UsbBus?)
    returns (p: Problem, ghost ds: seq<UsbDevice>)
    requires bus.CBus? && ReadableBus(bus) && busObj.Blank()
    modifies busObj
    ensures p == BusProblem(bus) && fresh(ds)
    ensures busObj.next == next && busObj.prev == prev
    ensures busObj.dirname == To(bus.dirname) && busObj.location == bus.location
    ensures if p == Fine then ShowsBus(busObj, ds, bus) else busObj.devices == null && busObj.root_dev == null
  {
    busObj.next := next;
    busObj.prev := prev;
    busObj.dirname := To(bus.dirname);
    busObj.location := bus.location;
    var main;
    main, p, ds := CopyDevices(bus, busObj);
    if p == Fine {
      busObj.devices := main;
      busObj.root_dev := main;
    }
  }

  lemma BusesOneMore(ns: seq<UsbBus>, dss: seq<seq<UsbDevice>>, cs: seq<CBus>, n: UsbBus, ds: seq<UsbDevice>)
    requires BusesShow(ns, dss, cs) && |ns| < |cs|
    requires cs[|ns|].CBus? && ReadableBus(cs[|ns|]) && ShowsBus(n, ds, cs[|ns|])
    ensures BusesShow(ns + [n], dss + [ds], cs)
  {
  }

  lemma LinkBus(ns: seq<UsbBus>, n: UsbBus, tail: UsbBus?)
    requires BusesLinked(ns, n) && n.prev == LastBus(ns) && n.next == tail && Distinct(ns) && n !in ns
    ensures BusesLinked(ns + [n], tail) && Distinct(ns + [n])
  {
  }

  /** Filling one bus leaves the earlier ones as they were shown. */
  method FillNextBus(ghost ns: seq<UsbBus>, ghost dss: seq<seq<UsbDevice>>, ghost cs: seq<CBus>, busObj: UsbBus,
                     bus: CBus, next: UsbBus?, prev: UsbBus?)
    returns (p: Problem, ghost ds: seq<UsbDevice>)
    requires BusesShow(ns, dss, cs) && |ns| < |cs| && cs[|ns|] == bus
    requires bus.CBus? && ReadableBus(bus) && busObj.Blank() && busObj !in ns
    modifies busObj
    ensures p == BusProblem(bus) && fresh(ds)
    ensures busObj.next == next && busObj.prev == prev
    ensures busObj.dirname == To(bus.dirname) && busObj.location == bus.location
    ensures BusesShow(ns, dss, cs)
    ensures if p == Fine then BusesShow(ns + [busObj], dss + [ds], cs)
            else busObj.devices == null && busObj.root_dev == null
  {
    hide DevicesLinked, DevicesShow, Distinct;
    p, ds := FillBus(busObj, bus, next, prev);
    if p == Fine {
      BusesOneMore(ns, dss, cs, busObj, ds);
    }
  }

  method AppendBus(lib: CBus, ghost ns: seq<UsbBus>, ghost dss: seq<seq<UsbDevice>>, busObj: UsbBus,
                   bus: CBus, next: UsbBus?, prev: UsbBus?)
    returns (p: Problem, ghost ds: seq<UsbDevice>)
    requires ReadableLibrary(lib) && bus.CBus?
    requires ReachedBus(lib, |ns|, bus) && Distinct(ns) && BusesLinked(ns, busObj) && BusesShow(ns, dss, Buses(lib))
    requires busObj.Blank() && busObj !in ns && prev == LastBus(ns)
    requires (next != null <==> bus.next.CBus?) && (next != null ==> next !in ns && next != busObj && next.Blank())
    modifies busObj
    ensures bus == Buses(lib)[|ns|] && ReadableBus(bus) && p == BusProblem(bus) && fresh(ds)
    ensures p == Fine ==> BusesUnderWay(lib, ns + [busObj], dss + [ds], bus.next, next)
    ensures p != Fine ==> PartialMirror(lib, ns, dss, busObj, next)
  {
    hide DevicesLinked, DevicesShow, BusesLinked, BusesShow, Distinct;
    ReachedBusNext(lib, |ns|, bus);
    p, ds := FillNextBus(ns, dss, Buses(lib), busObj, bus, next, prev);
    LinkBus(ns, busObj, next);
  }

  lemma BusEndsOfLonger(ns: seq<UsbBus>, n: UsbBus, dss: seq<seq<UsbDevice>>, ds: seq<UsbDevice>)
    ensures FirstBus(ns + [n]) == (if ns == [] then n else FirstBus(ns)) && LastBus(ns + [n]) == n
    ensures forall x :: x in ns + [n] <==> x in ns || x == n
    ensures Pooled(dss + [ds]) == Pooled(dss) + set d | d in ds
  {
    forall d | d in Pooled(dss) ensures d in Pooled(dss + [ds]) {
      var k :| 0 <= k < |dss| && d in dss[k];
      assert (dss + [ds])[k] == dss[k];
    }
    assert (dss + [ds])[|dss|] == ds;
  }

  method BusRound(lib: CBus, ghost ns: seq<UsbBus>, ghost dss: seq<seq<UsbDevice>>, bus: CBus,
                  busObj: UsbBus?, busObjPrev: UsbBus?)
    returns (cur: UsbBus, busObjNext: UsbBus?, p: Problem, ghost ds: seq<UsbDevice>)
    requires ReadableLibrary(lib) && bus.CBus?
    requires BusesUnderWay(lib, ns, dss, bus, busObj) && busObjPrev == LastBus(ns)
    modifies busObj
    ensures if busObj == null then fresh(cur) else cur == busObj
    ensures busObjNext != null ==> fresh(busObjNext)
    ensures fresh(ds)
    ensures p == Fine ==> BusesUnderWay(lib, ns + [cur], dss + [ds], bus.next, busObjNext)
    ensures p != Fine ==> PartialMirror(lib, ns, dss, cur, busObjNext)
    ensures p != Fine ==> p == StopOf(lib)
  {
    cur, busObjNext := BusObjects(busObj, bus.next.CBus?);
    p, ds := AppendBus(lib, ns, dss, cur, bus, busObjNext, busObjPrev);
  }

  lemma AllCopied(lib: CBus, ns: seq<UsbBus>, dss: seq<seq<UsbDevice>>, bus: CBus, busObj: UsbBus?)
    requires ReadableLibrary(lib) && BusesUnderWay(lib, ns, dss, bus, busObj) && bus.NoBus?
    ensures StopOf(lib) == Fine && WholeMirror(lib, ns, dss)
  {
    hide BusesShow, Distinct;
    ReachedBusNext(lib, |ns|, bus);
  }

  // ----- What the caller gets

  ghost predicate WholeMirror(lib: CBus, ns: seq<UsbBus>, dss: seq<seq<UsbDevice>>)
    reads ns, Pooled(dss)
  {
    && |ns| == |Buses(lib)| && Distinct(ns)
    && BusesLinked(ns, null) && BusesShow(ns, dss, Buses(lib))
  }

  /** The copy stopped in the bus that `last` shows: the buses before it are whole, `last` has no
      devices, and the object allocated ahead for the bus after it is still blank. */
  ghost predicate PartialMirror(lib: CBus, ns: seq<UsbBus>, dss: seq<seq<UsbDevice>>, last: UsbBus, ahead: UsbBus?)
    requires ReadableLibrary(lib)
    reads ns, last, ahead, Pooled(dss)
  {
    var cs := Buses(lib);
    && |ns| == GoodBuses(cs) < |cs| && Distinct(ns + [last])
    && BusesLinked(ns + [last], ahead) && BusesShow(ns, dss, cs)
    && last.dirname == To(cs[|ns|].dirname) && last.location == cs[|ns|].location
    && last.devices == null && last.root_dev == null
    && (ahead != null <==> |ns| + 1 < |cs|)
    && (ahead != null ==> ahead !in ns + [last] && ahead.Blank())
  }

  /** The error slot after a copy. */
  function ErrorOf(p: Problem): Ptr<string> {
    match p
    case NullConfig => To("shared library error: dev->config == NULL")
    case NegativeCount => To("shared library error: Error NewObject (usb_intDescObjArray)")
    case _ => Null
  }

  ghost function StopOf(lib: CBus): Problem
    requires ReadableLibrary(lib)
  {
    var cs := Buses(lib);
    if GoodBuses(cs) == |cs| then Fine else BusProblem(cs[GoodBuses(cs)])
  }

  /** The copy is whole exactly when no counted array is missing, and otherwise stops at the first that is. */
  lemma StopExactly(lib: CBus)
    requires ReadableLibrary(lib)
    ensures StopOf(lib) == Fine <==> WholeLibrary(lib)
    ensures forall k: nat, p: Problem :: p != Fine ==>
      (LibraryStops(lib, k, p) <==> k == GoodBuses(Buses(lib)) && p == StopOf(lib))
  {
    hide WholeLibrary, LibraryStops, GoodBuses, BusProblem;
    LibraryExactly(lib);
  }

  lemma WholeIsCopied(lib: CBus)
    requires ReadableLibrary(lib) && StopOf(lib) == Fine
    ensures WholeLibrary(lib)
  {
    StopExactly(lib);
  }

  lemma NoErrorWhenFine()
    ensures ErrorOf(Fine) == Null
  {
  }

  /** The error slot after a copy, told by the C fields: a text for a missing configuration array and for a
      negative count, and nothing for the other arrays. */
  lemma ErrorTells(lib: CBus, k: nat, p: Problem)
    requires ReadableLibrary(lib) && p != Fine && LibraryStops(lib, k, p)
    ensures ErrorOf(StopOf(lib)) ==
            if p == NullConfig then To("shared library error: dev->config == NULL")
            else if p == NegativeCount then To("shared library error: Error NewObject (usb_intDescObjArray)")
            else Null
  {
    hide StopOf, LibraryStops, Buses;
    StopExactly(lib);
  }

  lemma PartialStopsThere(lib: CBus, ns: seq<UsbBus>, dss: seq<seq<UsbDevice>>, last: UsbBus, ahead: UsbBus?)
    requires ReadableLibrary(lib) && PartialMirror(lib, ns, dss, last, ahead) && StopOf(lib) != Fine
    ensures LibraryStops(lib, |ns|, StopOf(lib)) && !WholeLibrary(lib)
  {
    hide StopOf, WholeLibrary, LibraryStops, BusesLinked, BusesShow;
    StopExactly(lib);
  }

  /** The global state of the bridge; `open` stands for the C library's own usb_open. */
  class LibusbJava {
    var busses: CBus
    var libusbJavaError: Ptr<string>
    const open: CDevice -> int

    constructor (open: CDevice -> int)
      ensures busses == NoBus && libusbJavaError == Null && this.open == open
    {
      this.open := open;
      busses, libusbJavaError := NoBus, Null;
    }

    /** `lib` is the list the C library returns. */
    method UsbGetBusses(lib: CBus)
      returns (main: UsbBus?, ghost ns: seq<UsbBus>, ghost dss: seq<seq<UsbDevice>>, ghost last: UsbBus?,
               ghost ahead: UsbBus?)
      requires ReadableLibrary(lib)
      modifies this
      ensures busses == lib && libusbJavaError == ErrorOf(StopOf(lib))
      ensures StopOf(lib) == Fine <==> WholeLibrary(lib)
      ensures StopOf(lib) != Fine ==> exists k: nat :: LibraryStops(lib, k, StopOf(lib))
      ensures fresh(ns) && fresh(Pooled(dss)) && (last != null ==> fresh(last)) && (ahead != null ==> fresh(ahead))
      ensures StopOf(lib) == Fine ==> main == FirstBus(ns) && WholeMirror(lib, ns, dss)
      ensures StopOf(lib) == NegativeCount ==> main == null
      ensures StopOf(lib) != Fine && StopOf(lib) != NegativeCount ==>
        && last != null && main == FirstBus(ns + [last]) && PartialMirror(lib, ns, dss, last, ahead)
        && LibraryStops(lib, |ns|, StopOf(lib))
    {
      hide BusesUnderWay, PartialMirror, WholeMirror, StopOf, Buses, WholeLibrary, LibraryStops, ErrorOf;
      NoErrorWhenFine();
      NoBusDoneYet(lib);
      libusbJavaError := Null;
      busses := lib;
      var bus := busses;
      main, ns, dss, last, ahead := null, [], [], null, null;
      var busObj: UsbBus?, busObjPrev: UsbBus? := null, null;
      while bus.CBus?
        invariant busses == lib && libusbJavaError == Null
        invariant fresh(ns) && fresh(Pooled(dss)) && (busObj != null ==> fresh(busObj))
        invariant BusesUnderWay(lib, ns, dss, bus, busObj)
        invariant main == FirstBus(ns) && busObjPrev == LastBus(ns)
        decreases bus
      {
        var cur, busObjNext, p;
        ghost var ds;
        cur, busObjNext, p, ds := BusRound(lib, ns, dss, bus, busObj, busObjPrev);
        if main == null {
          main := cur;
        }
        if p != Fine {
          libusbJavaError := ErrorOf(p);
          last, ahead := cur, busObjNext;
          PartialStopsThere(lib, ns, dss, cur, busObjNext);
          if p == NegativeCount {
            main := null;
          }
          return;
        }
        BusEndsOfLonger(ns, cur, dss, ds);
        ns, dss := ns + [cur], dss + [ds];
        busObjPrev, busObj, bus := cur, busObjNext, bus.next;
      }
      AllCopied(lib, ns, dss, bus, busObj);
      WholeIsCopied(lib);
    }

    /** `dev` is a Java device object; the C device whose struct address it carries is opened. */
    method UsbOpen(dev: UsbDevice) returns (handle: int)
      modifies this`libusbJavaError
      ensures busses.NoBus? ==> handle == 0 && libusbJavaError == To("shared library error: busses is null")
      ensures busses.CBus? && FindDevice(busses, dev.devStructAddr).NoDevice? ==>
        handle == 0 &&
        libusbJavaError == To("shared library error: no device with dev.devnum found on busses")
      ensures FindDevice(busses, dev.devStructAddr).CDevice? ==>
        handle == open(FindDevice(busses, dev.devStructAddr)) && libusbJavaError == Null
    {
      libusbJavaError := Null;
      if busses == NoBus {
        libusbJavaError := To("shared library error: busses is null");
        return 0;
      }
      var address := dev.devStructAddr;
      var tmpBus := busses;
      while tmpBus.CBus?
        invariant libusbJavaError == Null && FindDevice(busses, address) == FindDevice(tmpBus, address)
        decreases tmpBus
      {
        var device := tmpBus.devices;
        while device.CDevice?
          invariant FindInDevices(tmpBus.devices, address) == FindInDevices(device, address)
          decreases device
        {
          if device.address == address {
            return open(device);
          }
          device := device.next;
        }
        tmpBus := tmpBus.next;
      }
      libusbJavaError := To("shared library error: no device with dev.devnum found on busses");
      return 0;
    }
  }

  /** Opening a mirrored device opens the C device it was copied from, whether or not the copy of
      the bus list was cut short. */
  lemma OpensItsOrigin(lib: CBus, ns: seq<UsbBus>, dss: seq<seq<UsbDevice>>, i: nat, j: nat)
    requires BusesShow(ns, dss, Buses(lib)) && DistinctAddresses(lib)
    requires i < |dss| && j < |dss[i]|
    ensures Position(lib, i, j)
    ensures FindDevice(lib, dss[i][j].devStructAddr) == DeviceAt(lib, i, j)
  {
    assert ShowsBus(ns[i], dss[i], Buses(lib)[i]);
    assert dss[i][j].Shows(Devices(Buses(lib)[i].devices)[j], ns[i]);
    FindInvertsAddress(lib, i, j);
  }
}
