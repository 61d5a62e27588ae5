/** When the copy of the bus list is whole, and where it stops, told by the fields of the C structs: every
    counted array has to be there, and the first that is not decides. */
module UsbWhole {
  import opened UsbStructs

  // ----- Nothing is missing

  predicate WholeAltsetting(a: CAltsetting) {
    a.bNumEndpoints > 0 ==> a.endpoint.To?
  }

  predicate WholeInterface(i: CInterface)
    requires ReadableInterface(i)
  {
    && i.num_altsetting >= 0
    && (i.num_altsetting > 0 ==>
          && i.altsetting.To?
          && forall a :: 0 <= a < i.num_altsetting ==> WholeAltsetting(i.altsetting.target[a]))
  }

  predicate WholeConfig(c: CConfig)
    requires ReadableConfig(c)
  {
    c.bNumInterfaces > 0 ==>
      && c.interfaces.To?
      && forall i :: 0 <= i < c.bNumInterfaces ==> WholeInterface(c.interfaces.target[i])
  }

  predicate WholeDevice(d: CDevice)
    requires d.CDevice? && ReadableDevice(d)
  {
    d.descriptor.bNumConfigurations > 0 ==>
      && d.config.To?
      && forall c :: 0 <= c < d.descriptor.bNumConfigurations ==> WholeConfig(d.config.target[c])
  }

  predicate WholeBus(b: CBus)
    requires b.CBus? && ReadableBus(b)
  {
    forall d <- Devices(b.devices) :: WholeDevice(d)
  }

  predicate WholeLibrary(lib: CBus)
    requires ReadableLibrary(lib)
  {
    forall b <- Buses(lib) :: WholeBus(b)
  }

  // ----- What is missing first, in the order of the loops

  ghost predicate AltsettingStops(a: CAltsetting, p: Problem) {
    p == NullEndpoint && a.bNumEndpoints > 0 && a.endpoint.Null?
  }

  ghost predicate InterfaceStops(i: CInterface, p: Problem)
    requires ReadableInterface(i)
  {
    || (p == NegativeCount && i.num_altsetting < 0)
    || (p == NullAltsetting && i.num_altsetting > 0 && i.altsetting.Null?)
    || (i.altsetting.To? &&
        exists a :: 0 <= a < i.num_altsetting && AltsettingStops(i.altsetting.target[a], p) &&
                    forall b :: 0 <= b < a ==> WholeAltsetting(i.altsetting.target[b]))
  }

  ghost predicate ConfigStops(c: CConfig, p: Problem)
    requires ReadableConfig(c)
  {
    || (p == NullInterface && c.bNumInterfaces > 0 && c.interfaces.Null?)
    || (c.interfaces.To? &&
        exists i :: 0 <= i < c.bNumInterfaces && InterfaceStops(c.interfaces.target[i], p) &&
                    forall j :: 0 <= j < i ==> WholeInterface(c.interfaces.target[j]))
  }

  ghost predicate DeviceStops(d: CDevice, p: Problem)
    requires d.CDevice? && ReadableDevice(d)
  {
    var n := d.descriptor.bNumConfigurations;
    || (p == NullConfig && n > 0 && d.config.Null?)
    || (d.config.To? &&
        exists c :: 0 <= c < n && ConfigStops(d.config.target[c], p) &&
                    forall k :: 0 <= k < c ==> WholeConfig(d.config.target[k]))
  }

  ghost predicate BusStops(b: CBus, p: Problem)
    requires b.CBus? && ReadableBus(b)
  {
    var ds := Devices(b.devices);
    exists k :: 0 <= k < |ds| && DeviceStops(ds[k], p) && forall m :: 0 <= m < k ==> WholeDevice(ds[m])
  }

  /** The first bus that is not whole is the `k`-th, and what it lacks first is `p`. */
  ghost predicate LibraryStops(lib: CBus, k: nat, p: Problem)
    requires ReadableLibrary(lib)
  {
    && k < |Buses(lib)| && BusStops(Buses(lib)[k], p)
    && forall m :: 0 <= m < k ==> WholeBus(Buses(lib)[m])
  }

  // ----- That is what the traversal finds

  lemma {:induction false} FirstPlace(ps: seq<Problem>) returns (k: nat)
    ensures k <= |ps| && (k < |ps| ==> ps[k] != Fine)
    ensures forall m :: 0 <= m < k ==> ps[m] == Fine
  {
    if ps == [] || ps[0] != Fine {
      k := 0;
    } else {
      k := FirstPlace(ps[1..]);
      k := k + 1;
    }
  }

  /** The first finding, by its place. */
  lemma FirstExactly(ps: seq<Problem>, p: Problem)
    ensures First(ps) == Fine <==> forall k :: 0 <= k < |ps| ==> ps[k] == Fine
    ensures p != Fine ==>
      (First(ps) == p <==> exists k :: 0 <= k < |ps| && ps[k] == p && forall m :: 0 <= m < k ==> ps[m] == Fine)
  {
    hide First;
    var k := FirstPlace(ps);
    FirstAt(ps, k);
  }

  lemma AltsettingExactly(a: CAltsetting, p: Problem)
    ensures EndpointProblem(a) == Fine <==> WholeAltsetting(a)
    ensures p != Fine ==> (EndpointProblem(a) == p <==> AltsettingStops(a, p))
  {
  }

  lemma InterfaceExactly(i: CInterface, p: Problem)
    requires ReadableInterface(i)
    ensures AltsettingProblem(i) == Fine <==> WholeInterface(i)
    ensures p != Fine ==> (AltsettingProblem(i) == p <==> InterfaceStops(i, p))
  {
    hide First, EndpointProblem, WholeAltsetting, AltsettingStops;
    var ps := EndpointFindings(i);
    FirstExactly(ps, p);
    forall k | 0 <= k < |ps|
      ensures ps[k] == Fine <==> WholeAltsetting(i.altsetting.target[k])
      ensures p != Fine ==> (ps[k] == p <==> AltsettingStops(i.altsetting.target[k], p))
    {
      AltsettingExactly(i.altsetting.target[k], p);
    }
  }

  lemma ConfigExactly(c: CConfig, p: Problem)
    requires ReadableConfig(c)
    ensures InterfaceProblem(c) == Fine <==> WholeConfig(c)
    ensures p != Fine ==> (InterfaceProblem(c) == p <==> ConfigStops(c, p))
  {
    hide First, AltsettingProblem, WholeInterface, InterfaceStops;
    var ps := AltsettingFindings(c);
    FirstExactly(ps, p);
    forall k | 0 <= k < |ps|
      ensures ps[k] == Fine <==> WholeInterface(c.interfaces.target[k])
      ensures p != Fine ==> (ps[k] == p <==> InterfaceStops(c.interfaces.target[k], p))
    {
      InterfaceExactly(c.interfaces.target[k], p);
    }
  }

  lemma DeviceExactly(d: CDevice, p: Problem)
    requires d.CDevice? && ReadableDevice(d)
    ensures DeviceProblem(d) == Fine <==> WholeDevice(d)
    ensures p != Fine ==> (DeviceProblem(d) == p <==> DeviceStops(d, p))
  {
    hide First, InterfaceProblem, WholeConfig, ConfigStops;
    var ps := InterfaceFindings(d);
    FirstExactly(ps, p);
    forall k | 0 <= k < |ps|
      ensures ps[k] == Fine <==> WholeConfig(d.config.target[k])
      ensures p != Fine ==> (ps[k] == p <==> ConfigStops(d.config.target[k], p))
    {
      ConfigExactly(d.config.target[k], p);
    }
  }

  lemma BusExactly(b: CBus, p: Problem)
    requires b.CBus? && ReadableBus(b)
    ensures BusProblem(b) == Fine <==> WholeBus(b)
    ensures p != Fine ==> (BusProblem(b) == p <==> BusStops(b, p))
  {
    hide First, DeviceProblem, WholeDevice, DeviceStops;
    var ps := DeviceFindings(b);
    FirstExactly(ps, p);
    forall k | 0 <= k < |ps|
      ensures ps[k] == Fine <==> WholeDevice(Devices(b.devices)[k])
      ensures p != Fine ==> (ps[k] == p <==> DeviceStops(Devices(b.devices)[k], p))
    {
      DeviceExactly(Devices(b.devices)[k], p);
    }
  }

  /** The buses that can be copied are those before the first that is not whole, and that one lacks first
      what stops the copy. */
  lemma LibraryExactly(lib: CBus)
    requires ReadableLibrary(lib)
    ensures var cs, k := Buses(lib), GoodBuses(Buses(lib));
      && (k == |cs| <==> WholeLibrary(lib))
      && forall m: nat, p: Problem :: p != Fine ==>
           (LibraryStops(lib, m, p) <==> m == k < |cs| && p == BusProblem(cs[k]))
  {
    hide BusProblem, WholeBus, BusStops;
    var cs, k := Buses(lib), GoodBuses(Buses(lib));
    forall m | 0 <= m < k ensures WholeBus(cs[m]) {
      GoodBusesAreFine(cs, m);
      BusExactly(cs[m], Fine);
    }
    if k < |cs| {
      BusExactly(cs[k], BusProblem(cs[k]));
    }
    forall m: nat, p: Problem | p != Fine && LibraryStops(lib, m, p) ensures m == k < |cs| && p == BusProblem(cs[k]) {
      BusExactly(cs[m], p);
    }
  }
}
