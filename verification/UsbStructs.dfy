/** The records on both sides of the USB bridge: the structs of usb.h as the C library hands them
    over, and the Java records they are copied into.

    A C struct reached through a `next` pointer is a datatype whose last cell is the null pointer;
    an array reached through a pointer is a `Ptr` to the cells that may be read there.  None of
    them is written by the bridge. */
module UsbStructs {

  type U8 = x: int | 0 <= x < 0x100
  type U16 = x: int | 0 <= x < 0x1_0000
  type U32 = x: int | 0 <= x < 0x1_0000_0000

  /** Java's byte and short are signed. */
  type JByte = x: int | -0x80 <= x < 0x80
  type JShort = x: int | -0x8000 <= x < 0x8000

  datatype Ptr<+T> = Null | To(target: T)

  /** The conversion of SetByteField: the same eight bits, read as a signed number. */
  function ToJByte(x: U8): JByte {
    if x < 0x80 then x else x - 0x100
  }

  function ToJShort(x: U16): JShort {
    if x < 0x8000 then x else x - 0x1_0000
  }

  /** What a Java reader gets back with `b & 0xff`. */
  function Unsigned8(b: JByte): U8 {
    b % 0x100
  }

  function Unsigned16(s: JShort): U16 {
    s % 0x1_0000
  }

  // ----- C side

  datatype CEndpoint = CEndpoint(
    bLength: U8, bDescriptorType: U8, bEndpointAddress: U8, bmAttributes: U8, wMaxPacketSize: U16,
    bInterval: U8, bRefresh: U8, bSynchAddress: U8, extra: Ptr<seq<U8>>, extralen: int)

  datatype CAltsetting = CAltsetting(
    bLength: U8, bDescriptorType: U8, bInterfaceNumber: U8, bAlternateSetting: U8, bNumEndpoints: U8,
    bInterfaceClass: U8, bInterfaceSubClass: U8, bInterfaceProtocol: U8, iInterface: U8,
    endpoint: Ptr<seq<CEndpoint>>, extra: Ptr<seq<U8>>, extralen: int)

  datatype CInterface = CInterface(altsetting: Ptr<seq<CAltsetting>>, num_altsetting: int)

  datatype CConfig = CConfig(
    bLength: U8, bDescriptorType: U8, wTotalLength: U16, bNumInterfaces: U8, bConfigurationValue: U8,
    iConfiguration: U8, bmAttributes: U8, MaxPower: U8,
    interfaces: Ptr<seq<CInterface>>, extra: Ptr<seq<U8>>, extralen: int)

  datatype CDeviceDescriptor = CDeviceDescriptor(
    bLength: U8, bDescriptorType: U8, bcdUSB: U16, bDeviceClass: U8, bDeviceSubClass: U8,
    bDeviceProtocol: U8, bMaxPacketSize0: U8, idVendor: U16, idProduct: U16, bcdDevice: U16,
    iManufacturer: U8, iProduct: U8, iSerialNumber: U8, bNumConfigurations: U8)

  datatype CDevice =
    | NoDevice
    | CDevice(next: CDevice, address: int, filename: string, descriptor: CDeviceDescriptor,
              config: Ptr<seq<CConfig>>, devnum: U8, num_children: U8)

  datatype CBus =
    | NoBus
    | CBus(next: CBus, dirname: string, devices: CDevice, location: U32)

  /** The cells of a device list, in order. */
  function Devices(first: CDevice): (ds: seq<CDevice>)
    ensures forall d <- ds :: d.CDevice?
  {
    match first
    case NoDevice => []
    case CDevice(next, _, _, _, _, _, _) => [first] + Devices(next)
  }

  function Buses(first: CBus): (bs: seq<CBus>)
    ensures forall b <- bs :: b.CBus?
  {
    match first
    case NoBus => []
    case CBus(next, _, _, _) => [first] + Buses(next)
  }

  // ----- What C memory may be read: an array that is present holds at least the counted cells

  predicate ReadableExtra(extra: Ptr<seq<U8>>, extralen: int) {
    extra.To? ==> 0 <= extralen <= |extra.target|
  }

  predicate ReadableEndpoint(e: CEndpoint) {
    ReadableExtra(e.extra, e.extralen)
  }

  predicate ReadableAltsetting(a: CAltsetting) {
    && ReadableExtra(a.extra, a.extralen)
    && (a.endpoint.To? ==>
          && a.bNumEndpoints <= |a.endpoint.target|
          && forall e :: 0 <= e < a.bNumEndpoints ==> ReadableEndpoint(a.endpoint.target[e]))
  }

  predicate ReadableInterface(i: CInterface) {
    i.altsetting.To? ==>
      && i.num_altsetting <= |i.altsetting.target|
      && forall a :: 0 <= a < i.num_altsetting ==> ReadableAltsetting(i.altsetting.target[a])
  }

  predicate ReadableConfig(c: CConfig) {
    && ReadableExtra(c.extra, c.extralen)
    && (c.interfaces.To? ==>
          && c.bNumInterfaces <= |c.interfaces.target|
          && forall i :: 0 <= i < c.bNumInterfaces ==> ReadableInterface(c.interfaces.target[i]))
  }

  predicate ReadableDevice(d: CDevice) {
    d.CDevice? && d.config.To? ==>
      && d.descriptor.bNumConfigurations <= |d.config.target|
      && forall c :: 0 <= c < d.descriptor.bNumConfigurations ==> ReadableConfig(d.config.target[c])
  }

  predicate ReadableBus(b: CBus) {
    b.CBus? ==> forall d <- Devices(b.devices) :: ReadableDevice(d)
  }

  // ----- Java side

  datatype JEndpoint = JEndpoint(
    bLength: JByte, bDescriptorType: JByte, bEndpointAddress: JByte, bmAttributes: JByte,
    wMaxPacketSize: JShort, bInterval: JByte, bRefresh: JByte, bSynchAddress: JByte,
    extra: Ptr<seq<JByte>>, extralen: int)

  datatype JAltsetting = JAltsetting(
    bLength: JByte, bDescriptorType: JByte, bInterfaceNumber: JByte, bAlternateSetting: JByte,
    bNumEndpoints: JByte, bInterfaceClass: JByte, bInterfaceSubClass: JByte, bInterfaceProtocol: JByte,
    iInterface: JByte, endpoint: seq<JEndpoint>, extra: Ptr<seq<JByte>>, extralen: int)

  datatype JInterface = JInterface(altsetting: seq<JAltsetting>, num_altsetting: int)

  datatype JConfig = JConfig(
    bLength: JByte, bDescriptorType: JByte, wTotalLength: JShort, bNumInterfaces: JByte,
    bConfigurationValue: JByte, iConfiguration: JByte, bmAttributes: JByte, MaxPower: JByte,
    interfaces: seq<JInterface>, extra: Ptr<seq<JByte>>, extralen: int)

  datatype JDeviceDescriptor = JDeviceDescriptor(
    bLength: JByte, bDescriptorType: JByte, bcdUSB: JShort, bDeviceClass: JByte, bDeviceSubClass: JByte,
    bDeviceProtocol: JByte, bMaxPacketSize0: JByte, idVendor: JShort, idProduct: JShort,
    bcdDevice: JShort, iManufacturer: JByte, iProduct: JByte, iSerialNumber: JByte,
    bNumConfigurations: JByte)

  // ----- When a Java record shows a C record: same bits, same lengths, same order

  ghost predicate ShowsExtra(j: Ptr<seq<JByte>>, jlen: int, c: Ptr<seq<U8>>, clen: int)
    requires ReadableExtra(c, clen)
  {
    && jlen == clen
    && (j.To? <==> c.To?)
    && (c.To? ==>
          && |j.target| == clen
          && forall k :: 0 <= k < clen ==> Unsigned8(j.target[k]) == c.target[k])
  }

  ghost predicate ShowsEndpoint(j: JEndpoint, c: CEndpoint)
    requires ReadableEndpoint(c)
  {
    && Unsigned8(j.bLength) == c.bLength
    && Unsigned8(j.bDescriptorType) == c.bDescriptorType
    && Unsigned8(j.bEndpointAddress) == c.bEndpointAddress
    && Unsigned8(j.bmAttributes) == c.bmAttributes
    && Unsigned16(j.wMaxPacketSize) == c.wMaxPacketSize
    && Unsigned8(j.bInterval) == c.bInterval
    && Unsigned8(j.bRefresh) == c.bRefresh
    && Unsigned8(j.bSynchAddress) == c.bSynchAddress
    && ShowsExtra(j.extra, j.extralen, c.extra, c.extralen)
  }

  ghost predicate ShowsEndpoints(js: seq<JEndpoint>, count: int, cs: Ptr<seq<CEndpoint>>) {
    && |js| == count
    && (count > 0 ==> cs.To? && count <= |cs.target|)
    && forall e :: 0 <= e < count ==> ReadableEndpoint(cs.target[e]) && ShowsEndpoint(js[e], cs.target[e])
  }

  ghost predicate ShowsAltsetting(j: JAltsetting, c: CAltsetting)
    requires ReadableAltsetting(c)
  {
    && Unsigned8(j.bLength) == c.bLength
    && Unsigned8(j.bDescriptorType) == c.bDescriptorType
    && Unsigned8(j.bInterfaceNumber) == c.bInterfaceNumber
    && Unsigned8(j.bAlternateSetting) == c.bAlternateSetting
    && Unsigned8(j.bNumEndpoints) == c.bNumEndpoints
    && Unsigned8(j.bInterfaceClass) == c.bInterfaceClass
    && Unsigned8(j.bInterfaceSubClass) == c.bInterfaceSubClass
    && Unsigned8(j.bInterfaceProtocol) == c.bInterfaceProtocol
    && Unsigned8(j.iInterface) == c.iInterface
    && ShowsEndpoints(j.endpoint, c.bNumEndpoints, c.endpoint)
    && ShowsExtra(j.extra, j.extralen, c.extra, c.extralen)
  }

  ghost predicate ShowsAltsettings(js: seq<JAltsetting>, count: int, cs: Ptr<seq<CAltsetting>>) {
    && |js| == count
    && (count > 0 ==> cs.To? && count <= |cs.target|)
    && forall a :: 0 <= a < count ==>
         ReadableAltsetting(cs.target[a]) && ShowsAltsetting(js[a], cs.target[a])
  }

  ghost predicate ShowsInterface(j: JInterface, c: CInterface) {
    j.num_altsetting == c.num_altsetting && ShowsAltsettings(j.altsetting, c.num_altsetting, c.altsetting)
  }

  ghost predicate ShowsInterfaces(js: seq<JInterface>, count: int, cs: Ptr<seq<CInterface>>) {
    && |js| == count
    && (count > 0 ==> cs.To? && count <= |cs.target|)
    && forall i :: 0 <= i < count ==> ShowsInterface(js[i], cs.target[i])
  }

  ghost predicate ShowsConfig(j: JConfig, c: CConfig)
    requires ReadableConfig(c)
  {
    && Unsigned8(j.bLength) == c.bLength
    && Unsigned8(j.bDescriptorType) == c.bDescriptorType
    && Unsigned16(j.wTotalLength) == c.wTotalLength
    && Unsigned8(j.bNumInterfaces) == c.bNumInterfaces
    && Unsigned8(j.bConfigurationValue) == c.bConfigurationValue
    && Unsigned8(j.iConfiguration) == c.iConfiguration
    && Unsigned8(j.bmAttributes) == c.bmAttributes
    && Unsigned8(j.MaxPower) == c.MaxPower
    && ShowsInterfaces(j.interfaces, c.bNumInterfaces, c.interfaces)
    && ShowsExtra(j.extra, j.extralen, c.extra, c.extralen)
  }

  ghost predicate ShowsConfigs(js: seq<JConfig>, count: int, cs: Ptr<seq<CConfig>>) {
    && |js| == count
    && (count > 0 ==> cs.To? && count <= |cs.target|)
    && forall c :: 0 <= c < count ==> ReadableConfig(cs.target[c]) && ShowsConfig(js[c], cs.target[c])
  }

  ghost predicate ShowsDescriptor(j: JDeviceDescriptor, c: CDeviceDescriptor) {
    && Unsigned8(j.bLength) == c.bLength
    && Unsigned8(j.bDescriptorType) == c.bDescriptorType
    && Unsigned16(j.bcdUSB) == c.bcdUSB
    && Unsigned8(j.bDeviceClass) == c.bDeviceClass
    && Unsigned8(j.bDeviceSubClass) == c.bDeviceSubClass
    && Unsigned8(j.bDeviceProtocol) == c.bDeviceProtocol
    && Unsigned8(j.bMaxPacketSize0) == c.bMaxPacketSize0
    && Unsigned16(j.idVendor) == c.idVendor
    && Unsigned16(j.idProduct) == c.idProduct
    && Unsigned16(j.bcdDevice) == c.bcdDevice
    && Unsigned8(j.iManufacturer) == c.iManufacturer
    && Unsigned8(j.iProduct) == c.iProduct
    && Unsigned8(j.iSerialNumber) == c.iSerialNumber
    && Unsigned8(j.bNumConfigurations) == c.bNumConfigurations
  }

  // ----- What stops the copy

  datatype Problem = Fine | NullConfig | NullInterface | NullAltsetting | NullEndpoint | NegativeCount

  /** The first problem in a list of findings. */
  function First(ps: seq<Problem>): Problem {
    if ps == [] then Fine else if ps[0] != Fine then ps[0] else First(ps[1..])
  }

  function EndpointProblem(a: CAltsetting): Problem {
    if a.bNumEndpoints > 0 && a.endpoint.Null? then NullEndpoint else Fine
  }

  function EndpointFindings(i: CInterface): seq<Problem>
    requires ReadableInterface(i)
  {
    if i.num_altsetting <= 0 || i.altsetting.Null? then []
    else seq(i.num_altsetting, a requires 0 <= a < i.num_altsetting => EndpointProblem(i.altsetting.target[a]))
  }

  function AltsettingProblem(i: CInterface): Problem
    requires ReadableInterface(i)
  {
    if i.num_altsetting < 0 then NegativeCount
    else if i.num_altsetting > 0 && i.altsetting.Null? then NullAltsetting
    else First(EndpointFindings(i))
  }

  function AltsettingFindings(c: CConfig): seq<Problem>
    requires ReadableConfig(c)
  {
    if c.bNumInterfaces == 0 || c.interfaces.Null? then []
    else seq(c.bNumInterfaces, i requires 0 <= i < c.bNumInterfaces => AltsettingProblem(c.interfaces.target[i]))
  }

  function InterfaceProblem(c: CConfig): Problem
    requires ReadableConfig(c)
  {
    if c.bNumInterfaces > 0 && c.interfaces.Null? then NullInterface else First(AltsettingFindings(c))
  }

  function InterfaceFindings(d: CDevice): seq<Problem>
    requires d.CDevice? && ReadableDevice(d)
  {
    var n := d.descriptor.bNumConfigurations;
    if n == 0 || d.config.Null? then []
    else seq(n, c requires 0 <= c < n => InterfaceProblem(d.config.target[c]))
  }

  function DeviceProblem(d: CDevice): Problem
    requires d.CDevice? && ReadableDevice(d)
  {
    if d.descriptor.bNumConfigurations > 0 && d.config.Null? then NullConfig else First(InterfaceFindings(d))
  }

  function DeviceFindings(b: CBus): seq<Problem>
    requires b.CBus? && ReadableBus(b)
  {
    var ds := Devices(b.devices);
    seq(|ds|, k requires 0 <= k < |ds| => DeviceProblem(ds[k]))
  }

  function BusProblem(b: CBus): Problem
    requires b.CBus? && ReadableBus(b)
  {
    First(DeviceFindings(b))
  }

  predicate ReadableLibrary(lib: CBus) {
    forall b <- Buses(lib) :: ReadableBus(b)
  }

  /** How many buses at the head of the list can be copied whole. */
  function GoodBuses(bs: seq<CBus>): (k: nat)
    requires forall b <- bs :: b.CBus? && ReadableBus(b)
    ensures k <= |bs|
    ensures k < |bs| ==> BusProblem(bs[k]) != Fine
  {
    if bs == [] || BusProblem(bs[0]) != Fine then 0 else 1 + GoodBuses(bs[1..])
  }

  lemma {:induction false} GoodBusesAreFine(bs: seq<CBus>, i: nat)
    requires forall b <- bs :: b.CBus? && ReadableBus(b)
    requires i < GoodBuses(bs)
    ensures BusProblem(bs[i]) == Fine
  {
    if i == 0 {
    } else {
      GoodBusesAreFine(bs[1..], i - 1);
    }
  }

  /** `First` is the entry after a stretch of `Fine`; it is `Fine` exactly when all entries are. */
  lemma {:induction false} FirstAt(ps: seq<Problem>, k: nat)
    requires k <= |ps|
    requires forall i :: 0 <= i < k ==> ps[i] == Fine
    ensures k < |ps| && ps[k] != Fine ==> First(ps) == ps[k]
    ensures k == |ps| ==> First(ps) == Fine
  {
    if k == 0 {
    } else {
      FirstAt(ps[1..], k - 1);
    }
  }

  /** The two's-complement reading loses nothing. */
  lemma SignedBitsRoundTrip(x: U8, y: U16)
    ensures Unsigned8(ToJByte(x)) == x && Unsigned16(ToJShort(y)) == y
    ensures (ToJByte(x) - x) % 0x100 == 0 && (ToJShort(y) - y) % 0x1_0000 == 0
  {
  }

  // ----- Looking a device up by the address of its struct

  /** The first device of a list at that address. */
  function FindInDevices(d: CDevice, address: int): (r: CDevice)
    ensures r.CDevice? ==> r.address == address
  {
    match d
    case NoDevice => NoDevice
    case CDevice(next, a, _, _, _, _, _) => if a == address then d else FindInDevices(next, address)
  }

  function FindDevice(b: CBus, address: int): (r: CDevice)
    ensures r.CDevice? ==> r.address == address
  {
    match b
    case NoBus => NoDevice
    case CBus(next, _, devices, _) =>
      var r := FindInDevices(devices, address);
      if r.CDevice? then r else FindDevice(next, address)
  }

  ghost predicate Position(lib: CBus, i: nat, j: nat) {
    i < |Buses(lib)| && j < |Devices(Buses(lib)[i].devices)|
  }

  /** The C device at a position of the bus list. */
  ghost function DeviceAt(lib: CBus, i: nat, j: nat): (d: CDevice)
    requires Position(lib, i, j)
    ensures d.CDevice?
  {
    Devices(Buses(lib)[i].devices)[j]
  }

  /** The order of the search. */
  predicate Before(k: nat, l: nat, i: nat, j: nat) {
    k < i || (k == i && l < j)
  }

  /** No two positions hold structs at the same address. */
  ghost predicate DistinctAddresses(lib: CBus) {
    forall i, j, k, l :: Position(lib, i, j) && Position(lib, k, l) ==>
      DeviceAt(lib, i, j).address == DeviceAt(lib, k, l).address ==> i == k && j == l
  }

  lemma {:induction false} FindInDevicesFinds(d: CDevice, address: int) returns (j: nat)
    ensures FindInDevices(d, address).NoDevice? ==> forall x <- Devices(d) :: x.address != address
    ensures FindInDevices(d, address).CDevice? ==>
      && j < |Devices(d)| && FindInDevices(d, address) == Devices(d)[j]
      && forall k :: 0 <= k < j ==> Devices(d)[k].address != address
  {
    j := 0;
    if d.NoDevice? || d.address == address {
    } else {
      j := FindInDevicesFinds(d.next, address);
      j := j + 1;
    }
  }

  /** The search finds the first device in the order of the buses and their devices, and misses only
      addresses at no position. */
  lemma {:induction false} FindDeviceFinds(lib: CBus, address: int) returns (i: nat, j: nat)
    ensures FindDevice(lib, address).NoDevice? ==>
      forall k, l :: Position(lib, k, l) ==> DeviceAt(lib, k, l).address != address
    ensures FindDevice(lib, address).CDevice? ==>
      && Position(lib, i, j) && FindDevice(lib, address) == DeviceAt(lib, i, j)
      && forall k: nat, l: nat :: Position(lib, k, l) && Before(k, l, i, j) ==> DeviceAt(lib, k, l).address != address
  {
    i, j := 0, 0;
    if lib.NoBus? {
    } else {
      j := FindInDevicesFinds(lib.devices, address);
      if FindInDevices(lib.devices, address).NoDevice? {
        i, j := FindDeviceFinds(lib.next, address);
        forall k: nat, l: nat | Position(lib, k, l) && (FindDevice(lib, address).NoDevice? || Before(k, l, i + 1, j))
          ensures DeviceAt(lib, k, l).address != address
        {
          if k > 0 {
            assert Position(lib.next, k - 1, l) && DeviceAt(lib, k, l) == DeviceAt(lib.next, k - 1, l);
          } else {
            assert DeviceAt(lib, k, l) in Devices(lib.devices);
          }
        }
        i := i + 1;
      }
    }
  }

  /** With distinct struct addresses the search inverts taking the address. */
  lemma FindInvertsAddress(lib: CBus, i: nat, j: nat)
    requires DistinctAddresses(lib) && Position(lib, i, j)
    ensures FindDevice(lib, DeviceAt(lib, i, j).address) == DeviceAt(lib, i, j)
  {
    var k, l := FindDeviceFinds(lib, DeviceAt(lib, i, j).address);
  }
}
