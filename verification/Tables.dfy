/**
 What a flush window keeps (`window.rs`): devices, services and names waiting for an address, each capped, with a
 count of whatever the caps refuse.

 `After` is the tables after one saying. They are proved to hold nothing that was not said; to have refused nothing
 exactly when what was said leaves `Room` and the names waiting always fit; and then to hold everything that was said.
 */
module Tables {
  import opened Prelude
  import opened Frames

  const MAX_DEVICES: nat := 512
  const MAX_IPS_PER_DEVICE: nat := 8
  const MAX_SERVICES_PER_DEVICE: nat := 64
  const MAX_PENDING_NAMES: nat := 512

  datatype Device = Device(ips: seq<IpAddr>, hostname: Option<string>, services: nat)

  datatype Announced = Announced(ips: seq<IpAddr>, kind: Kind, detail: Detail)

  type Devices = map<Mac, Device>
  type Services = map<(Mac, string), Announced>

  /** `refused` is the true count of what was refused, which the source keeps in 32 bits. */
  datatype Tables = Tables(devices: Devices, services: Services, pending: map<Mac, string>, refused: nat)

  const EMPTY: Tables := Tables(map[], map[], map[], 0)

  const NEW_DEVICE: Device := Device([], None, 0)

  // ------------------------------------------------------------------------------------- one saying

  /** The slot for `mac`, opened if it is new; none for a MAC that cannot name a device or beyond the cap. */
  ghost function Opened(t: Tables, mac: Mac): (r: (Tables, bool))
    ensures r.1 ==> mac in r.0.devices
  {
    if !IsUnicast(mac) then (t, false)
    else if mac in t.devices then (t, true)
    else if |t.devices| >= MAX_DEVICES then (t.(refused := t.refused + 1), false)
    else (t.(devices := t.devices[mac := NEW_DEVICE]), true)
  }

  /** One more address at the end of a list, or refused when the list is full. */
  ghost function WithAddress(t: Tables, mac: Mac, ip: IpAddr): Tables
    requires mac in t.devices
  {
    var dev := t.devices[mac];
    if ip in dev.ips then t
    else if |dev.ips| >= MAX_IPS_PER_DEVICE then t.(refused := t.refused + 1)
    else t.(devices := t.devices[mac := dev.(ips := dev.ips + [ip])])
  }

  ghost function WithName(t: Tables, mac: Mac, name: string): Tables
    requires mac in t.devices
  {
    if t.devices[mac].hostname.Some? then t
    else t.(devices := t.devices[mac := t.devices[mac].(hostname := Some(name))])
  }

  /** The slot for a service, opened and counted on its device if it is new; none beyond the cap. */
  ghost function ServiceOpened(t: Tables, k: (Mac, string), kind: Kind, detail: Detail): (r: (Tables, bool))
    requires k.0 in t.devices
    ensures r.1 ==> k in r.0.services
  {
    var dev := t.devices[k.0];
    if k in t.services then (t, true)
    else if dev.services >= MAX_SERVICES_PER_DEVICE then (t.(refused := t.refused + 1), false)
    else
      (t.(devices := t.devices[k.0 := dev.(services := dev.services + 1)],
          services := t.services[k := Announced([], kind, detail)]), true)
  }

  ghost function WithSource(t: Tables, k: (Mac, string), ip: IpAddr): Tables
    requires k in t.services
  {
    var a := t.services[k];
    if ip in a.ips then t
    else if |a.ips| >= MAX_IPS_PER_DEVICE then t.(refused := t.refused + 1)
    else t.(services := t.services[k := a.(ips := a.ips + [ip])])
  }

  ghost function AfterSight(t: Tables, mac: Mac, ip: IpAddr): Tables {
    var (u, ok) := Opened(t, mac);
    if ok then WithAddress(u, mac, ip) else u
  }

  ghost function AfterName(t: Tables, mac: Mac, name: string): Tables {
    var (u, ok) := Opened(t, mac);
    if ok then WithName(u, mac, name) else u
  }

  ghost function AfterService(t: Tables, k: (Mac, string), from: Option<IpAddr>, kind: Kind, detail: Detail): Tables
    requires k.0 in t.devices
  {
    var (v, listed) := ServiceOpened(t, k, kind, detail);
    if listed && from.Some? then WithSource(v, k, from.value) else v
  }

  ghost function AfterOffer(t: Tables, mac: Mac, from: Option<IpAddr>, service: string, kind: Kind, detail: Detail): Tables {
    var (u, ok) := Opened(t, mac);
    if ok then AfterService(u, (mac, service), from, kind, detail) else u
  }

  /** A name held for a client without an address: its first, and no more clients than the cap. */
  ghost function AfterWait(t: Tables, client: Mac, name: string): Tables {
    if !IsUnicast(client) || client in t.pending then t
    else if |t.pending| >= MAX_PENDING_NAMES then t.(refused := t.refused + 1)
    else t.(pending := t.pending[client := name])
  }

  /** A held name given out. */
  ghost function AfterTake(t: Tables, client: Mac): Tables {
    if client in t.pending then AfterName(t.(pending := t.pending - {client}), client, t.pending[client]) else t
  }

  ghost function After(t: Tables, s: Saying): Tables {
    match s
    case Sighted(mac, ip) => AfterSight(t, mac, ip)
    case Named(mac, name) => AfterName(t, mac, name)
    case Offers(mac, from, service, kind, detail) => AfterOffer(t, mac, from, service, kind, detail)
    case Waits(mac, name) => AfterWait(t, mac, name)
    case Granted(mac, ip) => AfterTake(AfterSight(t, mac, ip), mac)
  }

  ghost function AfterAll(t: Tables, says: seq<Saying>): Tables {
    if says == [] then t else After(AfterAll(t, says[..|says| - 1]), says[|says| - 1])
  }

  // ------------------------------------------------------------------------------------- what the tables hold

  ghost function ServicesBy(services: Services, mac: Mac): set<(Mac, string)> {
    set k | k in services && k.0 == mac
  }

  ghost predicate ShortList(ips: seq<IpAddr>) {
    |ips| <= MAX_IPS_PER_DEVICE && Distinct(ips)
  }

  /** A device within the caps, counting exactly the services it is listed with. */
  ghost predicate DeviceBounded(services: Services, mac: Mac, dev: Device) {
    IsUnicast(mac) && ShortList(dev.ips) && dev.services == |ServicesBy(services, mac)| <= MAX_SERVICES_PER_DEVICE
  }

  ghost predicate DevicesBounded(devices: Devices, services: Services) {
    |devices| <= MAX_DEVICES && forall mac :: mac in devices ==> DeviceBounded(services, mac, devices[mac])
  }

  ghost predicate ServicesBounded(devices: Devices, services: Services) {
    forall k :: k in services ==> k.0 in devices && ShortList(services[k].ips)
  }

  ghost predicate Bounded(t: Tables) {
    && DevicesBounded(t.devices, t.services) && ServicesBounded(t.devices, t.services)
    && |t.pending| <= MAX_PENDING_NAMES
  }

  ghost predicate SaidAddress(said: set<Saying>, mac: Mac, ip: IpAddr) {
    Sighted(mac, ip) in said || Granted(mac, ip) in said
  }

  ghost predicate SaidName(said: set<Saying>, mac: Mac, name: string) {
    Named(mac, name) in said || Waits(mac, name) in said
  }

  ghost predicate SaidOffer(said: set<Saying>, k: (Mac, string), kind: Kind, detail: Detail) {
    exists from :: Offers(k.0, from, k.1, kind, detail) in said
  }

  ghost predicate SaidFrom(said: set<Saying>, k: (Mac, string), ip: IpAddr) {
    exists kind, detail :: Offers(k.0, Some(ip), k.1, kind, detail) in said
  }

  /** Something was said of the device that gives it a slot. */
  ghost predicate Spoken(said: set<Saying>, mac: Mac) {
    exists s :: s in said && Speaks(s, mac)
  }

  predicate Speaks(s: Saying, mac: Mac) {
    s.mac == mac && !s.Waits?
  }

  ghost predicate DeviceSaid(said: set<Saying>, mac: Mac, dev: Device) {
    && Spoken(said, mac)
    && (forall ip :: ip in dev.ips ==> SaidAddress(said, mac, ip))
    && (dev.hostname.Some? ==> SaidName(said, mac, dev.hostname.value))
  }

  ghost predicate ServiceSaid(said: set<Saying>, k: (Mac, string), a: Announced) {
    SaidOffer(said, k, a.kind, a.detail) && forall ip :: ip in a.ips ==> SaidFrom(said, k, ip)
  }

  ghost predicate DevicesSaid(said: set<Saying>, devices: Devices) {
    forall mac :: mac in devices ==> DeviceSaid(said, mac, devices[mac])
  }

  ghost predicate ServicesSaid(said: set<Saying>, services: Services) {
    forall k :: k in services ==> ServiceSaid(said, k, services[k])
  }

  ghost predicate PendingSaid(said: set<Saying>, pending: map<Mac, string>) {
    forall mac :: mac in pending ==> IsUnicast(mac) && Waits(mac, pending[mac]) in said
  }

  /** Nothing is listed that was not said. */
  ghost predicate Sound(t: Tables, said: set<Saying>) {
    DevicesSaid(said, t.devices) && ServicesSaid(said, t.services) && PendingSaid(said, t.pending)
  }

  ghost predicate Good(t: Tables, said: set<Saying>) {
    Bounded(t) && Sound(t, said)
  }

  /** What a saying about a device that can be named leaves in the tables. */
  ghost predicate Recorded(s: Saying, t: Tables) {
    IsUnicast(s.mac) ==>
      match s
      case Sighted(mac, ip) => mac in t.devices && ip in t.devices[mac].ips
      case Granted(mac, ip) => mac in t.devices && ip in t.devices[mac].ips
      case Named(mac, name) => mac in t.devices && t.devices[mac].hostname.Some?
      case Offers(mac, from, service, kind, detail) =>
        (mac, service) in t.services && (from.Some? ==> from.value in t.services[(mac, service)].ips)
      case Waits(_, _) => true
  }

  ghost predicate AllRecorded(t: Tables, said: set<Saying>) {
    forall s :: s in said ==> Recorded(s, t)
  }

  /** Within the caps, sound, and complete unless something was refused. */
  ghost predicate Fits(t: Tables, said: set<Saying>) {
    Good(t, said) && (t.refused == 0 ==> AllRecorded(t, said))
  }

  // ------------------------------------------------------------------------------------- nothing is erased

  /** Addresses are only appended, and a name stays once it is there. */
  predicate DeviceKept(d: Device, e: Device) {
    d.ips <= e.ips && (d.hostname.Some? ==> e.hostname == d.hostname)
  }

  ghost predicate DevicesKept(before: Devices, after: Devices) {
    forall mac :: mac in before ==> mac in after && DeviceKept(before[mac], after[mac])
  }

  predicate ServiceKept(a: Announced, b: Announced) {
    a.ips <= b.ips && b.kind == a.kind && b.detail == a.detail
  }

  ghost predicate ServicesKept(before: Services, after: Services) {
    forall k :: k in before ==> k in after && ServiceKept(before[k], after[k])
  }

  /** `u` keeps all that `t` records, and has refused no less. */
  ghost predicate Keeps(t: Tables, u: Tables) {
    t.refused <= u.refused && DevicesKept(t.devices, u.devices) && ServicesKept(t.services, u.services)
  }

  lemma {:induction false} DevicesStillKept(a: Devices, b: Devices, c: Devices)
    requires DevicesKept(a, b) && DevicesKept(b, c)
    ensures DevicesKept(a, c)
  {
    forall mac | mac in a ensures mac in c && DeviceKept(a[mac], c[mac]) {
      assert DeviceKept(a[mac], b[mac]) && DeviceKept(b[mac], c[mac]);
    }
  }

  lemma {:induction false} ServicesStillKept(a: Services, b: Services, c: Services)
    requires ServicesKept(a, b) && ServicesKept(b, c)
    ensures ServicesKept(a, c)
  {
    forall k | k in a ensures k in c && ServiceKept(a[k], c[k]) {
      assert ServiceKept(a[k], b[k]) && ServiceKept(b[k], c[k]);
    }
  }

  lemma {:induction false} StillKept(t: Tables, u: Tables, v: Tables)
    requires Keeps(t, u) && Keeps(u, v)
    ensures Keeps(t, v)
  {
    DevicesStillKept(t.devices, u.devices, v.devices);
    ServicesStillKept(t.services, u.services, v.services);
  }

  lemma {:induction false} OneDeviceKept(devices: Devices, mac: Mac, dev: Device)
    requires mac in devices ==> DeviceKept(devices[mac], dev)
    ensures DevicesKept(devices, devices[mac := dev])
  {
  }

  lemma {:induction false} OneServiceKept(services: Services, k: (Mac, string), a: Announced)
    requires k in services ==> ServiceKept(services[k], a)
    ensures ServicesKept(services, services[k := a])
  {
  }

  lemma {:induction false} OpenedKeeps(t: Tables, mac: Mac)
    ensures Keeps(t, Opened(t, mac).0)
  {
    OneDeviceKept(t.devices, mac, if mac in t.devices then t.devices[mac] else NEW_DEVICE);
  }

  lemma {:induction false} WithAddressKeeps(t: Tables, mac: Mac, ip: IpAddr)
    requires mac in t.devices
    ensures Keeps(t, WithAddress(t, mac, ip))
  {
    OneDeviceKept(t.devices, mac, t.devices[mac].(ips := t.devices[mac].ips + [ip]));
  }

  lemma {:induction false} WithNameKeeps(t: Tables, mac: Mac, name: string)
    requires mac in t.devices
    ensures Keeps(t, WithName(t, mac, name))
  {
    if t.devices[mac].hostname.None? {
      OneDeviceKept(t.devices, mac, t.devices[mac].(hostname := Some(name)));
    }
  }

  lemma {:induction false} ServiceOpenedKeeps(t: Tables, k: (Mac, string), kind: Kind, detail: Detail)
    requires k.0 in t.devices
    ensures Keeps(t, ServiceOpened(t, k, kind, detail).0)
  {
    OneDeviceKept(t.devices, k.0, t.devices[k.0].(services := t.devices[k.0].services + 1));
    if k !in t.services {
      OneServiceKept(t.services, k, Announced([], kind, detail));
    }
  }

  lemma {:induction false} WithSourceKeeps(t: Tables, k: (Mac, string), ip: IpAddr)
    requires k in t.services
    ensures Keeps(t, WithSource(t, k, ip))
  {
    OneServiceKept(t.services, k, t.services[k].(ips := t.services[k].ips + [ip]));
  }

  lemma {:induction false} NameKeeps(t: Tables, mac: Mac, name: string)
    ensures Keeps(t, AfterName(t, mac, name))
  {
    OpenedKeeps(t, mac);
    var (u, ok) := Opened(t, mac);
    if ok {
      WithNameKeeps(u, mac, name);
      StillKept(t, u, WithName(u, mac, name));
    }
  }

  lemma {:induction false} SightKeeps(t: Tables, mac: Mac, ip: IpAddr)
    ensures Keeps(t, AfterSight(t, mac, ip))
  {
    OpenedKeeps(t, mac);
    var (u, ok) := Opened(t, mac);
    if ok {
      WithAddressKeeps(u, mac, ip);
      StillKept(t, u, WithAddress(u, mac, ip));
    }
  }

  lemma {:induction false} TakeKeeps(t: Tables, client: Mac)
    ensures Keeps(t, AfterTake(t, client))
  {
    if client in t.pending {
      NameKeeps(t.(pending := t.pending - {client}), client, t.pending[client]);
    }
  }

  lemma {:induction false} ServiceKeeps(t: Tables, k: (Mac, string), from: Option<IpAddr>, kind: Kind, detail: Detail)
    requires k.0 in t.devices
    ensures Keeps(t, AfterService(t, k, from, kind, detail))
  {
    ServiceOpenedKeeps(t, k, kind, detail);
    var (v, listed) := ServiceOpened(t, k, kind, detail);
    if listed && from.Some? {
      WithSourceKeeps(v, k, from.value);
      StillKept(t, v, WithSource(v, k, from.value));
    }
  }

  lemma {:induction false} OfferKeeps(t: Tables, mac: Mac, from: Option<IpAddr>, service: string, kind: Kind, detail: Detail)
    ensures Keeps(t, AfterOffer(t, mac, from, service, kind, detail))
  {
    OpenedKeeps(t, mac);
    var (u, ok) := Opened(t, mac);
    if ok {
      ServiceKeeps(u, (mac, service), from, kind, detail);
      StillKept(t, u, AfterService(u, (mac, service), from, kind, detail));
    }
  }

  /** No saying erases or reorders what was learned, nor takes back a refusal. */
  lemma {:induction false} AfterKeeps(t: Tables, s: Saying)
    ensures Keeps(t, After(t, s))
  {
    match s
    case Sighted(mac, ip) => SightKeeps(t, mac, ip);
    case Named(mac, name) => NameKeeps(t, mac, name);
    case Offers(mac, from, service, kind, detail) => OfferKeeps(t, mac, from, service, kind, detail);
    case Waits(mac, name) =>
    case Granted(mac, ip) =>
      SightKeeps(t, mac, ip);
      TakeKeeps(AfterSight(t, mac, ip), mac);
      StillKept(t, AfterSight(t, mac, ip), After(t, s));
  }

  lemma {:induction false} KeptRecorded(t: Tables, u: Tables, said: set<Saying>)
    requires Keeps(t, u) && AllRecorded(t, said)
    ensures AllRecorded(u, said)
  {
    forall s | s in said ensures Recorded(s, u) {
      OneKeptRecorded(t, u, s);
    }
  }

  lemma {:induction false} OneKeptRecorded(t: Tables, u: Tables, s: Saying)
    requires Keeps(t, u) && Recorded(s, t)
    ensures Recorded(s, u)
  {
    if s.Offers? {
      var k := (s.mac, s.service);
      assert k in t.services ==> ServiceKept(t.services[k], u.services[k]);
    } else {
      assert s.mac in t.devices ==> DeviceKept(t.devices[s.mac], u.devices[s.mac]);
    }
  }

  // ------------------------------------------------------------------------------------- within the caps, and sound

  lemma {:induction false} NoServicesYet(devices: Devices, services: Services, mac: Mac)
    requires ServicesBounded(devices, services) && mac !in devices
    ensures ServicesBy(services, mac) == {}
  {
  }

  lemma {:induction false} OneDevice(devices: Devices, services: Services, said: set<Saying>, mac: Mac, dev: Device)
    requires DevicesBounded(devices, services) && ServicesBounded(devices, services) && DevicesSaid(said, devices)
    requires mac in devices || |devices| < MAX_DEVICES
    requires DeviceBounded(services, mac, dev) && DeviceSaid(said, mac, dev)
    ensures var ds := devices[mac := dev];
            DevicesBounded(ds, services) && ServicesBounded(ds, services) && DevicesSaid(said, ds)
  {
    var ds := devices[mac := dev];
    assert ds.Keys == devices.Keys + {mac};
    forall m | m in ds ensures DeviceBounded(services, m, ds[m]) && DeviceSaid(said, m, ds[m]) {
      assert m != mac ==> ds[m] == devices[m];
    }
  }

  lemma {:induction false} OpenedGood(t: Tables, said: set<Saying>, mac: Mac)
    requires Good(t, said) && Spoken(said, mac)
    ensures Good(Opened(t, mac).0, said)
  {
    if mac !in t.devices && IsUnicast(mac) && |t.devices| < MAX_DEVICES {
      NoServicesYet(t.devices, t.services, mac);
      OneDevice(t.devices, t.services, said, mac, NEW_DEVICE);
    }
  }

  lemma {:induction false} WithAddressGood(t: Tables, said: set<Saying>, mac: Mac, ip: IpAddr)
    requires Good(t, said) && mac in t.devices && SaidAddress(said, mac, ip)
    ensures Good(WithAddress(t, mac, ip), said)
  {
    var dev := t.devices[mac];
    assert DeviceBounded(t.services, mac, dev) && DeviceSaid(said, mac, dev);
    if ip !in dev.ips && |dev.ips| < MAX_IPS_PER_DEVICE {
      OneDevice(t.devices, t.services, said, mac, dev.(ips := dev.ips + [ip]));
    }
  }

  lemma {:induction false} WithNameGood(t: Tables, said: set<Saying>, mac: Mac, name: string)
    requires Good(t, said) && mac in t.devices && SaidName(said, mac, name)
    ensures Good(WithName(t, mac, name), said)
  {
    var dev := t.devices[mac];
    assert DeviceBounded(t.services, mac, dev) && DeviceSaid(said, mac, dev);
    if dev.hostname.None? {
      OneDevice(t.devices, t.services, said, mac, dev.(hostname := Some(name)));
    }
  }

  lemma {:induction false} ServicesByNext(services: Services, k: (Mac, string), a: Announced, mac: Mac)
    requires k !in services
    ensures |ServicesBy(services[k := a], mac)| == |ServicesBy(services, mac)| + if mac == k.0 then 1 else 0
  {
    var ss := services[k := a];
    if mac == k.0 {
      assert ServicesBy(ss, mac) == ServicesBy(services, mac) + {k};
    } else {
      assert ServicesBy(ss, mac) == ServicesBy(services, mac);
    }
  }

  lemma {:induction false} OneMoreServiceBounded(devices: Devices, services: Services, k: (Mac, string), a: Announced)
    requires DevicesBounded(devices, services) && k.0 in devices && k !in services
    requires devices[k.0].services < MAX_SERVICES_PER_DEVICE
    ensures DevicesBounded(devices[k.0 := devices[k.0].(services := devices[k.0].services + 1)], services[k := a])
  {
    var ds, ss := devices[k.0 := devices[k.0].(services := devices[k.0].services + 1)], services[k := a];
    assert ds.Keys == devices.Keys;
    forall mac | mac in ds ensures DeviceBounded(ss, mac, ds[mac]) {
      ServicesByNext(services, k, a, mac);
      assert DeviceBounded(services, mac, devices[mac]);
    }
  }

  lemma {:induction false} OneMoreServiceListed(devices: Devices, services: Services, said: set<Saying>, k: (Mac, string), a: Announced)
    requires ServicesBounded(devices, services) && DevicesSaid(said, devices) && k.0 in devices && a.ips == []
    ensures var ds := devices[k.0 := devices[k.0].(services := devices[k.0].services + 1)];
            ServicesBounded(ds, services[k := a]) && DevicesSaid(said, ds)
  {
    var ds := devices[k.0 := devices[k.0].(services := devices[k.0].services + 1)];
    forall mac | mac in ds ensures DeviceSaid(said, mac, ds[mac]) {
      assert DeviceSaid(said, mac, devices[mac]);
    }
  }

  lemma {:induction false} OneMoreService(t: Tables, said: set<Saying>, k: (Mac, string), a: Announced)
    requires Good(t, said) && k.0 in t.devices && k !in t.services
    requires t.devices[k.0].services < MAX_SERVICES_PER_DEVICE && a.ips == [] && SaidOffer(said, k, a.kind, a.detail)
    ensures var ds := t.devices[k.0 := t.devices[k.0].(services := t.devices[k.0].services + 1)];
            Good(t.(devices := ds, services := t.services[k := a]), said)
  {
    OneMoreServiceBounded(t.devices, t.services, k, a);
    OneMoreServiceListed(t.devices, t.services, said, k, a);
    OneServiceSaid(t.services, said, k, a);
  }

  lemma {:induction false} ServiceOpenedGood(t: Tables, said: set<Saying>, k: (Mac, string), kind: Kind, detail: Detail)
    requires Good(t, said) && k.0 in t.devices && SaidOffer(said, k, kind, detail)
    ensures Good(ServiceOpened(t, k, kind, detail).0, said)
  {
    var dev, a := t.devices[k.0], Announced([], kind, detail);
    if k !in t.services && dev.services < MAX_SERVICES_PER_DEVICE {
      OneMoreService(t, said, k, a);
    }
  }

  lemma {:induction false} WithSourceGood(t: Tables, said: set<Saying>, k: (Mac, string), ip: IpAddr)
    requires Good(t, said) && k in t.services && SaidFrom(said, k, ip)
    ensures Good(WithSource(t, k, ip), said)
  {
    var a := t.services[k];
    assert ServiceSaid(said, k, a) && ShortList(a.ips);
    if ip !in a.ips && |a.ips| < MAX_IPS_PER_DEVICE {
      OneServiceBounded(t.devices, t.services, k, a.(ips := a.ips + [ip]));
      OneServiceSaid(t.services, said, k, a.(ips := a.ips + [ip]));
    }
  }

  lemma {:induction false} OneServiceBounded(devices: Devices, services: Services, k: (Mac, string), a: Announced)
    requires DevicesBounded(devices, services) && ServicesBounded(devices, services) && k in services && ShortList(a.ips)
    ensures DevicesBounded(devices, services[k := a]) && ServicesBounded(devices, services[k := a])
  {
    var ss := services[k := a];
    assert ss.Keys == services.Keys;
    forall mac | mac in devices ensures DeviceBounded(ss, mac, devices[mac]) {
      assert ServicesBy(ss, mac) == ServicesBy(services, mac);
      assert DeviceBounded(services, mac, devices[mac]);
    }
  }

  lemma {:induction false} OneServiceSaid(services: Services, said: set<Saying>, k: (Mac, string), a: Announced)
    requires ServicesSaid(said, services) && ServiceSaid(said, k, a)
    ensures ServicesSaid(said, services[k := a])
  {
  }

  lemma {:induction false} SightGood(t: Tables, said: set<Saying>, mac: Mac, ip: IpAddr)
    requires Good(t, said) && Spoken(said, mac) && SaidAddress(said, mac, ip)
    ensures Good(AfterSight(t, mac, ip), said)
  {
    OpenedGood(t, said, mac);
    var (u, ok) := Opened(t, mac);
    if ok {
      WithAddressGood(u, said, mac, ip);
    }
  }

  lemma {:induction false} NameGood(t: Tables, said: set<Saying>, mac: Mac, name: string)
    requires Good(t, said) && Spoken(said, mac) && SaidName(said, mac, name)
    ensures Good(AfterName(t, mac, name), said)
  {
    OpenedGood(t, said, mac);
    var (u, ok) := Opened(t, mac);
    if ok {
      WithNameGood(u, said, mac, name);
    }
  }

  lemma {:induction false} ServiceGood(
      t: Tables, said: set<Saying>, k: (Mac, string), from: Option<IpAddr>, kind: Kind, detail: Detail)
    requires Good(t, said) && k.0 in t.devices && SaidOffer(said, k, kind, detail)
    requires from.Some? ==> SaidFrom(said, k, from.value)
    ensures Good(AfterService(t, k, from, kind, detail), said)
  {
    ServiceOpenedGood(t, said, k, kind, detail);
    var (v, listed) := ServiceOpened(t, k, kind, detail);
    if listed && from.Some? {
      WithSourceGood(v, said, k, from.value);
    }
  }

  lemma {:induction false} OfferGood(
      t: Tables, said: set<Saying>, mac: Mac, from: Option<IpAddr>, service: string, kind: Kind, detail: Detail)
    requires Good(t, said) && Offers(mac, from, service, kind, detail) in said
    ensures Good(AfterOffer(t, mac, from, service, kind, detail), said)
  {
    var k := (mac, service);
    OfferSaid(said, mac, from, service, kind, detail);
    OpenedGood(t, said, mac);
    var (u, ok) := Opened(t, mac);
    if ok {
      ServiceGood(u, said, k, from, kind, detail);
    }
  }

  lemma {:induction false} OfferSaid(said: set<Saying>, mac: Mac, from: Option<IpAddr>, service: string, kind: Kind, detail: Detail)
    requires Offers(mac, from, service, kind, detail) in said
    ensures Spoken(said, mac) && SaidOffer(said, (mac, service), kind, detail)
    ensures from.Some? ==> SaidFrom(said, (mac, service), from.value)
  {
    var s := Offers(mac, from, service, kind, detail);
    assert Speaks(s, mac);
    if from.Some? {
      assert Offers(mac, Some(from.value), service, kind, detail) in said;
    }
  }

  lemma {:induction false} TakeGood(t: Tables, said: set<Saying>, client: Mac)
    requires Good(t, said) && Spoken(said, client)
    ensures Good(AfterTake(t, client), said)
  {
    if client in t.pending {
      var u := t.(pending := t.pending - {client});
      SubsetCount(u.pending.Keys, t.pending.Keys);
      assert PendingSaid(said, u.pending);
      NameGood(u, said, client, t.pending[client]);
    }
  }

  lemma {:induction false} WaitGood(t: Tables, said: set<Saying>, client: Mac, name: string)
    requires Good(t, said) && Waits(client, name) in said
    ensures Good(AfterWait(t, client, name), said)
  {
    if IsUnicast(client) && client !in t.pending && |t.pending| < MAX_PENDING_NAMES {
      OneMoreWaits(t.pending, said, client, name);
    }
  }

  lemma {:induction false} OneMoreWaits(pending: map<Mac, string>, said: set<Saying>, client: Mac, name: string)
    requires PendingSaid(said, pending) && IsUnicast(client) && Waits(client, name) in said && client !in pending
    ensures PendingSaid(said, pending[client := name]) && |pending[client := name]| == |pending| + 1
  {
    var more := pending[client := name];
    assert more.Keys == pending.Keys + {client};
    forall mac | mac in more ensures IsUnicast(mac) && Waits(mac, more[mac]) in said {
      if mac != client {
        assert more[mac] == pending[mac];
      }
    }
  }

  /** A saying taken in leaves the tables within the caps, and sound. */
  lemma {:induction false} AfterGood(t: Tables, said: set<Saying>, s: Saying)
    requires Good(t, said) && s in said
    ensures Good(After(t, s), said)
  {
    assert !s.Waits? ==> Speaks(s, s.mac);
    match s
    case Sighted(mac, ip) => SightGood(t, said, mac, ip);
    case Named(mac, name) => NameGood(t, said, mac, name);
    case Offers(mac, from, service, kind, detail) => OfferGood(t, said, mac, from, service, kind, detail);
    case Waits(mac, name) => WaitGood(t, said, mac, name);
    case Granted(mac, ip) =>
      SightGood(t, said, mac, ip);
      TakeGood(AfterSight(t, mac, ip), said, mac);
  }

  // ------------------------------------------------------------------------------------- what is not refused is recorded

  lemma {:induction false} SightRecords(t: Tables, mac: Mac, ip: IpAddr)
    requires AfterSight(t, mac, ip).refused == t.refused
    ensures Recorded(Sighted(mac, ip), AfterSight(t, mac, ip))
  {
  }

  lemma {:induction false} OfferRecords(t: Tables, mac: Mac, from: Option<IpAddr>, service: string, kind: Kind, detail: Detail)
    requires AfterOffer(t, mac, from, service, kind, detail).refused == t.refused
    ensures Recorded(Offers(mac, from, service, kind, detail), AfterOffer(t, mac, from, service, kind, detail))
  {
    var (u, ok) := Opened(t, mac);
    if ok {
      ServiceKeeps(u, (mac, service), from, kind, detail);
      ServiceRecords(u, (mac, service), from, kind, detail);
    }
  }

  lemma {:induction false} ServiceRecords(t: Tables, k: (Mac, string), from: Option<IpAddr>, kind: Kind, detail: Detail)
    requires k.0 in t.devices && AfterService(t, k, from, kind, detail).refused == t.refused
    ensures var u := AfterService(t, k, from, kind, detail);
            k in u.services && (from.Some? ==> from.value in u.services[k].ips)
  {
    ServiceOpenedKeeps(t, k, kind, detail);
    var (v, listed) := ServiceOpened(t, k, kind, detail);
    if listed && from.Some? {
      WithSourceKeeps(v, k, from.value);
    }
  }

  /** What was not refused is recorded. */
  lemma {:induction false} AfterRecords(t: Tables, s: Saying)
    requires After(t, s).refused == t.refused
    ensures Recorded(s, After(t, s))
  {
    match s
    case Sighted(mac, ip) => SightRecords(t, mac, ip);
    case Named(mac, name) =>
    case Offers(mac, from, service, kind, detail) => OfferRecords(t, mac, from, service, kind, detail);
    case Waits(mac, name) =>
    case Granted(mac, ip) =>
      var u := AfterSight(t, mac, ip);
      SightKeeps(t, mac, ip);
      TakeKeeps(u, mac);
      SightRecords(t, mac, ip);
      OneKeptRecorded(u, AfterTake(u, mac), Sighted(mac, ip));
  }

  // ------------------------------------------------------------------------------------- every saying

  lemma {:induction false} SoundGrows(t: Tables, said: set<Saying>, s: Saying)
    requires Good(t, said)
    ensures Good(t, said + {s})
  {
    var more := said + {s};
    forall mac | mac in t.devices ensures DeviceSaid(more, mac, t.devices[mac]) {
      DeviceSaidGrows(said, s, mac, t.devices[mac]);
    }
    forall k | k in t.services ensures ServiceSaid(more, k, t.services[k]) {
      ServiceSaidGrows(said, s, k, t.services[k]);
    }
    assert PendingSaid(more, t.pending);
  }

  lemma {:induction false} DeviceSaidGrows(said: set<Saying>, s: Saying, mac: Mac, dev: Device)
    requires DeviceSaid(said, mac, dev)
    ensures DeviceSaid(said + {s}, mac, dev)
  {
    var spoken :| spoken in said && Speaks(spoken, mac);
    assert spoken in said + {s} && Speaks(spoken, mac);
  }

  lemma {:induction false} ServiceSaidGrows(said: set<Saying>, s: Saying, k: (Mac, string), a: Announced)
    requires ServiceSaid(said, k, a)
    ensures ServiceSaid(said + {s}, k, a)
  {
    var more := said + {s};
    var from :| Offers(k.0, from, k.1, a.kind, a.detail) in said;
    assert Offers(k.0, from, k.1, a.kind, a.detail) in more;
    forall ip | ip in a.ips ensures SaidFrom(more, k, ip) {
      var kind, detail :| Offers(k.0, Some(ip), k.1, kind, detail) in said;
      assert Offers(k.0, Some(ip), k.1, kind, detail) in more;
    }
  }

  /** The invariant of a window: every saying keeps it. */
  lemma {:induction false} AfterFits(t: Tables, said: set<Saying>, s: Saying)
    requires Fits(t, said)
    ensures Fits(After(t, s), said + {s}) && Keeps(t, After(t, s))
  {
    SoundGrows(t, said, s);
    AfterGood(t, said + {s}, s);
    AfterKeeps(t, s);
    if After(t, s).refused == 0 {
      KeptRecorded(t, After(t, s), said);
      AfterRecords(t, s);
    }
  }

  lemma {:induction false} AllFit(t: Tables, said: set<Saying>, says: seq<Saying>)
    requires Fits(t, said)
    ensures Fits(AfterAll(t, says), said + Elements(says)) && Keeps(t, AfterAll(t, says))
  {
    if says == [] {
      assert said + Elements(says) == said;
      NothingChanged(t);
    } else {
      var front, last := says[..|says| - 1], says[|says| - 1];
      AllFit(t, said, front);
      AfterFits(AfterAll(t, front), said + Elements(front), last);
      StillKept(t, AfterAll(t, front), AfterAll(t, says));
      ElementsSnoc(said, says);
    }
  }

  lemma {:induction false} NothingChanged(t: Tables)
    ensures Keeps(t, t)
  {
  }

  lemma {:induction false} ElementsSnoc(said: set<Saying>, says: seq<Saying>)
    requires says != []
    ensures said + Elements(says) == said + Elements(says[..|says| - 1]) + {says[|says| - 1]}
  {
    assert says == says[..|says| - 1] + [says[|says| - 1]];
  }

  // ------------------------------------------------------------------------------------- when nothing is refused

  /** The devices, addresses, services and sources spoken of, each once. */
  ghost function Macs(said: set<Saying>): set<Mac> {
    set s | s in said && !s.Waits? && IsUnicast(s.mac) :: s.mac
  }

  ghost function Addresses(said: set<Saying>, mac: Mac): set<IpAddr> {
    set s | s in said && (s.Sighted? || s.Granted?) && s.mac == mac :: s.ip
  }

  ghost function Offered(said: set<Saying>, mac: Mac): set<(Mac, string)> {
    set s | s in said && s.Offers? && s.mac == mac :: (s.mac, s.service)
  }

  ghost function Sources(said: set<Saying>, k: (Mac, string)): set<IpAddr> {
    set s | s in said && s.Offers? && (s.mac, s.service) == k && s.from.Some? :: s.from.value
  }

  /** What was said fits under every cap but that of the names held. */
  ghost predicate Room(said: set<Saying>) {
    && |Macs(said)| <= MAX_DEVICES
    && (forall mac :: mac in Macs(said) ==>
          |Addresses(said, mac)| <= MAX_IPS_PER_DEVICE && |Offered(said, mac)| <= MAX_SERVICES_PER_DEVICE)
    && (forall mac, service :: mac in Macs(said) ==> |Sources(said, (mac, service))| <= MAX_IPS_PER_DEVICE)
  }

  lemma {:induction false} RoomShrinks(said: set<Saying>, more: set<Saying>)
    requires said <= more && Room(more)
    ensures Room(said)
  {
    assert Macs(said) <= Macs(more);
    SubsetCount(Macs(said), Macs(more));
    forall mac | mac in Macs(said)
      ensures |Addresses(said, mac)| <= MAX_IPS_PER_DEVICE && |Offered(said, mac)| <= MAX_SERVICES_PER_DEVICE
    {
      assert Addresses(said, mac) <= Addresses(more, mac) && Offered(said, mac) <= Offered(more, mac);
      SubsetCount(Addresses(said, mac), Addresses(more, mac));
      SubsetCount(Offered(said, mac), Offered(more, mac));
    }
    forall mac, service | mac in Macs(said) ensures |Sources(said, (mac, service))| <= MAX_IPS_PER_DEVICE {
      assert Sources(said, (mac, service)) <= Sources(more, (mac, service));
      SubsetCount(Sources(said, (mac, service)), Sources(more, (mac, service)));
    }
  }

  /** The clients waiting for an address after a saying, were there no cap: a name waits until a grant ends it. */
  ghost function Waiting(clients: set<Mac>, s: Saying): set<Mac> {
    match s
    case Waits(mac, _) => if IsUnicast(mac) then clients + {mac} else clients
    case Granted(mac, _) => clients - {mac}
    case _ => clients
  }

  ghost function WaitingAfter(clients: set<Mac>, says: seq<Saying>): set<Mac> {
    if says == [] then clients else Waiting(WaitingAfter(clients, says[..|says| - 1]), says[|says| - 1])
  }

  /** At no moment do more clients wait than names can be held for. */
  ghost predicate NamesFit(clients: set<Mac>, says: seq<Saying>) {
    |WaitingAfter(clients, says)| <= MAX_PENDING_NAMES && (says == [] || NamesFit(clients, says[..|says| - 1]))
  }

  /** The names held are those waiting, unless one was refused. */
  lemma {:induction false} HeldAreWaiting(t: Tables, s: Saying)
    requires s.Waits? ==> AfterWait(t, s.mac, s.name).refused == t.refused
    ensures After(t, s).pending.Keys == Waiting(t.pending.Keys, s)
  {
    match s
    case Sighted(mac, ip) => SightHoldsAll(t, mac, ip);
    case Named(mac, name) => NameHoldsAll(t, mac, name);
    case Offers(mac, from, service, kind, detail) => OfferHoldsAll(t, mac, from, service, kind, detail);
    case Waits(mac, name) => WaitHolds(t, mac, name);
    case Granted(mac, ip) =>
      SightHoldsAll(t, mac, ip);
      TakeGivesOut(AfterSight(t, mac, ip), mac);
  }

  lemma {:induction false} WaitHolds(t: Tables, client: Mac, name: string)
    requires AfterWait(t, client, name).refused == t.refused
    ensures AfterWait(t, client, name).pending.Keys == if IsUnicast(client) then t.pending.Keys + {client} else t.pending.Keys
  {
    assert t.pending[client := name].Keys == t.pending.Keys + {client};
    assert client in t.pending ==> t.pending.Keys == t.pending.Keys + {client};
  }

  lemma {:induction false} SightHoldsAll(t: Tables, mac: Mac, ip: IpAddr)
    ensures AfterSight(t, mac, ip).pending == t.pending
  {
  }

  lemma {:induction false} NameHoldsAll(t: Tables, mac: Mac, name: string)
    ensures AfterName(t, mac, name).pending == t.pending
  {
  }

  lemma {:induction false} OfferHoldsAll(t: Tables, mac: Mac, from: Option<IpAddr>, service: string, kind: Kind, detail: Detail)
    ensures AfterOffer(t, mac, from, service, kind, detail).pending == t.pending
  {
    var (u, ok) := Opened(t, mac);
    if ok {
      var v := ServiceOpened(u, (mac, service), kind, detail).0;
      assert v.pending == u.pending == t.pending;
    }
  }

  lemma {:induction false} TakeGivesOut(t: Tables, client: Mac)
    ensures AfterTake(t, client).pending.Keys == t.pending.Keys - {client}
  {
    if client in t.pending {
      var u := t.(pending := t.pending - {client});
      NameHoldsAll(u, client, t.pending[client]);
      assert u.pending.Keys == t.pending.Keys - {client};
    }
  }

  lemma {:induction false} OneMore<T>(have: set<T>, x: T, all: set<T>)
    requires have <= all && x in all && x !in have
    ensures |have| < |all|
  {
    SubsetCount(have + {x}, all);
  }

  lemma {:induction false} OpenedHasRoom(t: Tables, said: set<Saying>, mac: Mac)
    requires Good(t, said) && Room(said) && Spoken(said, mac)
    ensures Opened(t, mac).0.refused == t.refused && (IsUnicast(mac) ==> Opened(t, mac).1)
  {
    if IsUnicast(mac) && mac !in t.devices {
      forall m | m in t.devices.Keys ensures m in Macs(said) {
        assert DeviceSaid(said, m, t.devices[m]) && DeviceBounded(t.services, m, t.devices[m]);
      }
      OneMore(t.devices.Keys, mac, Macs(said));
    }
  }

  lemma {:induction false} ListHasRoom(ips: seq<IpAddr>, ip: IpAddr, all: set<IpAddr>)
    requires Distinct(ips) && (forall i :: i in ips ==> i in all) && ip in all && ip !in ips
    ensures |ips| < |all|
  {
    DistinctCount(ips);
    OneMore(Elements(ips), ip, all);
  }

  lemma {:induction false} AddressHasRoom(t: Tables, said: set<Saying>, mac: Mac, ip: IpAddr)
    requires Good(t, said) && Room(said) && mac in t.devices && SaidAddress(said, mac, ip)
    ensures WithAddress(t, mac, ip).refused == t.refused
  {
    var dev := t.devices[mac];
    assert DeviceSaid(said, mac, dev) && DeviceBounded(t.services, mac, dev);
    if ip !in dev.ips {
      AddressSpoken(said, mac, ip);
      forall i | i in dev.ips ensures i in Addresses(said, mac) {
        AddressSpoken(said, mac, i);
      }
      ListHasRoom(dev.ips, ip, Addresses(said, mac));
      assert mac in Macs(said);
    }
  }

  lemma {:induction false} AddressSpoken(said: set<Saying>, mac: Mac, ip: IpAddr)
    requires SaidAddress(said, mac, ip)
    ensures ip in Addresses(said, mac)
  {
    var s := if Sighted(mac, ip) in said then Sighted(mac, ip) else Granted(mac, ip);
    assert s in said && s.mac == mac && s.ip == ip;
  }

  lemma {:induction false} ServiceHasRoom(t: Tables, said: set<Saying>, k: (Mac, string), kind: Kind, detail: Detail)
    requires Good(t, said) && Room(said) && k.0 in t.devices && SaidOffer(said, k, kind, detail)
    ensures ServiceOpened(t, k, kind, detail).0.refused == t.refused && ServiceOpened(t, k, kind, detail).1
  {
    if k !in t.services {
      assert DeviceSaid(said, k.0, t.devices[k.0]) && DeviceBounded(t.services, k.0, t.devices[k.0]);
      OfferSpoken(said, k, kind, detail);
      forall j | j in ServicesBy(t.services, k.0) ensures j in Offered(said, k.0) {
        assert ServiceSaid(said, j, t.services[j]);
        OfferSpoken(said, j, t.services[j].kind, t.services[j].detail);
      }
      OneMore(ServicesBy(t.services, k.0), k, Offered(said, k.0));
      assert k.0 in Macs(said);
    }
  }

  lemma {:induction false} OfferSpoken(said: set<Saying>, k: (Mac, string), kind: Kind, detail: Detail)
    requires SaidOffer(said, k, kind, detail)
    ensures k in Offered(said, k.0)
  {
    var from :| Offers(k.0, from, k.1, kind, detail) in said;
    var s := Offers(k.0, from, k.1, kind, detail);
    assert s in said && (s.mac, s.service) == k;
  }

  lemma {:induction false} SourceHasRoom(t: Tables, said: set<Saying>, k: (Mac, string), ip: IpAddr)
    requires Good(t, said) && Room(said) && k in t.services && SaidFrom(said, k, ip)
    ensures WithSource(t, k, ip).refused == t.refused
  {
    var a := t.services[k];
    assert ServiceSaid(said, k, a) && ShortList(a.ips);
    if ip !in a.ips {
      SourceSpoken(said, k, ip);
      forall i | i in a.ips ensures i in Sources(said, k) {
        SourceSpoken(said, k, i);
      }
      ListHasRoom(a.ips, ip, Sources(said, k));
      assert DeviceSaid(said, k.0, t.devices[k.0]) && DeviceBounded(t.services, k.0, t.devices[k.0]);
      assert k.0 in Macs(said) && k == (k.0, k.1);
    }
  }

  lemma {:induction false} SourceSpoken(said: set<Saying>, k: (Mac, string), ip: IpAddr)
    requires SaidFrom(said, k, ip)
    ensures ip in Sources(said, k)
  {
    var kind, detail :| Offers(k.0, Some(ip), k.1, kind, detail) in said;
    var s := Offers(k.0, Some(ip), k.1, kind, detail);
    assert s in said && (s.mac, s.service) == k && s.from == Some(ip);
  }

  /** While what was said leaves room, and there is a place for a name, nothing is refused. */
  lemma {:induction false} NothingRefused(t: Tables, said: set<Saying>, s: Saying)
    requires Good(t, said) && Room(said) && |Waiting(t.pending.Keys, s)| <= MAX_PENDING_NAMES && s in said
    ensures After(t, s).refused == t.refused
  {
    assert !s.Waits? ==> Speaks(s, s.mac);
    match s
    case Sighted(mac, ip) => SightHasRoom(t, said, mac, ip);
    case Named(mac, name) => OpenedHasRoom(t, said, mac);
    case Offers(mac, from, service, kind, detail) => OfferHasRoom(t, said, s);
    case Waits(mac, name) => WaitHasRoom(t, mac, name);
    case Granted(mac, ip) =>
      SightHasRoom(t, said, mac, ip);
      SightGood(t, said, mac, ip);
      TakeHasRoom(AfterSight(t, mac, ip), said, mac);
  }

  lemma {:induction false} SightHasRoom(t: Tables, said: set<Saying>, mac: Mac, ip: IpAddr)
    requires Good(t, said) && Room(said) && Spoken(said, mac) && SaidAddress(said, mac, ip)
    ensures AfterSight(t, mac, ip).refused == t.refused
  {
    OpenedHasRoom(t, said, mac);
    OpenedGood(t, said, mac);
    if Opened(t, mac).1 {
      AddressHasRoom(Opened(t, mac).0, said, mac, ip);
    }
  }

  lemma {:induction false} OfferHasRoom(t: Tables, said: set<Saying>, s: Saying)
    requires Good(t, said) && Room(said) && s in said && s.Offers?
    ensures AfterOffer(t, s.mac, s.from, s.service, s.kind, s.detail).refused == t.refused
  {
    var k := (s.mac, s.service);
    assert Speaks(s, s.mac);
    assert s == Offers(k.0, s.from, k.1, s.kind, s.detail);
    OpenedHasRoom(t, said, s.mac);
    OpenedGood(t, said, s.mac);
    var (u, ok) := Opened(t, s.mac);
    if ok {
      ServiceHasRoom(u, said, k, s.kind, s.detail);
      ServiceOpenedGood(u, said, k, s.kind, s.detail);
      if s.from.Some? {
        assert Offers(k.0, Some(s.from.value), k.1, s.kind, s.detail) in said;
        SourceHasRoom(ServiceOpened(u, k, s.kind, s.detail).0, said, k, s.from.value);
      }
    }
  }

  lemma {:induction false} WaitHasRoom(t: Tables, client: Mac, name: string)
    requires |Waiting(t.pending.Keys, Waits(client, name))| <= MAX_PENDING_NAMES
    ensures AfterWait(t, client, name).refused == t.refused
  {
    if IsUnicast(client) && client !in t.pending {
      OneMore(t.pending.Keys, client, t.pending.Keys + {client});
    }
  }

  lemma {:induction false} TakeHasRoom(t: Tables, said: set<Saying>, client: Mac)
    requires Good(t, said) && Room(said) && Spoken(said, client)
    ensures AfterTake(t, client).refused == t.refused
  {
    if client in t.pending {
      var u := t.(pending := t.pending - {client});
      SubsetCount(u.pending.Keys, t.pending.Keys);
      OpenedHasRoom(u, said, client);
    }
  }

  /** What is held is what was said, so tables that refused nothing are within the caps because what was said is. */
  lemma {:induction false} RecordedHasRoom(t: Tables, said: set<Saying>)
    requires Bounded(t) && AllRecorded(t, said)
    ensures Room(said)
  {
    forall mac | mac in Macs(said) ensures mac in t.devices {
      var s :| s in said && !s.Waits? && IsUnicast(s.mac) && s.mac == mac;
      assert Recorded(s, t);
    }
    SubsetCount(Macs(said), t.devices.Keys);
    forall mac | mac in Macs(said)
      ensures |Addresses(said, mac)| <= MAX_IPS_PER_DEVICE && |Offered(said, mac)| <= MAX_SERVICES_PER_DEVICE
    {
      assert DeviceBounded(t.services, mac, t.devices[mac]);
      forall ip | ip in Addresses(said, mac) ensures ip in Elements(t.devices[mac].ips) {
        var s :| s in said && (s.Sighted? || s.Granted?) && s.mac == mac && s.ip == ip;
        assert Recorded(s, t);
      }
      DistinctCount(t.devices[mac].ips);
      SubsetCount(Addresses(said, mac), Elements(t.devices[mac].ips));
      forall k | k in Offered(said, mac) ensures k in ServicesBy(t.services, mac) {
        var s :| s in said && s.Offers? && s.mac == mac && (s.mac, s.service) == k;
        assert Recorded(s, t);
      }
      SubsetCount(Offered(said, mac), ServicesBy(t.services, mac));
    }
    forall mac, service | mac in Macs(said) ensures |Sources(said, (mac, service))| <= MAX_IPS_PER_DEVICE {
      SourcesRecorded(t, said, (mac, service));
    }
  }

  lemma {:induction false} SourcesRecorded(t: Tables, said: set<Saying>, k: (Mac, string))
    requires Bounded(t) && AllRecorded(t, said) && k.0 in Macs(said)
    ensures |Sources(said, k)| <= MAX_IPS_PER_DEVICE
  {
    if Sources(said, k) != {} {
      var any :| any in Sources(said, k);
      forall ip | ip in Sources(said, k) ensures k in t.services && ip in Elements(t.services[k].ips) {
        var s :| s in said && s.Offers? && (s.mac, s.service) == k && s.from.Some? && s.from.value == ip;
        assert Recorded(s, t) && IsUnicast(k.0);
      }
      assert any in Elements(t.services[k].ips) && ShortList(t.services[k].ips);
      DistinctCount(t.services[k].ips);
      SubsetCount(Sources(said, k), Elements(t.services[k].ips));
    }
  }

  /** Taking in more, nothing is refused exactly if all that was said leaves room and the names waiting always fit. */
  lemma {:induction false} RefusedUnlessRoom(t: Tables, said: set<Saying>, says: seq<Saying>)
    requires Fits(t, said) && t.refused == 0
    ensures AfterAll(t, says).refused == 0 <==> Room(said + Elements(says)) && NamesFit(t.pending.Keys, says)
  {
    AllFit(t, said, says);
    if AfterAll(t, says).refused == 0 {
      RecordedHasRoom(AfterAll(t, says), said + Elements(says));
      NamesHeld(t, said, says);
    }
    if Room(said + Elements(says)) && NamesFit(t.pending.Keys, says) {
      NoneRefused(t, said, says);
    }
  }

  lemma {:induction false} NamesHeld(t: Tables, said: set<Saying>, says: seq<Saying>)
    requires Fits(t, said) && AfterAll(t, says).refused == t.refused
    ensures NamesFit(t.pending.Keys, says)
    ensures AfterAll(t, says).pending.Keys == WaitingAfter(t.pending.Keys, says)
  {
    AllFit(t, said, says);
    if says != [] {
      var front, last := says[..|says| - 1], says[|says| - 1];
      var u := AfterAll(t, front);
      AllFit(t, said, front);
      AfterKeeps(u, last);
      NamesHeld(t, said, front);
      HeldAreWaiting(u, last);
    }
  }

  lemma {:induction false} NoneRefused(t: Tables, said: set<Saying>, says: seq<Saying>)
    requires Fits(t, said) && Room(said + Elements(says)) && NamesFit(t.pending.Keys, says)
    ensures AfterAll(t, says).refused == t.refused
    ensures AfterAll(t, says).pending.Keys == WaitingAfter(t.pending.Keys, says)
  {
    if says != [] {
      var front, last := says[..|says| - 1], says[|says| - 1];
      var before, all := said + Elements(front), said + Elements(says);
      ElementsSnoc(said, says);
      RoomShrinks(before, all);
      NoneRefused(t, said, front);
      AllFit(t, said, front);
      SoundGrows(AfterAll(t, front), before, last);
      NothingRefused(AfterAll(t, front), all, last);
      HeldAreWaiting(AfterAll(t, front), last);
    }
  }
}
