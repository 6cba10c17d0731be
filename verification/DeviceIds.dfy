/**
 * The device ids the Kubernetes device plugin advertises (internal/deviceplugin/deviceplugin.go): how an
 * id is printed, what Allocate reads back out of it, and the list kubelet is sent.
 */
module DeviceIds {
  import opened Prelude
  import opened Text

  const SLOTS: nat := 200

  datatype Device = Device(name: string, mac: string, devPaths: seq<string>, numa: int)

  type Devices = map<string, Device>

  datatype Advertised = Advertised(id: string, numa: int)

  predicate Keyed(devices: Devices) {
    forall n :: n in devices ==> devices[n].name == n
  }

  function Elements(s: seq<string>): set<string> {
    set n | n in s
  }

  /** An iteration over a Go map: every key once, in some order. */
  ghost predicate IsOrder(order: seq<string>, keys: set<string>) {
    NoDup(order) && Elements(order) == keys
  }

  // ---------- Device ids ----------

  function DeviceId(name: string, i: nat): string {
    name + "/" + Decimal(i)
  }

  /** The device name Allocate reads out of an id; an id without a slash is skipped. */
  function NameIn(id: string): Option<string> {
    var parts := Split(id, '/');
    if |parts| <= 1 then None else Some(parts[0])
  }

  /** No two ids coincide, even for names that hold slashes. */
  lemma DeviceIdInjective(a: string, i: nat, b: string, j: nat)
    ensures DeviceId(a, i) == DeviceId(b, j) <==> a == b && i == j
  {
    if DeviceId(a, i) == DeviceId(b, j) {
      DecimalRoundTrip(i);
      DecimalRoundTrip(j);
      SlashIsLast(a, i);
      SlashIsLast(b, j);
      assert DeviceId(a, i)[|b|] == '/' && DeviceId(b, j)[|a|] == '/';
      assert DeviceId(a, i)[..|a|] == a && DeviceId(b, j)[..|b|] == b;
      assert DeviceId(a, i)[|a| + 1..] == Decimal(i) && DeviceId(b, j)[|b| + 1..] == Decimal(j);
    }
  }

  lemma SlashIsLast(name: string, i: nat)
    ensures DeviceId(name, i)[|name|] == '/'
    ensures forall k :: |name| < k < |DeviceId(name, i)| ==> DeviceId(name, i)[k] != '/'
  {
    DecimalRoundTrip(i);
    forall k | |name| < k < |DeviceId(name, i)|
      ensures DeviceId(name, i)[k] != '/'
    {
      assert DeviceId(name, i)[k] == Decimal(i)[k - |name| - 1];
      assert Decimal(i)[k - |name| - 1] in Decimal(i);
    }
  }

  /** Splitting an issued id recovers the device name exactly when the name holds no slash. */
  lemma IdRoundTrip(name: string, i: nat)
    ensures NameIn(DeviceId(name, i)).Some?
    ensures NameIn(DeviceId(name, i)) == Some(name) <==> '/' !in name
  {
    var id := DeviceId(name, i);
    SplitShape(id, '/');
    assert id[|name|] == '/';
    if '/' !in name {
      SplitFirst(name, '/', Decimal(i));
    }
  }

  /** What an id names: nothing without a slash, else what is before the first one. */
  lemma NameInMeans(id: string)
    ensures NameIn(id).None? <==> '/' !in id
    ensures NameIn(id).Some? ==> '/' !in NameIn(id).value && NameIn(id).value + "/" <= id
  {
    SplitShape(id, '/');
    if '/' in id {
      SplitHead(id, '/');
    }
  }

  // ---------- The advertised list ----------

  function Block(d: Device): (b: seq<Advertised>)
    ensures |b| == SLOTS
  {
    seq(SLOTS, i requires 0 <= i < SLOTS => Advertised(DeviceId(d.name, i), d.numa))
  }

  function ListingOf(devices: Devices, order: seq<string>): seq<Advertised>
    requires Elements(order) <= devices.Keys
  {
    if order == [] then []
    else
      var last := order[|order| - 1];
      assert last in Elements(order);
      assert Elements(order[..|order| - 1]) <= Elements(order);
      ListingOf(devices, order[..|order| - 1]) + Block(devices[last])
  }

  ghost predicate IsListing(devices: Devices, devs: seq<Advertised>) {
    exists order: seq<string> :: IsOrder(order, devices.Keys) && devs == ListingOf(devices, order)
  }

  /** The entry is a slot of one of these devices. */
  ghost predicate SlotOf(devices: Devices, names: set<string>, a: Advertised) {
    exists n, i: nat :: n in names && n in devices && i < SLOTS && a == Advertised(DeviceId(n, i), devices[n].numa)
  }

  lemma {:induction false} ListingMembers(devices: Devices, order: seq<string>)
    requires Keyed(devices) && Elements(order) <= devices.Keys
    ensures |ListingOf(devices, order)| == SLOTS * |order|
    ensures forall a :: a in ListingOf(devices, order) <==> SlotOf(devices, Elements(order), a)
  {
    if order != [] {
      var init, last := order[..|order| - 1], order[|order| - 1];
      assert order == init + [last];
      assert last in Elements(order);
      ListingMembers(devices, init);
      forall a
        ensures a in ListingOf(devices, order) <==> SlotOf(devices, Elements(order), a)
      {
        BlockMembers(devices, last, a);
        SlotOfSplit(devices, init, last, a);
      }
    }
  }

  lemma BlockMembers(devices: Devices, name: string, a: Advertised)
    requires Keyed(devices) && name in devices
    ensures a in Block(devices[name]) <==> SlotOf(devices, {name}, a)
  {
    var b := Block(devices[name]);
    if a in b {
      var i :| 0 <= i < |b| && b[i] == a;
      assert SlotOf(devices, {name}, a);
    }
    if SlotOf(devices, {name}, a) {
      var n, i: nat :| n in {name} && n in devices && i < SLOTS && a == Advertised(DeviceId(n, i), devices[n].numa);
      assert b[i] == a;
    }
  }

  lemma SlotOfSplit(devices: Devices, init: seq<string>, last: string, a: Advertised)
    ensures SlotOf(devices, Elements(init + [last]), a) <==>
      SlotOf(devices, Elements(init), a) || SlotOf(devices, {last}, a)
  {
    assert Elements(init + [last]) == Elements(init) + {last};
  }

  lemma SlotDecides(devices: Devices, x: set<string>, y: set<string>, a: Advertised, b: Advertised)
    requires x !! y && SlotOf(devices, x, a) && SlotOf(devices, y, b)
    ensures a.id != b.id
  {
    var n, i: nat :| n in x && n in devices && i < SLOTS && a == Advertised(DeviceId(n, i), devices[n].numa);
    var m, j: nat :| m in y && m in devices && j < SLOTS && b == Advertised(DeviceId(m, j), devices[m].numa);
    DeviceIdInjective(n, i, m, j);
  }

  predicate IdsDistinct(devs: seq<Advertised>) {
    forall i, j | 0 <= i < j < |devs| :: devs[i].id != devs[j].id
  }

  lemma BlockDistinct(d: Device)
    ensures IdsDistinct(Block(d))
  {
    forall i, j | 0 <= i < j < SLOTS
      ensures Block(d)[i].id != Block(d)[j].id
    {
      DeviceIdInjective(d.name, i, d.name, j);
    }
  }

  lemma {:induction false} ListingDistinct(devices: Devices, order: seq<string>)
    requires Keyed(devices) && Elements(order) <= devices.Keys && NoDup(order)
    ensures IdsDistinct(ListingOf(devices, order))
  {
    if order != [] {
      var init, last := order[..|order| - 1], order[|order| - 1];
      assert last in Elements(order);
      assert Elements(init) <= Elements(order);
      ListingDistinct(devices, init);
      BlockDistinct(devices[last]);
      var x, y := ListingOf(devices, init), Block(devices[last]);
      forall i, j | 0 <= i < |x| && 0 <= j < |y|
        ensures x[i].id != y[j].id
      {
        ListingMembers(devices, init);
        assert x[i] in x && y[j] in y;
        BlockMembers(devices, last, y[j]);
        SlotDecides(devices, Elements(init), {last}, x[i], y[j]);
      }
      IdsDistinctAppend(x, y);
    }
  }

  lemma IdsDistinctAppend(x: seq<Advertised>, y: seq<Advertised>)
    requires IdsDistinct(x) && IdsDistinct(y)
    requires forall i, j | 0 <= i < |x| && 0 <= j < |y| :: x[i].id != y[j].id
    ensures IdsDistinct(x + y)
  {
  }

  lemma {:induction false} OrderLength(order: seq<string>)
    requires NoDup(order)
    ensures |order| == |Elements(order)|
  {
    if order != [] {
      var init, last := order[..|order| - 1], order[|order| - 1];
      OrderLength(init);
      assert order == init + [last];
      assert last !in Elements(init);
      assert Elements(order) == Elements(init) + {last};
    }
  }

  /** What kubelet is told: 200 ids a device, no id twice, nothing else, each with its device's NUMA node. */
  lemma ListingIsExact(devices: Devices, devs: seq<Advertised>)
    requires Keyed(devices) && IsListing(devices, devs)
    ensures |devs| == 200 * |devices.Keys|
    ensures IdsDistinct(devs)
    ensures forall a :: a in devs <==> exists n, i: nat :: IsSlot(devices, n, i, a)
  {
    var order: seq<string> :| IsOrder(order, devices.Keys) && devs == ListingOf(devices, order);
    OrderLength(order);
    ListingMembers(devices, order);
    ListingDistinct(devices, order);
    forall a
      ensures a in devs <==> exists n, i: nat :: IsSlot(devices, n, i, a)
    {
      SlotMeans(devices, a);
    }
  }

  /** What is advertised for slot i of the device n. */
  ghost predicate IsSlot(devices: Devices, n: string, i: nat, a: Advertised) {
    n in devices && i < 200 && a.id == n + "/" + Decimal(i) && a.numa == devices[n].numa
  }

  lemma SlotMeans(devices: Devices, a: Advertised)
    ensures SlotOf(devices, devices.Keys, a) <==> exists n, i: nat :: IsSlot(devices, n, i, a)
  {
    if SlotOf(devices, devices.Keys, a) {
      var n, i: nat :|
        n in devices.Keys && n in devices && i < SLOTS && a == Advertised(DeviceId(n, i), devices[n].numa);
      assert IsSlot(devices, n, i, a);
    }
    if n, i: nat :| IsSlot(devices, n, i, a) {
      assert a == Advertised(DeviceId(n, i), devices[n].numa);
    }
  }
}
