/**
 The driver framework: a singly linked list of drivers, each with a singly linked list of its devices,
 newest first.  Elements are unlinked through the pointer that leads to them.
 */
module IoManager {
  import opened Basics
  import opened Names

  const SUCCESS := 0
  const INVALID_PARAMETER := -0x3FFF_FFF3
  const INSUFFICIENT_RESOURCES := -0x3FFF_FF66
  const DEVICE_DOES_NOT_EXIST := -0x3FFF_FF40

  /** The name of a device that was given this one; without a buffer it has none. */
  function NameOf(name: Option<Unicode>): Unicode {
    if name.Some? && name.value.buffer.Some? then name.value else Unicode(0, None)
  }

  /** What IoGetDeviceObjectPointer takes for a match: two buffers with equal texts. */
  predicate Matches(a: Unicode, b: Unicode)
    requires Backed(a) && Backed(b)
  {
    a.buffer.Some? && b.buffer.Some? && Text(a) == Text(b)
  }

  // ---- lookup on values ---------------------------------------------------------------------------

  predicate NamesBacked(names: seq<Unicode>) { forall j :: 0 <= j < |names| ==> Backed(names[j]) }

  predicate Hit(names: seq<Unicode>, name: Unicode, j: nat)
    requires NamesBacked(names) && Backed(name) && j < |names|
  {
    Matches(names[j], name)
  }

  /** The first name, from position j on, that matches; the length of the list if none does. */
  function FindName(names: seq<Unicode>, name: Unicode, j: nat): (r: nat)
    requires NamesBacked(names) && Backed(name) && j <= |names|
    ensures j <= r <= |names| && (r < |names| ==> Hit(names, name, r))
    ensures forall k: nat {:trigger Hit(names, name, k)} :: j <= k < r ==> !Hit(names, name, k)
    decreases |names| - j
  {
    if j == |names| || Hit(names, name, j) then j else FindName(names, name, j + 1)
  }

  predicate AllBacked(cat: seq<seq<Unicode>>) { forall i :: 0 <= i < |cat| ==> NamesBacked(cat[i]) }

  /** Name (k, l) comes before what a search has found. */
  predicate Before(k: nat, l: nat, found: Option<(nat, nat)>) {
    found.None? || k < found.value.0 || (k == found.value.0 && l < found.value.1)
  }

  /** The first match from list i on, list by list: a match before which there is no other, or nothing
      exactly when nothing matches. */
  function Lookup(cat: seq<seq<Unicode>>, name: Unicode, i: nat): (r: Option<(nat, nat)>)
    requires AllBacked(cat) && Backed(name) && i <= |cat|
    ensures r.Some? ==> var (m, n) := r.value; i <= m < |cat| && n < |cat[m]| && Hit(cat[m], name, n)
    ensures forall k: nat, l: nat {:trigger Hit(cat[k], name, l)} ::
      i <= k < |cat| && l < |cat[k]| && Before(k, l, r) ==> !Hit(cat[k], name, l)
    decreases |cat| - i
  {
    if i == |cat| then None else
      var n := FindName(cat[i], name, 0);
      if n < |cat[i]| then Some((i, n)) else Lookup(cat, name, i + 1)
  }

  /** What is found is named: both names have buffers, with the same characters. */
  lemma FoundIsNamed(cat: seq<seq<Unicode>>, name: Unicode)
    requires AllBacked(cat) && Backed(name) && Lookup(cat, name, 0).Some?
    ensures var (m, n) := Lookup(cat, name, 0).value;
      && m < |cat| && n < |cat[m]| && cat[m][n].buffer.Some? && name.buffer.Some?
      && cat[m][n].buffer.value[..cat[m][n].length / 2] == name.buffer.value[..name.length / 2]
  {
    var (m, n) := Lookup(cat, name, 0).value;
    assert Hit(cat[m], name, n);
  }

  /** A driver before the i-th has a device of this name. */
  predicate NamedBefore(cat: seq<seq<Unicode>>, name: Unicode, i: nat) {
    exists k: nat, l: nat {:trigger cat[k][l]} :: k < i && k < |cat| && l < |cat[k]|
      && cat[k][l].buffer.Some? && name.buffer.Some? && Backed(cat[k][l]) && Backed(name)
      && cat[k][l].buffer.value[..cat[k][l].length / 2] == name.buffer.value[..name.length / 2]
  }

  /** The newest device of driver i is found under its own name, unless a driver before has one of that name;
      then that is found. */
  lemma NewestFound(cat: seq<seq<Unicode>>, name: Unicode, i: nat)
    requires AllBacked(cat) && i < |cat| && cat[i] != [] && cat[i][0] == name && name.buffer.Some?
    ensures Backed(name) && Lookup(cat, name, 0).Some?
    ensures Lookup(cat, name, 0) == Some((i, 0)) <==> !NamedBefore(cat, name, i)
    ensures NamedBefore(cat, name, i) ==> Lookup(cat, name, 0).value.0 < i
  {
    assert Hit(cat[i], name, 0);
    var (m, n) := Lookup(cat, name, 0).value;
    FoundIsNamed(cat, name);
    assert cat[m][n] == cat[m][n];
    if NamedBefore(cat, name, i) {
      var k: nat, l: nat :| k < i && l < |cat[k]| && cat[k][l].buffer.Some? && Backed(cat[k][l])
        && cat[k][l].buffer.value[..cat[k][l].length / 2] == name.buffer.value[..name.length / 2];
      assert Hit(cat[k], name, l);
    }
  }

  // ---- driver initialisation routines -----------------------------------------------------------

  /** What a driver's routines may do with its driver object: create a device, with or without the memory
      for it and for its extension, delete its newest one, or delete them all. */
  datatype Action = Make(name: Option<Unicode>, extension: nat, memory: bool, room: bool) | Drop | DropAll

  /** An entry routine: what it does, the status it returns, and the unload routine it sets, if any. */
  datatype Init = Init(actions: seq<Action>, status: int, unload: Option<seq<Action>>)

  predicate Sensible(a: Action) { a.Make? && a.name.Some? ==> Backed(a.name.value) }

  predicate AllSensible(actions: seq<Action>) { forall a :: a in actions ==> Sensible(a) }

  predicate InitSensible(init: Init) { AllSensible(init.actions) && (init.unload.Some? ==> AllSensible(init.unload.value)) }

  /** Memory suffices for a device and, if it asks for one, its extension. */
  predicate Allocates(extension: nat, memory: bool, room: bool) { memory && (extension > 0 ==> room) }

  /** The names of a driver's devices, newest first, after one more action. */
  function After(names: seq<Unicode>, a: Action): seq<Unicode> {
    match a
    case Make(name, extension, memory, room) =>
      if Allocates(extension, memory, room) then [NameOf(name)] + names else names
    case Drop => if names == [] then [] else names[1..]
    case DropAll => []
  }

  /** Deleting the newest device undoes making it, whatever devices there were before. */
  lemma DropUndoesMake(names: seq<Unicode>, name: Unicode, extension: nat)
    ensures After(names, Make(Some(name), extension, true, true)) == [if name.buffer.Some? then name else Unicode(0, None)] + names
    ensures After(After(names, Make(Some(name), extension, true, true)), Drop) == names
    ensures After(names, DropAll) == []
  {
  }

  /** The same after the first n actions of a driver that had no device. */
  function AfterAll(actions: seq<Action>, n: nat): seq<Unicode>
    requires n <= |actions|
  {
    if n == 0 then [] else After(AfterAll(actions, n - 1), actions[n - 1])
  }

  /** The actions leave the driver object with a device. */
  predicate LeavesDevices(actions: seq<Action>) { AfterAll(actions, |actions|) != [] }

  /** The entry routine of a new driver is called, fails, and leaves a device behind. */
  predicate Leaks(name: Option<Unicode>, init: Option<Init>, memory: bool) {
    name.Some? && init.Some? && memory && init.value.status < 0 && LeavesDevices(init.value.actions)
  }

  /** An entry routine that makes a device and fails leaks it; one that deletes it first, as the display
      driver's does, does not. */
  lemma FailingEntryLeaks(name: Unicode, status: int)
    requires status < 0
    ensures Leaks(Some(name), Some(Init([Make(None, 0, true, true)], status, None)), true)
    ensures !Leaks(Some(name), Some(Init([Make(None, 0, true, true), Drop], status, None)), true)
  {
    var a, b := [Make(None, 0, true, true)], [Make(None, 0, true, true), Drop];
    assert AfterAll(a, 1) == After(AfterAll(a, 0), a[0]);
    assert AfterAll(b, 2) == After(After(AfterAll(b, 0), b[0]), b[1]);
  }

  // ---- objects ------------------------------------------------------------------------------------

  class Device {
    var name: Unicode
    var driver: Driver?
    var next: Device?
    var kind: nat
    var characteristics: nat
    var extension: nat

    constructor (driver: Driver, kind: nat, characteristics: nat, extension: nat, name: Unicode, next: Device?)
      ensures this.driver == driver && this.name == name && this.next == next
      ensures this.kind == kind && this.characteristics == characteristics && this.extension == extension
    {
      this.driver, this.name, this.next := driver, name, next;
      this.kind, this.characteristics, this.extension := kind, characteristics, extension;
    }
  }

  class Driver {
    var name: Unicode
    var deviceObject: Device?
    var next: Driver?
    var unload: Option<seq<Action>>
    ghost var devices: seq<Device>

    constructor (name: Unicode)
      ensures this.name == name && next == null && unload == None && Owns() && devices == []
    {
      this.name, deviceObject, next, unload, devices := name, null, null, None, [];
    }

    ghost predicate LinkAt(i: nat)
      reads this, devices
      requires i < |devices|
    {
      devices[i].next == if i + 1 < |devices| then devices[i + 1] else null
    }

    /** The device list is the sequence devices, every device once, each with this driver as its owner. */
    ghost predicate Owns()
      reads this, devices
    {
      && deviceObject == (if devices == [] then null else devices[0])
      && (forall i: nat {:trigger LinkAt(i)} :: i < |devices| ==> LinkAt(i))
      && Distinct(devices)
      && (forall x :: x in devices ==> x.driver == this && Backed(x.name))
      && (unload.Some? ==> AllSensible(unload.value))
    }

    ghost function Names(): (r: seq<Unicode>)
      reads this, devices
      ensures |r| == |devices|
    {
      seq(|devices|, i requires 0 <= i < |devices| reads this, devices => devices[i].name)
    }

    /** A new device at the head of the list. */
    method Link(device: Device)
      requires Owns() && device !in devices && device.driver == this && Backed(device.name)
      modifies this`deviceObject, this`devices, device`next
      ensures Owns() && devices == [device] + old(devices)
    {
      device.next := deviceObject;
      deviceObject := device;
      devices := [device] + devices;
      assert Distinct(devices) by {
        forall j: nat, k: nat | j < k < |devices| ensures Differ(devices, j, k) {
          assert j > 0 ==> Differ(old(devices), j - 1, k - 1);
        }
      }
      forall i: nat | i < |devices| ensures LinkAt(i) {
        assert i > 0 ==> old(LinkAt(i - 1));
      }
    }

    /** The list part of IoDeleteDevice: the pointer to the device is made to skip it. */
    method Unlink(device: Device)
      requires Owns()
      modifies this`deviceObject, this`devices, devices`next
      ensures Owns() && devices == Without(old(devices), device)
    {
      var prev: Device? := null;
      var cur := deviceObject;
      ghost var i := 0;
      while cur != null
        invariant i <= |devices| && cur == (if i < |devices| then devices[i] else null)
        invariant prev == if i > 0 then devices[i - 1] else null
        invariant forall j :: 0 <= j < i ==> devices[j] != device
        decreases |devices| - i
      {
        assert LinkAt(i);
        if cur == device {
          Skip(prev, i);
          return;
        }
        prev := cur;
        cur := cur.next;
        i := i + 1;
      }
    }

    /** *Current = Device->NextDevice */
    method Skip(prev: Device?, ghost i: nat)
      requires Owns() && i < |devices| && prev == if i > 0 then devices[i - 1] else null
      modifies this`deviceObject, this`devices, devices`next
      ensures Owns() && devices == WithoutAt(old(devices), i)
    {
      ghost var q := devices;
      assert LinkAt(i);
      if prev == null {
        deviceObject := deviceObject.next;
      } else {
        assert LinkAt(i - 1);
        prev.next := prev.next.next;
      }
      devices := WithoutAt(q, i);
      WithoutAtDistinct(q, i);
      forall j: nat | j < |devices| ensures LinkAt(j) {
        assert old(LinkAt(if j < i then j else j + 1));
        assert i > 0 && j != i - 1 ==> Differ(q, if j < i then j else i - 1, if j < i then i - 1 else j + 1);
      }
    }
  }

  // ---- the manager ----------------------------------------------------------------------------------

  class Manager {
    var driverList: Driver?
    var driverCount: int
    ghost var drivers: seq<Driver>
    ghost var objects: set<Driver>  // every driver object ever allocated; memory is never used again
    ghost var live: set<Driver>     // those not freed
    ghost var made: set<Device>     // every device allocated and not freed

    /** IoInitSystem */
    constructor ()
      ensures Valid() && drivers == [] && objects == live == {} && made == {}
    {
      driverList, driverCount, drivers, objects, live, made := null, 0, [], {}, {}, {};
    }

    ghost predicate LinkAt(i: nat)
      reads this, drivers
      requires i < |drivers|
    {
      drivers[i].next == if i + 1 < |drivers| then drivers[i + 1] else null
    }

    /** The driver list is the sequence drivers, every driver once, and counted. */
    ghost predicate Listed()
      reads this, drivers
    {
      && driverList == (if drivers == [] then null else drivers[0])
      && (forall i: nat {:trigger LinkAt(i)} :: i < |drivers| ==> LinkAt(i))
      && Distinct(drivers) && driverCount == |drivers|
    }

    /** A device is on the list of the driver object it names, whether that object has been freed or not. */
    ghost predicate Placed(x: Device)
      reads this, x, objects
    {
      x.driver != null && x.driver in objects && x in x.driver.devices
    }

    /** All lists are what they should be, and every allocated device is on one. */
    ghost predicate Valid()
      reads this, objects, drivers, made
    {
      && Listed() && (forall d :: d in drivers ==> d in live) && live <= objects
      && (forall d :: d in objects ==> (forall x :: x in d.devices ==> x in made) && d.Owns())
      && forall x :: x in made ==> Placed(x)
    }

    /** The allocated devices whose driver object has been freed: nobody can reach or delete them through a
        driver any more. */
    ghost function Orphans(): set<Device>
      reads this, made
    {
      set x | x in made && (x.driver == null || x.driver !in live)
    }

    /** A device's owner, as a set, and its siblings. */
    ghost function Owner(device: Device?): set<Driver>
      reads device
    {
      if device == null || device.driver == null then {} else {device.driver}
    }

    ghost function Siblings(device: Device?): seq<Device>
      reads device, Owner(device)
    {
      if device == null || device.driver == null then [] else device.driver.devices
    }

    /** Every allocated device is on the list of the object it names and on no other object's; that object
        has not been freed exactly when the device is no orphan. */
    lemma OnOneList(d: Driver, x: Device)
      requires Valid() && x in made && d in objects
      ensures x in d.devices <==> x.driver == d
      ensures x !in Orphans() <==> x.driver in live
    {
      assert Placed(x) && d.Owns();
    }

    /** IoCreateDevice; memory and room say whether the two allocations succeed. */
    method CreateDevice(driver: Driver?, extension: nat, name: Option<Unicode>, kind: nat, characteristics: nat,
                        wanted: bool, memory: bool, room: bool) returns (status: int, device: Device?)
      requires Valid() && (driver != null ==> driver in objects) && (name.Some? ==> Backed(name.value))
      modifies this`made, if driver == null then {} else {driver}
      ensures Valid()
      ensures if driver == null || !wanted then status == -0x3FFF_FFF3 && device == null
              else if !memory || (extension > 0 && !room) then status == -0x3FFF_FF66 && device == null
              else status == 0 && device != null && fresh(device)
      ensures made == if status == 0 then old(made) + {device} else old(made)
      ensures driver != null ==>
        && driver.name == old(driver.name) && driver.next == old(driver.next) && driver.unload == old(driver.unload)
        && driver.devices == if status == 0 then [device] + old(driver.devices) else old(driver.devices)
      ensures status == 0 ==>
        && device.name == (if name.Some? && name.value.buffer.Some? then name.value else Unicode(0, None))
        && device.driver == driver && device.kind == kind && device.characteristics == characteristics && device.extension == extension
    {
      if driver == null || !wanted { return INVALID_PARAMETER, null; }
      if !memory { return INSUFFICIENT_RESOURCES, null; }
      if extension > 0 && !room { return INSUFFICIENT_RESOURCES, null; }
      var d := new Device(driver, kind, characteristics, extension, NameOf(name), null);
      AddDevice(driver, d);
      return SUCCESS, d;
    }

    /** The list part of IoCreateDevice. */
    method AddDevice(driver: Driver, d: Device)
      requires Valid() && driver in objects && d !in made && d.driver == driver && Backed(d.name)
      modifies this`made, driver`deviceObject, driver`devices, d`next
      ensures Valid() && made == old(made) + {d} && driver.devices == [d] + old(driver.devices)
    {
      assert driver.Owns();
      driver.Link(d);
      made := made + {d};
      forall e | e in objects ensures e.Owns() {
        assert old(e.Owns());
      }
      forall x | x in made ensures Placed(x) {
        assert x != d ==> old(Placed(x));
      }
      forall i: nat | i < |drivers| ensures LinkAt(i) {
        assert old(LinkAt(i));
      }
    }

    /** IoDeleteDevice: the device leaves its owner's list and is freed, and no other list changes. The
        owner may have been freed before; its memory is not used for anything else. */
    method DeleteDevice(device: Device?)
      requires Valid() && (device != null && device.driver != null ==> device.driver in objects)
      modifies this`made, Owner(device), Siblings(device)`next
      ensures Valid() && made == (if device == null then old(made) else old(made) - {device})
      ensures device != null && old(device.driver) != null ==>
        var d := old(device.driver);
        && d.name == old(device.driver.name) && d.next == old(device.driver.next) && d.unload == old(device.driver.unload)
        && d.devices == Without(old(device.driver.devices), device)
    {
      if device == null { return; }
      assert device in made ==> Placed(device);
      if device.driver == null { return; }
      RemoveDevice(device, device.driver);
    }

    /** The list part of IoDeleteDevice. */
    method RemoveDevice(device: Device, driver: Driver)
      requires Valid() && driver in objects && device.driver == driver
      modifies this`made, driver`deviceObject, driver`devices, driver.devices`next
      ensures Valid() && made == old(made) - {device} && driver.devices == Without(old(driver.devices), device)
    {
      assert driver.Owns();
      WithoutAll(driver.devices, device);
      driver.Unlink(device);
      made := made - {device};
      forall e | e in objects && e != driver ensures e.Owns() {
        assert old(e.Owns());
        forall i: nat | i < |e.devices| ensures e.LinkAt(i) {
          assert old(e.LinkAt(i)) && e.devices[i] !in old(driver.devices);
        }
      }
      forall x | x in made ensures Placed(x) {
        assert old(Placed(x));
      }
      forall i: nat | i < |drivers| ensures LinkAt(i) {
        assert old(LinkAt(i));
      }
    }

    /** IoDeleteDevice of a driver's newest device. */
    method DropFirst(driver: Driver)
      requires Valid() && driver in objects && driver.deviceObject != null
      modifies this`made, driver, driver.devices`next
      ensures Valid() && |old(driver.devices)| > 0 && driver.devices == old(driver.devices)[1..]
      ensures made == old(made) - {old(driver.devices)[0]}
      ensures driver.name == old(driver.name) && driver.next == old(driver.next) && driver.unload == old(driver.unload)
      ensures driver.Names() == old(driver.Names())[1..]
    {
      assert driver.Owns();
      var device := driver.deviceObject;
      assert device == driver.devices[0] && device.driver == driver;
      WithoutFirst(driver.devices);
      DeleteDevice(device);
    }

    /** The loop that deletes all devices of a driver, in IoDeleteDriver and in the unload routine of the
        display driver. */
    method DropDevices(driver: Driver)
      requires Valid() && driver in objects
      modifies this`made, driver, driver.devices`next
      ensures Valid() && driver.devices == [] && driver.deviceObject == null
      ensures made == old(made) - SetOf(old(driver.devices))
      ensures driver.name == old(driver.name) && driver.next == old(driver.next) && driver.unload == old(driver.unload)
    {
      assert driver.Owns();
      var device := driver.deviceObject;
      ghost var n, all := 0, driver.devices;
      while device != null
        invariant Valid() && device == driver.deviceObject && n <= |all| && driver.devices == all[n..]
        invariant made == old(made) - SetOf(all[..n])
        invariant driver.name == old(driver.name) && driver.next == old(driver.next) && driver.unload == old(driver.unload)
        decreases |driver.devices|
      {
        assert driver.Owns() && driver.LinkAt(0);
        var nextDevice := device.next;
        DropFirst(driver);
        assert driver.Owns();
        device := nextDevice;
        assert all[..n + 1] == all[..n] + [all[n]];
        n := n + 1;
      }
      assert driver.Owns() && all[..n] == all;
    }

    /** The list part of IoDeleteDriver. */
    method UnlinkDriver(driver: Driver)
      requires Valid()
      modifies this`driverList, this`driverCount, this`drivers, drivers`next
      ensures Valid() && drivers == Without(old(drivers), driver) && driver !in drivers
    {
      WithoutKeeps(drivers, driver, driver);
      var prev: Driver? := null;
      var cur := driverList;
      ghost var i := 0;
      while cur != null
        invariant i <= |drivers| && cur == (if i < |drivers| then drivers[i] else null)
        invariant prev == if i > 0 then drivers[i - 1] else null
        invariant forall j :: 0 <= j < i ==> drivers[j] != driver
        decreases |drivers| - i
      {
        assert LinkAt(i);
        if cur == driver {
          SkipDriver(prev, driver, i);
          return;
        }
        prev := cur;
        cur := cur.next;
        i := i + 1;
      }
    }

    /** Relinking drivers leaves every device where it is. */
    twostate lemma DevicesStay()
      requires old(Valid()) && objects == old(objects) && made == old(made)
      requires forall e :: e in objects ==> e.deviceObject == old(e.deviceObject) && e.devices == old(e.devices) && e.unload == old(e.unload)
      requires forall e, k {:trigger e.devices[k]} :: e in objects && 0 <= k < |e.devices| ==> unchanged(e.devices[k])
      ensures forall e :: e in objects ==> (forall x :: x in e.devices ==> x in made) && e.Owns()
      ensures forall x :: x in made ==> Placed(x)
    {
      forall e | e in objects ensures e.Owns() {
        assert old(e.Owns());
        forall k: nat | k < |e.devices| ensures e.LinkAt(k) {
          assert old(e.LinkAt(k));
        }
      }
      forall x | x in made ensures Placed(x) {
        assert old(Placed(x));
      }
    }

    /** *Current = DriverObject->NextDriver, and one driver less. */
    method SkipDriver(prev: Driver?, driver: Driver, ghost i: nat)
      requires Valid() && i < |drivers| && drivers[i] == driver && prev == if i > 0 then drivers[i - 1] else null
      modifies this`driverList, this`driverCount, this`drivers, drivers`next
      ensures Valid() && drivers == WithoutAt(old(drivers), i)
    {
      ghost var q := drivers;
      assert LinkAt(i);
      if prev == null {
        driverList := driver.next;
      } else {
        assert LinkAt(i - 1);
        prev.next := driver.next;
      }
      driverCount := driverCount - 1;
      drivers := WithoutAt(q, i);
      WithoutAtDistinct(q, i);
      forall j: nat | j < |drivers| ensures LinkAt(j) {
        assert old(LinkAt(if j < i then j else j + 1));
        assert i > 0 && j != i - 1 ==> Differ(q, if j < i then j else i - 1, if j < i then i - 1 else j + 1);
      }
      DevicesStay();
    }

    /** IoDeleteDriver up to the release of the object. */
    method RemoveDriver(driver: Driver)
      requires Valid() && driver in live
      modifies this`driverList, this`driverCount, this`drivers, this`made, driver, driver.devices`next, drivers`next
      ensures Valid() && drivers == Without(old(drivers), driver) && driver !in drivers
      ensures made == old(made) - SetOf(old(driver.devices)) + SetOf(driver.devices) && SetOf(driver.devices) !! old(made)
      ensures driver.Names() == if old(driver.unload).Some? then AfterAll(old(driver.unload).value, |old(driver.unload).value|) else []
    {
      assert driver.Owns();
      DropDevices(driver);
      UnlinkDriver(driver);
      assert driver.Owns();
      if driver.unload.Some? {
        RunActions(driver, driver.unload.value);
      }
    }

    /** IoDeleteDriver of an object. */
    method DeleteObject(driver: Driver)
      requires Valid() && driver in live
      modifies this, driver, driver.devices`next, drivers`next
      ensures Valid() && objects == old(objects) && drivers == Without(old(drivers), driver) && live == old(live) - {driver}
      ensures made == old(made) - SetOf(old(driver.devices)) + SetOf(driver.devices)
      ensures Orphans() == old(Orphans()) <==> old(driver.unload).None? || !LeavesDevices(old(driver.unload).value)
    {
      ghost var orphans, before := Orphans(), made;
      RemoveDriver(driver);
      ListedMade(driver);
      assert Orphans() == orphans;
      Forget(driver, orphans);
      Grown(orphans, before, driver);
    }

    /** IoDeleteDriver: the driver is gone and so are its devices; every other driver keeps its devices. Only
        the devices its own unload routine leaves behind become orphans. */
    method DeleteDriver(driver: Driver?)
      requires Valid() && (driver != null ==> driver in live)
      modifies this, if driver == null then {} else {driver}, (if driver == null then [] else driver.devices)`next, drivers`next
      ensures Valid() && objects == old(objects)
      ensures driver == null ==> drivers == old(drivers) && live == old(live) && made == old(made)
      ensures driver != null ==>
        && drivers == Without(old(drivers), driver) && live == old(live) - {driver}
        && made == old(made) - SetOf(old(driver.devices)) + SetOf(driver.devices)
      ensures forall d | d in live :: d.devices == old(d.devices)
      ensures Orphans() == old(Orphans()) <==>
        driver == null || old(driver.unload).None? || !LeavesDevices(old(driver.unload).value)
    {
      if driver != null {
        DeleteObject(driver);
      }
    }

    /** Devices that were not allocated before are orphans only when there are any. */
    lemma Grown(orphans: set<Device>, before: set<Device>, driver: Driver)
      requires orphans <= before && SetOf(driver.devices) !! before
      ensures orphans + SetOf(driver.devices) == orphans <==> driver.Names() == []
    {
      if driver.devices != [] {
        assert driver.devices[0] in SetOf(driver.devices) && |driver.Names()| > 0;
      }
    }

    /** The devices on a driver's list are allocated, and orphans exactly when the driver has been freed. */
    lemma ListedMade(driver: Driver)
      requires Valid() && driver in objects
      ensures SetOf(driver.devices) <= made
      ensures forall x :: x in made ==> (x in SetOf(driver.devices) <==> x.driver == driver)
    {
      forall x | x in made ensures x in driver.devices <==> x.driver == driver {
        OnOneList(driver, x);
      }
    }

    /** A new driver object. */
    ghost method Admit(driver: Driver)
      requires Valid() && driver !in objects && driver.Owns() && driver.devices == []
      requires forall x :: x in made ==> x.driver != driver
      modifies this`live, this`objects
      ensures Valid() && live == old(live) + {driver} && objects == old(objects) + {driver} && Orphans() == old(Orphans())
    {
      live, objects := live + {driver}, objects + {driver};
      forall i: nat | i < |drivers| ensures LinkAt(i) {
        assert old(LinkAt(i));
      }
      forall e | e in objects ensures e.Owns() {
        assert e != driver ==> old(e.Owns());
      }
      forall x | x in made ensures Placed(x) {
        assert old(Placed(x));
      }
    }

    /** A driver object freed; it must not be on the list. Its devices become orphans. */
    ghost method Forget(driver: Driver, orphans: set<Device>)
      requires Valid() && driver in live && driver !in drivers
      requires orphans <= made && Orphans() == orphans
      modifies this`live
      ensures Valid() && live == old(live) - {driver} && Orphans() == orphans + SetOf(driver.devices)
    {
      ListedMade(driver);
      live := live - {driver};
      forall i: nat | i < |drivers| ensures LinkAt(i) {
        assert old(LinkAt(i));
      }
      forall e | e in objects ensures e.Owns() {
        assert old(e.Owns());
      }
      forall x | x in made ensures Placed(x) {
        assert old(Placed(x));
      }
    }

    /** The list part of IoCreateDriver. */
    method LinkDriver(driver: Driver)
      requires Valid() && driver in live && driver !in drivers
      modifies this`driverList, this`driverCount, this`drivers, driver`next
      ensures Valid() && drivers == [driver] + old(drivers)
    {
      driver.next := driverList;
      driverList := driver;
      driverCount := driverCount + 1;
      drivers := [driver] + drivers;
      assert Distinct(drivers) by {
        forall j: nat, k: nat | j < k < |drivers| ensures Differ(drivers, j, k) {
          assert j > 0 ==> Differ(old(drivers), j - 1, k - 1);
        }
      }
      forall i: nat | i < |drivers| ensures LinkAt(i) {
        assert i > 0 ==> old(LinkAt(i - 1));
      }
      forall e | e in objects ensures e.Owns() {
        assert old(e.Owns());
        forall k: nat | k < |e.devices| ensures e.LinkAt(k) {
          assert old(e.LinkAt(k));
        }
      }
      forall x | x in made ensures Placed(x) {
        assert old(Placed(x));
      }
    }

    /** One thing a driver's routine does; it deletes only devices of its own driver. */
    method RunAction(driver: Driver, a: Action)
      requires Valid() && driver in objects && Sensible(a)
      modifies this`made, driver, driver.devices`next
      ensures Valid() && driver.Names() == After(old(driver.Names()), a)
      ensures driver.name == old(driver.name) && driver.next == old(driver.next) && driver.unload == old(driver.unload)
      ensures forall k :: 0 <= k < |driver.devices| ==> driver.devices[k] in old(driver.devices) || fresh(driver.devices[k])
      ensures made == old(made) - SetOf(old(driver.devices)) + SetOf(driver.devices)
    {
      assert driver.Owns();
      ListedMade(driver);
      match a {
        case Make(name, extension, memory, room) =>
          ghost var names := driver.Names();
          var status, device := CreateDevice(driver, extension, name, 0, 0, true, memory, room);
          assert driver.Names() == if status == SUCCESS then [NameOf(name)] + names else names;
        case Drop =>
          if driver.deviceObject != null {
            DropFirst(driver);
            ListedMade(driver);
          }
        case DropAll =>
          DropDevices(driver);
      }
    }

    /** An entry or unload routine of a driver that has no device. */
    method RunActions(driver: Driver, actions: seq<Action>)
      requires Valid() && driver in objects && driver.devices == [] && AllSensible(actions)
      modifies this`made, driver
      ensures Valid() && driver.Names() == AfterAll(actions, |actions|)
      ensures driver.name == old(driver.name) && driver.next == old(driver.next) && driver.unload == old(driver.unload)
      ensures made == old(made) + SetOf(driver.devices) && forall x :: x in driver.devices ==> fresh(x)
    {
      for i := 0 to |actions|
        invariant Valid() && driver.Names() == AfterAll(actions, i) && forall k :: 0 <= k < |driver.devices| ==> fresh(driver.devices[k])
        invariant driver.name == old(driver.name) && driver.next == old(driver.next) && driver.unload == old(driver.unload)
        invariant made == old(made) + SetOf(driver.devices)
      {
        assert Sensible(actions[i]) && AfterAll(actions, i + 1) == After(AfterAll(actions, i), actions[i]);
        RunAction(driver, actions[i]);
      }
    }

    method SetUnload(driver: Driver, unload: Option<seq<Action>>)
      requires Valid() && driver in objects && (unload.Some? ==> AllSensible(unload.value))
      modifies driver`unload
      ensures Valid() && driver.unload == unload && driver.Names() == old(driver.Names())
    {
      driver.unload := unload;
      forall i: nat | i < |drivers| ensures LinkAt(i) {
        assert old(LinkAt(i));
      }
      forall e | e in objects ensures e.Owns() {
        assert old(e.Owns());
        forall k: nat | k < |e.devices| ensures e.LinkAt(k) {
          assert old(e.LinkAt(k));
        }
      }
      forall x | x in made ensures Placed(x) {
        assert old(Placed(x));
      }
    }

    /** A new driver object. */
    method NewObject(name: Unicode) returns (driver: Driver)
      requires Valid()
      modifies this`live, this`objects
      ensures Valid() && fresh(driver) && live == old(live) + {driver} && driver !in old(live) && driver !in drivers && driver in objects
      ensures driver.name == name && driver.unload == None && driver.devices == []
      ensures Orphans() == old(Orphans())
    {
      driver := new Driver(name);
      Admit(driver);
    }

    /** A new driver object, once its entry routine has run. */
    method InitObject(name: Unicode, init: Init) returns (driver: Driver)
      requires Valid() && InitSensible(init)
      modifies this`made, this`live, this`objects
      ensures Valid() && fresh(driver) && live == old(live) + {driver} && driver !in old(live) && driver !in drivers
      ensures driver.name == name && driver.unload == init.unload && driver.Names() == AfterAll(init.actions, |init.actions|)
      ensures made == old(made) + SetOf(driver.devices) && (forall x :: x in driver.devices ==> fresh(x))
      ensures Orphans() == old(Orphans()) <= old(made)
    {
      ghost var orphans := Orphans();
      driver := NewObject(name);
      RunActions(driver, init.actions);
      SetUnload(driver, init.unload);
      ListedMade(driver);
      assert Orphans() == orphans;
    }

    /** IoCreateDriver: the new driver heads the list with the devices its entry routine has made. When there
        is no memory or the routine fails, no driver is registered; but the devices a failing routine leaves
        stay allocated, as orphans of a freed driver object. */
    method CreateDriver(name: Option<Unicode>, init: Option<Init>, memory: bool) returns (status: int)
      requires Valid() && (init.Some? ==> InitSensible(init.value))
      modifies this
      ensures Valid()
      ensures status == if name.None? || init.None? then -0x3FFF_FFF3 else if !memory then -0x3FFF_FF66
                        else if init.value.status < 0 then init.value.status else 0
      ensures status < 0 ==> drivers == old(drivers) && live == old(live)
      ensures status == 0 ==>
        && |drivers| == |old(drivers)| + 1 && drivers[1..] == old(drivers)
        && var d := drivers[0];
        && fresh(d) && live == old(live) + {d} && d.name == name.value && d.unload == init.value.unload
        && d.Names() == AfterAll(init.value.actions, |init.value.actions|)
        && made == old(made) + SetOf(d.devices)
      ensures Orphans() == old(Orphans()) <==> !Leaks(name, init, memory)
      ensures old(Orphans()) <= Orphans() && forall x :: x in Orphans() ==> x in old(Orphans()) || fresh(x)
    {
      if name.None? || init.None? { return INVALID_PARAMETER; }
      if !memory { return INSUFFICIENT_RESOURCES; }
      ghost var orphans, before := Orphans(), made;
      var driver := InitObject(name.value, init.value);
      if init.value.status < 0 {
        Forget(driver, orphans);
        Grown(orphans, before, driver);
        return init.value.status;
      }
      LinkDriver(driver);
      return SUCCESS;
    }

    // ---- lookup -------------------------------------------------------------------------------------

    /** The names of all devices of all listed drivers, in list order. */
    ghost function Catalogue(): (cat: seq<seq<Unicode>>)
      requires Valid()
      reads this, objects, drivers, made
      ensures |cat| == |drivers| && AllBacked(cat)
      ensures forall i :: 0 <= i < |drivers| ==> drivers[i].Owns() && cat[i] == drivers[i].Names()
    {
      assert forall i :: 0 <= i < |drivers| ==> drivers[i] in drivers && drivers[i].Owns();
      seq(|drivers|, i requires 0 <= i < |drivers| && Valid() reads this, objects, drivers, made =>
        assert drivers[i] in drivers; drivers[i].Names())
    }

    /** The test of IoGetDeviceObjectPointer. */
    method IsNamed(device: Device, name: Unicode) returns (b: bool)
      requires Backed(device.name) && Backed(name)
      ensures b <==> Matches(device.name, name)
    {
      if device.name.buffer.None? || name.buffer.None? { return false; }
      var order := CompareUnicode(Some(device.name), Some(name));
      OrderTotal(Text(device.name).value, Text(name).value, []);
      return order == 0;
    }

    /** The device loop of IoGetDeviceObjectPointer. */
    method SearchDevices(driver: Driver, name: Unicode) returns (device: Device?)
      requires driver.Owns() && Backed(name)
      ensures NamesBacked(driver.Names())
      ensures var n := FindName(driver.Names(), name, 0);
        device == if n < |driver.devices| then driver.devices[n] else null
    {
      device := driver.deviceObject;
      ghost var names, j := driver.Names(), 0;
      while device != null
        invariant j <= |driver.devices| && device == (if j < |driver.devices| then driver.devices[j] else null)
        invariant FindName(names, name, 0) == FindName(names, name, j)
        decreases |driver.devices| - j
      {
        assert driver.LinkAt(j) && names[j] == device.name;
        var found := IsNamed(device, name);
        if found { return; }
        device := device.next;
        j := j + 1;
      }
    }

    /** The device at a place in the lists; null for no place. */
    ghost predicate IsFound(device: Device?, at: Option<(nat, nat)>)
      reads this, drivers
    {
      if at.None? then device == null else
        at.value.0 < |drivers| && at.value.1 < |drivers[at.value.0].devices| && device == drivers[at.value.0].devices[at.value.1]
    }

    /** The driver loop of IoGetDeviceObjectPointer. */
    method SearchDrivers(name: Unicode, ghost cat: seq<seq<Unicode>>) returns (device: Device?)
      requires Listed() && Backed(name) && |cat| == |drivers| && AllBacked(cat)
      requires forall i :: 0 <= i < |drivers| ==> drivers[i].Owns() && cat[i] == drivers[i].Names()
      ensures IsFound(device, Lookup(cat, name, 0))
    {
      var driver := driverList;
      ghost var i := 0;
      while driver != null
        invariant i <= |drivers| && driver == (if i < |drivers| then drivers[i] else null)
        invariant Lookup(cat, name, 0) == Lookup(cat, name, i)
        decreases |drivers| - i
      {
        assert LinkAt(i);
        device := SearchDevices(driver, name);
        if device != null { return; }
        driver := driver.next;
        i := i + 1;
      }
      device := null;
    }

    /** IoGetDeviceObjectPointer: the first match in list order, or a failure exactly when no name matches. */
    method GetDeviceObjectPointer(name: Option<Unicode>, wanted: bool) returns (status: int, device: Device?)
      requires Valid() && (name.Some? ==> Backed(name.value))
      ensures name.None? || !wanted ==> status == -0x3FFF_FFF3 && device == null
      ensures name.Some? && wanted ==>
        && IsFound(device, Lookup(Catalogue(), name.value, 0))
        && status == if device == null then -0x3FFF_FF40 else 0
    {
      if name.None? || !wanted { return INVALID_PARAMETER, null; }
      device := SearchDrivers(name.value, Catalogue());
      status := if device == null then DEVICE_DOES_NOT_EXIST else SUCCESS;
    }

    /** The newest device of the i-th driver, opened by its name. */
    lemma OpensNewest(i: nat, device: Device, name: Unicode, found: Device?)
      requires Valid() && i < |drivers| && |drivers[i].devices| > 0 && drivers[i].devices[0] == device && device.name == name
      requires Backed(name) && name.buffer.Some? && IsFound(found, Lookup(Catalogue(), name, 0))
      ensures found != null && found.name.buffer.Some?
      ensures found == device <==> !NamedBefore(Catalogue(), name, i)
    {
      var cat := Catalogue();
      assert cat[i] == drivers[i].Names() && cat[i][0] == name;
      NewestFound(cat, name, i);
      FoundIsNamed(cat, name);
      var (m, n) := Lookup(cat, name, 0).value;
      assert cat[m] == drivers[m].Names() && found == drivers[m].devices[n];
      if m < i {
        OwnersDiffer(m, i, n, 0);
      }
    }

    lemma OwnersDiffer(m: nat, i: nat, n: nat, l: nat)
      requires Valid() && m < i < |drivers| && n < |drivers[m].devices| && l < |drivers[i].devices|
      ensures drivers[m].devices[n] != drivers[i].devices[l]
    {
      assert Differ(drivers, m, i) && drivers[m] in drivers && drivers[i] in drivers;
      assert drivers[m].Owns() && drivers[i].Owns();
      assert drivers[m].devices[n] in drivers[m].devices && drivers[i].devices[l] in drivers[i].devices;
    }

    method OpenNewest(ghost i: nat, ghost device: Device, name: Unicode) returns (status: int, found: Device?)
      requires Valid() && i < |drivers| && |drivers[i].devices| > 0 && drivers[i].devices[0] == device && device.name == name
      requires Backed(name) && name.buffer.Some?
      ensures status == 0 && found != null && found.name.buffer.Some?
      ensures found == device <==> !NamedBefore(Catalogue(), name, i)
    {
      status, found := GetDeviceObjectPointer(Some(name), true);
      OpensNewest(i, device, name, found);
    }

    /** IoCreateDevice for a listed driver, and IoGetDeviceObjectPointer with the name the device was given: the
        very device, unless a driver earlier in the list has one of that name. */
    method CreateThenOpen(driver: Driver, ghost i: nat, extension: nat, name: Unicode, kind: nat, characteristics: nat)
      returns (device: Device?, status: int, found: Device?)
      requires Valid() && i < |drivers| && drivers[i] == driver && Backed(name) && name.buffer.Some?
      modifies this`made, driver
      ensures Valid() && drivers == old(drivers) && device != null && fresh(device)
      ensures driver.devices == [device] + old(driver.devices)
      ensures status == 0 && found != null && found.name.buffer.Some?
      ensures found == device <==> !NamedBefore(Catalogue(), name, i)
    {
      assert driver in drivers;
      status, device := CreateDevice(driver, extension, Some(name), kind, characteristics, true, true, true);
      status, found := OpenNewest(i, device, name);
    }
  }

  ghost function SetOf(q: seq<Device>): set<Device> { set x | x in q }

  lemma WithoutAll<T>(q: seq<T>, x: T)
    requires Distinct(q)
    ensures x !in Without(q, x) && forall y :: y != x ==> (y in Without(q, x) <==> y in q)
  {
    forall y | y != x ensures y in Without(q, x) <==> y in q {
      WithoutKeeps(q, x, y);
    }
    WithoutKeeps(q, x, x);
  }

  lemma WithoutFirst<T>(q: seq<T>)
    requires |q| > 0
    ensures Without(q, q[0]) == q[1..]
  {
  }

  lemma WithoutAtDistinct<T>(q: seq<T>, i: nat)
    requires Distinct(q) && i < |q|
    ensures Distinct(WithoutAt(q, i))
  {
    IndexOfAt(q, i);
    WithoutKeeps(q, q[i], q[i]);
  }
}
