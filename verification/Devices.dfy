/**
 The device registry: what creating, deleting, renaming and re-keying a device
 and editing the pools of an interface make of the tables, and what every
 reachable table keeps.
 */
module Devices {
  import opened Addresses
  import opened Allocation
  import opened Pools
  import opened Text
  import opened Wrappers

  type ID = nat

  datatype Status = Active | Disabled | Suspended | Expired | TrafficExceeded | WaitingFirstConnection

  datatype User = User(status: Status, enabled: bool, limit: Option<int>, interface: Option<ID>)

  datatype Interface = Interface(enabled: bool, pools: seq<Prefix>)

  datatype Device = Device(user: ID, interface: ID, name: string, ipv4: nat, key: string, enabled: bool)

  datatype Registry = Registry(
    users: map<ID, User>,
    interfaces: map<ID, Interface>,
    devices: map<ID, Device>,
    retired: set<(ID, string)>)

  datatype Error =
    | InvalidRequest | Forbidden | UserNotFound | InterfaceNotFound | DeviceNotFound
    | LimitReached | KeyExists | PoolExhausted | SubnetInvalid | SubnetOverlap | StoreFailed

  /** A key pair as the caller provides it: the public key with its format check, the sealed private key. */
  datatype Keys = Keys(key: string, valid: bool, sealed: bool)

  datatype Call =
    | Create(id: ID, user: ID, name: string, keys: Keys, on: Option<ID>, fallback: Option<ID>)
    | Delete(id: ID)
    | Rename(id: ID, name: string)
    | SetEnabled(id: ID, enabled: bool)
    | Regenerate(id: ID, keys: Keys)
    | EditPools(of: ID, pools: seq<Prefix>)

  const MAX_NAME := 64

  // ---- what every stored state keeps -----------------------------------------------------

  /** No two devices of an interface share an address. */
  ghost predicate AddressesDistinct(devices: map<ID, Device>) {
    forall d, e | d in devices && e in devices && d != e && devices[d].interface == devices[e].interface ::
      devices[d].ipv4 != devices[e].ipv4
  }

  ghost predicate UniqueRows(devices: map<ID, Device>) {
    forall d, e | d in devices && e in devices && d != e ::
      && devices[d].key != devices[e].key
      && (devices[d].user == devices[e].user ==> devices[d].name != devices[e].name)
  }

  ghost predicate AddressesHoused(interfaces: map<ID, Interface>, devices: map<ID, Device>) {
    && (forall i | i in interfaces :: ValidPools(interfaces[i].pools))
    && (forall d | d in devices ::
          devices[d].interface in interfaces && Housed(interfaces[devices[d].interface].pools, devices[d].ipv4))
  }

  ghost predicate Kept(r: Registry) {
    && AddressesHoused(r.interfaces, r.devices)
    && AddressesDistinct(r.devices)
    && UniqueRows(r.devices)
  }

  /** Interfaces with valid pools and no devices yet: where every run starts. */
  lemma NoDevicesKept(users: map<ID, User>, interfaces: map<ID, Interface>)
    requires forall i | i in interfaces :: ValidPools(interfaces[i].pools)
    ensures Kept(Registry(users, interfaces, map[], {}))
  {
  }

  // ---- queries ---------------------------------------------------------------------------

  predicate PeerWanted(s: Status) {
    s.Active? || s.WaitingFirstConnection?
  }

  function OfUser(devices: map<ID, Device>, user: ID): set<ID> {
    set d | d in devices && devices[d].user == user
  }

  ghost function UsedOn(devices: map<ID, Device>, interface: ID): set<nat> {
    set d | d in devices && devices[d].interface == interface :: devices[d].ipv4
  }

  predicate KeyTaken(devices: map<ID, Device>, key: string) {
    exists d :: d in devices && devices[d].key == key
  }

  predicate NameTaken(devices: map<ID, Device>, user: ID, name: string, but: Option<ID>) {
    exists d :: d in devices && devices[d].user == user && devices[d].name == name && Some(d) != but
  }

  predicate ValidName(name: string) {
    1 <= |Trim(name)| <= MAX_NAME
  }

  // ---- what each call makes of the tables ----------------------------------------------------

  /** The interface of a new device: the requested one, else the user's, else the first enabled one. */
  function Chosen(r: Registry, user: ID, interface: Option<ID>, fallback: Option<ID>): Option<ID>
    requires user in r.users
  {
    if interface.Some? then interface
    else if r.users[user].interface.Some? then r.users[user].interface
    else fallback
  }

  ghost function AfterCreate(r: Registry, id: ID, user: ID, name: string, keys: Keys,
                             interface: Option<ID>, fallback: Option<ID>): Result<Registry, Error>
    requires forall i | i in r.interfaces :: ValidPools(r.interfaces[i].pools)
  {
    if !ValidName(name) || !keys.valid || !keys.sealed then Err(InvalidRequest)
    else if user !in r.users then Err(UserNotFound)
    else if !r.users[user].enabled || !PeerWanted(r.users[user].status) then Err(Forbidden)
    else
      var ifc := Chosen(r, user, interface, fallback);
      if ifc.None? || ifc.value !in r.interfaces || !r.interfaces[ifc.value].enabled then Err(InterfaceNotFound)
      else
        var limit := r.users[user].limit;
        if limit.Some? && |OfUser(r.devices, user)| >= limit.value then Err(LimitReached)
        else if KeyTaken(r.devices, keys.key) then Err(KeyExists)
        else
          assert ValidPools(r.interfaces[ifc.value].pools);
          var a := FirstFree(Blocks(r.interfaces[ifc.value].pools), UsedOn(r.devices, ifc.value));
          if a.None? then Err(PoolExhausted)
          else if NameTaken(r.devices, user, Trim(name), None) then Err(InvalidRequest)
          else if id in r.devices then Err(KeyExists)
          else Ok(r.(devices := r.devices[id := Device(user, ifc.value, Trim(name), a.value, keys.key, true)]))
  }

  function AfterDelete(r: Registry, id: ID): Result<Registry, Error> {
    if id !in r.devices then Err(DeviceNotFound)
    else Ok(r.(devices := r.devices - {id},
               retired := r.retired + {(r.devices[id].interface, r.devices[id].key)}))
  }

  function AfterRename(r: Registry, id: ID, name: string): Result<Registry, Error> {
    if !ValidName(name) then Err(InvalidRequest)
    else if id !in r.devices then Err(DeviceNotFound)
    else if NameTaken(r.devices, r.devices[id].user, Trim(name), Some(id)) then Err(InvalidRequest)
    else Ok(r.(devices := r.devices[id := r.devices[id].(name := Trim(name))]))
  }

  function AfterSetEnabled(r: Registry, id: ID, enabled: bool): Result<Registry, Error> {
    if id !in r.devices then Err(DeviceNotFound)
    else Ok(r.(devices := r.devices[id := r.devices[id].(enabled := enabled)]))
  }

  function AfterRegenerate(r: Registry, id: ID, keys: Keys): Result<Registry, Error> {
    if !keys.valid || !keys.sealed then Err(InvalidRequest)
    else if id !in r.devices then Err(DeviceNotFound)
    else if r.devices[id].key == keys.key then Err(InvalidRequest)
    else if KeyTaken(r.devices, keys.key) then Err(KeyExists)
    else Ok(r.(devices := r.devices[id := r.devices[id].(key := keys.key)],
               retired := r.retired + {(r.devices[id].interface, r.devices[id].key)}))
  }

  /** A pool of the interface that still holds a device. */
  ghost predicate Occupied(devices: map<ID, Device>, interface: ID, p: Prefix)
  {
    exists d :: d in devices && devices[d].interface == interface && Contains(p, devices[d].ipv4)
  }

  function PoolError(f: PoolFault): Error {
    match f
    case BadPool => SubnetInvalid
    case OverlappingPools => SubnetOverlap
  }

  ghost function AfterEditPools(r: Registry, interface: ID, pools: seq<Prefix>): Result<Registry, Error>
    requires forall i | i in r.interfaces :: ValidPools(r.interfaces[i].pools)
  {
    if Fault(pools).Some? then Err(PoolError(Fault(pools).value))
    else if interface !in r.interfaces then Err(InterfaceNotFound)
    else
      var was := r.interfaces[interface].pools;
      assert ValidPools(was);
      FaultExact(pools);
      if pools[0] != was[0] then Err(SubnetInvalid)
      else if exists p :: p in was && p !in pools && Occupied(r.devices, interface, p) then Err(SubnetOverlap)
      else Ok(r.(interfaces := r.interfaces[interface := r.interfaces[interface].(pools := pools)]))
  }

  ghost function After(r: Registry, c: Call): Result<Registry, Error>
    requires Kept(r)
  {
    match c
    case Create(id, user, name, keys, interface, fallback) => AfterCreate(r, id, user, name, keys, interface, fallback)
    case Delete(id) => AfterDelete(r, id)
    case Rename(id, name) => AfterRename(r, id, name)
    case SetEnabled(id, enabled) => AfterSetEnabled(r, id, enabled)
    case Regenerate(id, keys) => AfterRegenerate(r, id, keys)
    case EditPools(interface, pools) => AfterEditPools(r, interface, pools)
  }

  // ---- every call keeps the tables -----------------------------------------------------------

  lemma CreateKeeps(r: Registry, id: ID, user: ID, name: string, keys: Keys, interface: Option<ID>, fallback: Option<ID>)
    requires Kept(r) && AfterCreate(r, id, user, name, keys, interface, fallback).Ok?
    ensures Kept(AfterCreate(r, id, user, name, keys, interface, fallback).value)
  {
    var ifc := Chosen(r, user, interface, fallback).value;
    var pools := r.interfaces[ifc].pools;
    var used := UsedOn(r.devices, ifc);
    FirstFreeHoused(pools, used);
    var a := FirstFree(Blocks(pools), used).value;
    var d := Device(user, ifc, Trim(name), a, keys.key, true);
    NewDeviceFits(r.devices, id, d);
    HousedPut(r, id, d);
  }

  lemma NewDeviceFits(devices: map<ID, Device>, id: ID, d: Device)
    requires AddressesDistinct(devices) && UniqueRows(devices) && id !in devices
    requires d.ipv4 !in UsedOn(devices, d.interface)
    requires !KeyTaken(devices, d.key) && !NameTaken(devices, d.user, d.name, None)
    ensures AddressesDistinct(devices[id := d]) && UniqueRows(devices[id := d])
  {
    forall e | e in devices
      ensures devices[e].key != d.key
      ensures devices[e].user == d.user ==> devices[e].name != d.name
      ensures devices[e].interface == d.interface ==> devices[e].ipv4 != d.ipv4
    {
      assert Some(e) != None;
    }
  }

  lemma HousedPut(r: Registry, id: ID, d: Device)
    requires AddressesHoused(r.interfaces, r.devices)
    requires d.interface in r.interfaces && Housed(r.interfaces[d.interface].pools, d.ipv4)
    ensures AddressesHoused(r.interfaces, r.devices[id := d])
  {
  }

  lemma EditUnique(devices: map<ID, Device>, id: ID, d: Device)
    requires UniqueRows(devices) && id in devices && d.user == devices[id].user
    requires d.key == devices[id].key || !KeyTaken(devices, d.key)
    requires d.name == devices[id].name || !NameTaken(devices, d.user, d.name, Some(id))
    ensures UniqueRows(devices[id := d])
  {
    forall e | e in devices && e != id
      ensures devices[e].key != d.key
      ensures devices[e].user == d.user ==> devices[e].name != d.name
    {
      assert Some(e) != Some(id);
    }
  }

  /** Rewriting a row without touching its interface, address or owner. */
  lemma EditKeeps(r: Registry, id: ID, d: Device)
    requires Kept(r) && id in r.devices
    requires d.interface == r.devices[id].interface && d.ipv4 == r.devices[id].ipv4 && d.user == r.devices[id].user
    requires d.key == r.devices[id].key || !KeyTaken(r.devices, d.key)
    requires d.name == r.devices[id].name || !NameTaken(r.devices, d.user, d.name, Some(id))
    ensures AddressesDistinct(r.devices[id := d]) && UniqueRows(r.devices[id := d])
    ensures AddressesHoused(r.interfaces, r.devices[id := d])
  {
    EditUnique(r.devices, id, d);
    HousedPut(r, id, d);
  }

  lemma EditPoolsKeeps(r: Registry, interface: ID, pools: seq<Prefix>)
    requires Kept(r) && AfterEditPools(r, interface, pools).Ok?
    ensures Kept(AfterEditPools(r, interface, pools).value)
  {
    FaultExact(pools);
    var was := r.interfaces[interface].pools;
    var h := AfterEditPools(r, interface, pools).value;
    forall d | d in h.devices
      ensures h.devices[d].interface in h.interfaces
      ensures Housed(h.interfaces[h.devices[d].interface].pools, h.devices[d].ipv4)
    {
      var a := r.devices[d].ipv4;
      assert Housed(r.interfaces[r.devices[d].interface].pools, a);
      if r.devices[d].interface == interface {
        var p := HousedInPool(was, a);
        assert Occupied(r.devices, interface, p);
        PoolHouses(pools, p, a);
      }
    }
  }

  lemma StepKeeps(r: Registry, c: Call)
    requires Kept(r) && After(r, c).Ok?
    ensures Kept(After(r, c).value)
  {
    match c
    case Create(id, user, name, keys, interface, fallback) => CreateKeeps(r, id, user, name, keys, interface, fallback);
    case Delete(id) =>
    case Rename(id, name) => EditKeeps(r, id, r.devices[id].(name := Trim(name)));
    case SetEnabled(id, enabled) => EditKeeps(r, id, r.devices[id].(enabled := enabled));
    case Regenerate(id, keys) => EditKeeps(r, id, r.devices[id].(key := keys.key));
    case EditPools(interface, pools) => EditPoolsKeeps(r, interface, pools);
  }

  /** The tables after any run of calls: addresses stay distinct and are device addresses of a pool. */
  ghost function Reached(r: Registry, calls: seq<Call>): (s: Registry)
    requires Kept(r)
    ensures Kept(s)
    decreases |calls|
  {
    if calls == [] then r
    else
      var n := |calls| - 1;
      var before := Reached(r, calls[..n]);
      if After(before, calls[n]).Ok? then
        StepKeeps(before, calls[n]);
        After(before, calls[n]).value
      else before
  }

  // ---- what the calls mean --------------------------------------------------------------------

  /** The address of `d` lies strictly between gateway and broadcast address of a pool of its interface. */
  ghost predicate StrictlyInside(now: Registry, d: ID)
    requires d in now.devices
  {
    var dev := now.devices[d];
    && dev.interface in now.interfaces
    && exists p :: p in now.interfaces[dev.interface].pools && Base(p) + 1 < dev.ipv4 < Base(p) + Size(p) - 1
  }

  /** After any run of calls no device has a network, gateway or broadcast address. */
  lemma ReachedAddresses(r: Registry, calls: seq<Call>, d: ID)
    requires Kept(r) && d in Reached(r, calls).devices
    ensures StrictlyInside(Reached(r, calls), d)
  {
    var now := Reached(r, calls);
    HousedStrictlyInside(now.interfaces[now.devices[d].interface].pools, now.devices[d].ipv4);
  }

  /** In particular from a node without devices: addresses distinct per interface and strictly inside a pool of it. */
  lemma EveryRunAddresses(users: map<ID, User>, interfaces: map<ID, Interface>, calls: seq<Call>)
    requires forall i | i in interfaces :: ValidPools(interfaces[i].pools)
    ensures Kept(Registry(users, interfaces, map[], {}))
    ensures var now := Reached(Registry(users, interfaces, map[], {}), calls);
            && AddressesDistinct(now.devices)
            && forall d | d in now.devices :: StrictlyInside(now, d)
  {
    NoDevicesKept(users, interfaces);
    var start := Registry(users, interfaces, map[], {});
    forall d | d in Reached(start, calls).devices ensures StrictlyInside(Reached(start, calls), d) {
      ReachedAddresses(start, calls, d);
    }
  }

  lemma CountPut(devices: map<ID, Device>, id: ID, d: Device)
    requires id !in devices
    ensures |OfUser(devices[id := d], d.user)| == |OfUser(devices, d.user)| + 1
  {
    assert OfUser(devices[id := d], d.user) == OfUser(devices, d.user) + {id};
  }

  /** A create that succeeds adds one row under an unused ID, and the user was below the limit. */
  lemma CreatedRow(r: Registry, c: Call) returns (d: Device)
    requires Kept(r) && c.Create? && After(r, c).Ok?
    ensures c.id !in r.devices && After(r, c).value == r.(devices := r.devices[c.id := d]) && d.user == c.user
    ensures c.user in r.users
    ensures r.users[c.user].limit.Some? ==> |OfUser(r.devices, c.user)| < r.users[c.user].limit.value
  {
    d := After(r, c).value.devices[c.id];
  }

  /** A create never takes a user past the limit. */
  lemma LimitHolds(r: Registry, c: Call)
    requires Kept(r) && c.Create? && After(r, c).Ok? && c.user in r.users && r.users[c.user].limit.Some?
    ensures |OfUser(After(r, c).value.devices, c.user)| <= r.users[c.user].limit.value
  {
    var d := CreatedRow(r, c);
    CountPut(r.devices, c.id, d);
  }

  lemma PutThenRemove(devices: map<ID, Device>, id: ID, d: Device)
    requires id !in devices
    ensures devices[id := d] - {id} == devices
  {
  }

  lemma DeletedRow(r: Registry, id: ID)
    requires Kept(r) && id in r.devices
    ensures After(r, Delete(id)).Ok? && After(r, Delete(id)).value.devices == r.devices - {id}
  {
  }

  /** Deleting the device just created frees its address, key and name again. */
  lemma DeleteUndoesCreate(r: Registry, c: Call)
    requires Kept(r) && c.Create? && After(r, c).Ok?
    ensures var there := After(r, c).value;
            Kept(there) && After(there, Delete(c.id)).Ok? &&
            After(there, Delete(c.id)).value.devices == r.devices
  {
    var d := CreatedRow(r, c);
    StepKeeps(r, c);
    DeletedRow(After(r, c).value, c.id);
    PutThenRemove(r.devices, c.id, d);
  }

  /** A device of the interface has the address. */
  ghost predicate AddressTaken(r: Registry, interface: ID, a: nat) {
    exists d :: d in r.devices && r.devices[d].interface == interface && r.devices[d].ipv4 == a
  }

  /** A create that gets as far as the search for an address. */
  ghost predicate ReachesAllocation(r: Registry, c: Call)
    requires c.Create?
  {
    && ValidName(c.name) && c.keys.valid && c.keys.sealed
    && c.user in r.users && r.users[c.user].enabled && PeerWanted(r.users[c.user].status)
    && (var ifc := Chosen(r, c.user, c.on, c.fallback);
        ifc.Some? && ifc.value in r.interfaces && r.interfaces[ifc.value].enabled)
    && (r.users[c.user].limit.Some? ==> |OfUser(r.devices, c.user)| < r.users[c.user].limit.value)
    && !KeyTaken(r.devices, c.keys.key)
  }

  /** What a create that gets there makes of the search. */
  lemma AllocationDecides(r: Registry, c: Call)
    requires Kept(r) && c.Create?
    ensures After(r, c) == Err(PoolExhausted) <==>
              && ReachesAllocation(r, c)
              && var ifc := Chosen(r, c.user, c.on, c.fallback).value;
                 FirstFree(Blocks(r.interfaces[ifc].pools), UsedOn(r.devices, ifc)).None?
  {
  }

  /** The search fails exactly when every device address of the interface is taken. */
  lemma NoneFree(r: Registry, ifc: ID)
    requires Kept(r) && ifc in r.interfaces
    ensures FirstFree(Blocks(r.interfaces[ifc].pools), UsedOn(r.devices, ifc)).None? <==>
              forall a: nat | Housed(r.interfaces[ifc].pools, a) :: AddressTaken(r, ifc, a)
  {
    FirstFreeHoused(r.interfaces[ifc].pools, UsedOn(r.devices, ifc));
    forall a: nat ensures a in UsedOn(r.devices, ifc) <==> AddressTaken(r, ifc, a) {
    }
  }

  /** A create answers that the pool is exhausted exactly when it needs an address and every one of the interface is taken. */
  lemma ExhaustedExactly(r: Registry, c: Call)
    requires Kept(r) && c.Create?
    ensures After(r, c) == Err(PoolExhausted) <==>
              && ReachesAllocation(r, c)
              && var ifc := Chosen(r, c.user, c.on, c.fallback).value;
                 forall a: nat | Housed(r.interfaces[ifc].pools, a) :: AddressTaken(r, ifc, a)
  {
    AllocationDecides(r, c);
    if ReachesAllocation(r, c) {
      NoneFree(r, Chosen(r, c.user, c.on, c.fallback).value);
    }
  }
}
