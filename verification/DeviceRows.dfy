/**
 What the device calls store: when each one goes through, which row it leaves,
 and that it touches no other one.
 */
module DeviceRows {
  import opened Addresses
  import opened Allocation
  import opened Devices
  import opened Pools
  import opened Text
  import opened Wrappers

  /** 1 to 64 characters once trimmed. */
  predicate GoodName(name: string) {
    1 <= |Trim(name)| <= 64
  }

  /** No other device of the user has the trimmed name. */
  predicate FreeName(r: Registry, user: ID, name: string, but: Option<ID>) {
    forall d | d in r.devices && r.devices[d].user == user && Some(d) != but :: r.devices[d].name != Trim(name)
  }

  predicate FreeKey(r: Registry, key: string) {
    forall d | d in r.devices :: r.devices[d].key != key
  }

  /** One row is written and every other one stays. */
  ghost predicate Put(before: map<ID, Device>, id: ID, after: map<ID, Device>) {
    && after.Keys == before.Keys + {id}
    && forall d | d in before && d != id :: after[d] == before[d]
  }

  // ---- creating ---------------------------------------------------------------------------

  /** The interface asked for comes first, then the one of the user, then the one that is left. */
  lemma ChosenOrder(r: Registry, c: Call)
    requires c.Create? && c.user in r.users
    ensures var ifc := Chosen(r, c.user, c.on, c.fallback);
            && (c.on.Some? ==> ifc == c.on)
            && (c.on.None? && r.users[c.user].interface.Some? ==> ifc == r.users[c.user].interface)
            && (c.on.None? && r.users[c.user].interface.None? ==> ifc == c.fallback)
  {
  }

  /** An active or waiting user below the limit, with a fresh key, on an enabled interface. */
  predicate MayCreate(r: Registry, c: Call)
    requires c.Create?
  {
    && GoodName(c.name) && c.keys.valid && c.keys.sealed && FreeKey(r, c.keys.key)
    && c.user in r.users && r.users[c.user].enabled
    && (r.users[c.user].status == Active || r.users[c.user].status == WaitingFirstConnection)
    && (r.users[c.user].limit.Some? ==> |OfUser(r.devices, c.user)| < r.users[c.user].limit.value)
    && var ifc := Chosen(r, c.user, c.on, c.fallback);
       ifc.Some? && ifc.value in r.interfaces && r.interfaces[ifc.value].enabled
  }

  /** Some device address of the interface is not taken. */
  ghost predicate HasRoom(r: Registry, ifc: ID)
    requires Kept(r) && ifc in r.interfaces
  {
    exists a: nat :: Housed(r.interfaces[ifc].pools, a) && !AddressTaken(r, ifc, a)
  }

  lemma MayCreateExactly(r: Registry, c: Call)
    requires c.Create?
    ensures MayCreate(r, c) <==> ReachesAllocation(r, c)
  {
  }

  /** Past the checks, a create needs an address, a free name and an unused ID. */
  lemma CreatedWhen(r: Registry, c: Call)
    requires Kept(r) && c.Create?
    ensures After(r, c).Ok? <==>
              && ReachesAllocation(r, c) && After(r, c) != Err(PoolExhausted)
              && !NameTaken(r.devices, c.user, Trim(c.name), None) && c.id !in r.devices
  {
  }

  /** A create goes through exactly for a user who may, while there is room. */
  lemma CreateExactly(r: Registry, c: Call)
    requires Kept(r) && c.Create?
    ensures After(r, c).Ok? <==>
              && MayCreate(r, c) && FreeName(r, c.user, c.name, None) && c.id !in r.devices
              && HasRoom(r, Chosen(r, c.user, c.on, c.fallback).value)
  {
    MayCreateExactly(r, c);
    ExhaustedExactly(r, c);
    CreatedWhen(r, c);
    assert NameTaken(r.devices, c.user, Trim(c.name), None) <==> !FreeName(r, c.user, c.name, None);
  }

  /** The row holds what was asked for, at an address nobody on the interface has. */
  ghost predicate HoldsDevice(d: Device, r: Registry, c: Call)
    requires Kept(r) && c.Create? && c.user in r.users
  {
    && d.user == c.user && d.name == Trim(c.name) && d.key == c.keys.key && d.enabled
    && Some(d.interface) == Chosen(r, c.user, c.on, c.fallback)
    && d.interface in r.interfaces && Housed(r.interfaces[d.interface].pools, d.ipv4)
    && !AddressTaken(r, d.interface, d.ipv4)
  }

  lemma CreateStores(r: Registry, c: Call)
    requires Kept(r) && c.Create? && After(r, c).Ok?
    ensures var s := After(r, c).value;
            && s == r.(devices := s.devices) && Put(r.devices, c.id, s.devices)
            && c.user in r.users && HoldsDevice(s.devices[c.id], r, c)
  {
    var d := StoredDevice(r, c.id, c.user, c.name, c.keys, c.on, c.fallback);
    FirstFreeHoused(r.interfaces[d.interface].pools, UsedOn(r.devices, d.interface));
    NotTaken(r, d.interface, d.ipv4);
  }

  lemma StoredDevice(r: Registry, id: ID, user: ID, name: string, keys: Keys, on: Option<ID>, fallback: Option<ID>)
    returns (d: Device)
    requires forall i | i in r.interfaces :: ValidPools(r.interfaces[i].pools)
    requires AfterCreate(r, id, user, name, keys, on, fallback).Ok?
    ensures AfterCreate(r, id, user, name, keys, on, fallback).value == r.(devices := r.devices[id := d])
    ensures user in r.users && Some(d.interface) == Chosen(r, user, on, fallback) && d.interface in r.interfaces
    ensures d == Device(user, d.interface, Trim(name), d.ipv4, keys.key, true)
    ensures FirstFree(Blocks(r.interfaces[d.interface].pools), UsedOn(r.devices, d.interface)) == Some(d.ipv4)
  {
    d := AfterCreate(r, id, user, name, keys, on, fallback).value.devices[id];
  }

  lemma NotTaken(r: Registry, ifc: ID, a: nat)
    requires a !in UsedOn(r.devices, ifc)
    ensures !AddressTaken(r, ifc, a)
  {
  }

  /** The fault a refused create names. */
  ghost predicate BlamesCreate(r: Registry, c: Call, e: Error)
    requires c.Create?
  {
    || (e.InvalidRequest? && !(GoodName(c.name) && c.keys.valid && c.keys.sealed && FreeName(r, c.user, c.name, None)))
    || (e.UserNotFound? && c.user !in r.users)
    || (e.KeyExists? && (!FreeKey(r, c.keys.key) || c.id in r.devices))
    || (c.user in r.users && BlamesUser(r, c, e))
  }

  ghost predicate BlamesUser(r: Registry, c: Call, e: Error)
    requires c.Create? && c.user in r.users
  {
    var u, ifc := r.users[c.user], Chosen(r, c.user, c.on, c.fallback);
    || (e.Forbidden? && !(u.enabled && (u.status == Active || u.status == WaitingFirstConnection)))
    || (e.InterfaceNotFound? && !(ifc.Some? && ifc.value in r.interfaces && r.interfaces[ifc.value].enabled))
    || (e.LimitReached? && u.limit.Some? && |OfUser(r.devices, c.user)| >= u.limit.value)
    || (e.PoolExhausted? && ifc.Some? && ifc.value in r.interfaces
        && forall a: nat | Housed(r.interfaces[ifc.value].pools, a) :: AddressTaken(r, ifc.value, a))
  }

  /** A create is refused for a fault it has. */
  lemma CreateRefusals(r: Registry, c: Call)
    requires Kept(r) && c.Create? && After(r, c).Err?
    ensures BlamesCreate(r, c, After(r, c).error)
  {
    ExhaustedExactly(r, c);
    CreateFault(r, c.id, c.user, c.name, c.keys, c.on, c.fallback);
  }

  lemma CreateFault(r: Registry, id: ID, user: ID, name: string, keys: Keys, on: Option<ID>, fallback: Option<ID>)
    requires forall i | i in r.interfaces :: ValidPools(r.interfaces[i].pools)
    requires AfterCreate(r, id, user, name, keys, on, fallback).Err?
    ensures var c, e := Create(id, user, name, keys, on, fallback), AfterCreate(r, id, user, name, keys, on, fallback).error;
            e.PoolExhausted? || BlamesCreate(r, c, e)
  {
  }

  // ---- the other calls ----------------------------------------------------------------------

  lemma RenameExactly(r: Registry, id: ID, name: string)
    ensures AfterRename(r, id, name).Ok? <==>
              id in r.devices && GoodName(name) && FreeName(r, r.devices[id].user, name, Some(id))
    ensures AfterRename(r, id, name).Ok? ==>
      AfterRename(r, id, name).value == r.(devices := r.devices[id := r.devices[id].(name := Trim(name))])
  {
  }

  lemma SetEnabledExactly(r: Registry, id: ID, enabled: bool)
    ensures AfterSetEnabled(r, id, enabled) ==
              if id in r.devices then Ok(r.(devices := r.devices[id := r.devices[id].(enabled := enabled)]))
              else Err(DeviceNotFound)
  {
  }

  /** The key a device had, with its interface. */
  function Peer(r: Registry, id: ID): (ID, string)
    requires id in r.devices
  {
    (r.devices[id].interface, r.devices[id].key)
  }

  /** A deletion removes one row and notes its peer for removal. */
  lemma DeleteExactly(r: Registry, id: ID)
    ensures AfterDelete(r, id) ==
              if id in r.devices then Ok(r.(devices := r.devices - {id}, retired := r.retired + {Peer(r, id)}))
              else Err(DeviceNotFound)
  {
  }

  /** A new key pair takes the place of the old one, whose peer is noted for removal. */
  lemma RegenerateExactly(r: Registry, id: ID, keys: Keys)
    ensures AfterRegenerate(r, id, keys).Ok? <==> id in r.devices && keys.valid && keys.sealed && FreeKey(r, keys.key)
    ensures AfterRegenerate(r, id, keys).Ok? ==>
      AfterRegenerate(r, id, keys).value ==
        r.(devices := r.devices[id := r.devices[id].(key := keys.key)], retired := r.retired + {Peer(r, id)})
  {
  }

  /** No device of the interface has its address in a pool that goes. */
  ghost predicate PoolsFree(r: Registry, of: ID, pools: seq<Prefix>)
    requires of in r.interfaces
  {
    forall d, p | d in r.devices && r.devices[d].interface == of && p in r.interfaces[of].pools
                  && Contains(p, r.devices[d].ipv4) :: p in pools
  }

  lemma PoolsFreeExactly(r: Registry, of: ID, pools: seq<Prefix>)
    requires of in r.interfaces
    ensures PoolsFree(r, of, pools) <==>
              !exists p :: p in r.interfaces[of].pools && p !in pools && Occupied(r.devices, of, p)
  {
    if !PoolsFree(r, of, pools) {
      var d, p :| d in r.devices && r.devices[d].interface == of && p in r.interfaces[of].pools
                  && Contains(p, r.devices[d].ipv4) && p !in pools;
      assert Occupied(r.devices, of, p);
    }
  }

  /** The same primary pool. */
  predicate SamePrimary(r: Registry, of: ID, pools: seq<Prefix>)
    requires of in r.interfaces
  {
    |pools| > 0 && |r.interfaces[of].pools| > 0 && pools[0] == r.interfaces[of].pools[0]
  }

  lemma EditedPoolsWhen(r: Registry, of: ID, pools: seq<Prefix>)
    requires forall i | i in r.interfaces :: ValidPools(r.interfaces[i].pools)
    ensures AfterEditPools(r, of, pools).Ok? <==>
              && Fault(pools).None? && of in r.interfaces && SamePrimary(r, of, pools)
              && !exists p :: p in r.interfaces[of].pools && p !in pools && Occupied(r.devices, of, p)
    ensures AfterEditPools(r, of, pools).Ok? ==>
      AfterEditPools(r, of, pools).value ==
        r.(interfaces := r.interfaces[of := r.interfaces[of].(pools := pools)])
  {
    FaultExact(pools);
  }

  /** Pools are replaced exactly when valid, with the same primary one and without dropping one in use. */
  lemma EditPoolsExactly(r: Registry, of: ID, pools: seq<Prefix>)
    requires forall i | i in r.interfaces :: ValidPools(r.interfaces[i].pools)
    ensures AfterEditPools(r, of, pools).Ok? <==>
              ValidPools(pools) && of in r.interfaces && SamePrimary(r, of, pools) && PoolsFree(r, of, pools)
    ensures AfterEditPools(r, of, pools).Ok? ==>
      AfterEditPools(r, of, pools).value ==
        r.(interfaces := r.interfaces[of := r.interfaces[of].(pools := pools)])
  {
    FaultExact(pools);
    EditedPoolsWhen(r, of, pools);
    if of in r.interfaces {
      PoolsFreeExactly(r, of, pools);
    }
  }

  /** Two of the pools overlap. */
  ghost predicate SomeOverlap(pools: seq<Prefix>) {
    exists i, j :: 0 <= i < j < |pools| && Overlaps(pools[j], pools[i])
  }

  lemma EditedPoolsError(r: Registry, of: ID, pools: seq<Prefix>)
    requires forall i | i in r.interfaces :: ValidPools(r.interfaces[i].pools)
    requires AfterEditPools(r, of, pools).Err?
    ensures AfterEditPools(r, of, pools).error ==
              if Fault(pools).Some? then (if Fault(pools).value.BadPool? then SubnetInvalid else SubnetOverlap)
              else if of !in r.interfaces then InterfaceNotFound
              else if !SamePrimary(r, of, pools) then SubnetInvalid else SubnetOverlap
  {
    FaultExact(pools);
  }

  /** What a refused edit of the pools says. */
  lemma EditPoolsRefusals(r: Registry, of: ID, pools: seq<Prefix>)
    requires forall i | i in r.interfaces :: ValidPools(r.interfaces[i].pools)
    requires AfterEditPools(r, of, pools).Err?
    ensures var e := AfterEditPools(r, of, pools).error;
            || (e.InterfaceNotFound? && of !in r.interfaces)
            || (e.SubnetOverlap? && (SomeOverlap(pools) || (of in r.interfaces && !PoolsFree(r, of, pools))))
            || (e.SubnetInvalid? && (BadPools(pools) || (of in r.interfaces && !SamePrimary(r, of, pools))))
  {
    FaultNamed(pools);
    EditedPoolsError(r, of, pools);
    if of in r.interfaces {
      EditedPoolsWhen(r, of, pools);
      PoolsFreeExactly(r, of, pools);
    }
  }

  /** Too few or too many pools, or one that is no pool. */
  ghost predicate BadPools(pools: seq<Prefix>) {
    !(1 <= |pools| <= 16) || exists i :: 0 <= i < |pools| && !PoolOk(pools[i])
  }
}
