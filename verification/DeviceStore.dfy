/** The device tables: each call one serialized transaction over the rows. */
module DeviceStore {
  import opened Addresses
  import opened Allocation
  import opened Devices
  import opened Pools
  import opened Text
  import opened Wrappers

  /** One transaction: it commits the new tables, or reports and leaves the old ones. */
  ghost predicate Wrote(outcome: Result<Registry, Error>, before: Registry, after: Registry, e: Option<Error>) {
    match outcome
    case Ok(r) => e == None && after == r
    case Err(error) => e == Some(error) && after == before
  }

  class Store {
    var users: map<ID, User>
    var interfaces: map<ID, Interface>
    var devices: map<ID, Device>
    var retired: set<(ID, string)>

    function R(): Registry
      reads this
    {
      Registry(users, interfaces, devices, retired)
    }

    /** One transaction whose checks need no search. */
    method Commit(outcome: Result<Registry, Error>) returns (e: Option<Error>)
      modifies this
      ensures Wrote(outcome, old(R()), R(), e)
    {
      match outcome
      case Err(error) =>
        e := Some(error);
      case Ok(r) =>
        users, interfaces, devices, retired := r.users, r.interfaces, r.devices, r.retired;
        e := None;
    }

    /** The address scan at the head of allocateIP. */
    method UsedAddresses(interface: ID) returns (used: set<nat>)
      ensures used == UsedOn(devices, interface)
    {
      used := {};
      var rest := devices.Keys;
      while rest != {}
        invariant rest <= devices.Keys
        invariant used == UsedOn(devices - rest, interface)
        decreases |rest|
      {
        var d :| d in rest;
        UsedStep(devices, rest, d, interface);
        if devices[d].interface == interface {
          used := used + {devices[d].ipv4};
        }
        rest := rest - {d};
      }
      assert devices - {} == devices;
    }

    /** The checks and the address of CreateTx, in order, up to the insert. */
    method Prepare(id: ID, user: ID, name: string, keys: Keys, on: Option<ID>, fallback: Option<ID>)
      returns (r: Result<Device, Error>)
      requires Kept(R())
      ensures match AfterCreate(R(), id, user, name, keys, on, fallback)
              case Ok(now) => r.Ok? && now == R().(devices := devices[id := r.value])
              case Err(e) => r == Err(e)
    {
      if !ValidName(name) || !keys.valid || !keys.sealed {
        return Err(InvalidRequest);
      }
      if user !in users {
        return Err(UserNotFound);
      }
      if !users[user].enabled || !PeerWanted(users[user].status) {
        return Err(Forbidden);
      }
      var ifc := Chosen(R(), user, on, fallback);
      if ifc.None? || ifc.value !in interfaces || !interfaces[ifc.value].enabled {
        return Err(InterfaceNotFound);
      }
      if users[user].limit.Some? && |OfUser(devices, user)| >= users[user].limit.value {
        return Err(LimitReached);
      }
      if KeyTaken(devices, keys.key) {
        return Err(KeyExists);
      }
      var used := UsedAddresses(ifc.value);
      assert ValidPools(interfaces[ifc.value].pools);
      var a := AllocateIP(interfaces[ifc.value].pools, used);
      if a.None? {
        return Err(PoolExhausted);
      }
      if NameTaken(devices, user, Trim(name), None) {
        return Err(InvalidRequest);
      }
      if id in devices {
        return Err(KeyExists);
      }
      r := Ok(Device(user, ifc.value, Trim(name), a.value, keys.key, true));
    }

    /** CreateTx: limit check, free address and insert in one transaction. */
    method Add(id: ID, user: ID, name: string, keys: Keys, on: Option<ID>, fallback: Option<ID>)
      returns (e: Option<Error>)
      requires Kept(R())
      modifies this`devices
      ensures Kept(R())
      ensures Wrote(After(old(R()), Create(id, user, name, keys, on, fallback)), old(R()), R(), e)
    {
      var d := Prepare(id, user, name, keys, on, fallback);
      if d.Err? {
        return Some(d.error);
      }
      StepKeeps(R(), Create(id, user, name, keys, on, fallback));
      devices := devices[id := d.value];
      e := None;
    }

    method Remove(id: ID) returns (e: Option<Error>)
      requires Kept(R())
      modifies this
      ensures Kept(R()) && Wrote(After(old(R()), Delete(id)), old(R()), R(), e)
    {
      ghost var before := R();
      e := Commit(AfterDelete(R(), id));
      if e.None? {
        StepKeeps(before, Delete(id));
      }
    }

    method ChangeName(id: ID, name: string) returns (e: Option<Error>)
      requires Kept(R())
      modifies this
      ensures Kept(R()) && Wrote(After(old(R()), Rename(id, name)), old(R()), R(), e)
    {
      ghost var before := R();
      e := Commit(AfterRename(R(), id, name));
      if e.None? {
        StepKeeps(before, Rename(id, name));
      }
    }

    method Toggle(id: ID, enabled: bool) returns (e: Option<Error>)
      requires Kept(R())
      modifies this
      ensures Kept(R()) && Wrote(After(old(R()), SetEnabled(id, enabled)), old(R()), R(), e)
    {
      ghost var before := R();
      e := Commit(AfterSetEnabled(R(), id, enabled));
      if e.None? {
        StepKeeps(before, SetEnabled(id, enabled));
      }
    }

    method Rekey(id: ID, keys: Keys) returns (e: Option<Error>)
      requires Kept(R())
      modifies this
      ensures Kept(R()) && Wrote(After(old(R()), Regenerate(id, keys)), old(R()), R(), e)
    {
      ghost var before := R();
      e := Commit(AfterRegenerate(R(), id, keys));
      if e.None? {
        StepKeeps(before, Regenerate(id, keys));
      }
    }

    /** Whether a removed pool still holds a device of the interface. */
    method AnyOccupied(of: ID, removed: seq<Prefix>) returns (found: bool)
      ensures found <==> exists p :: p in removed && Occupied(devices, of, p)
    {
      var rest := devices.Keys;
      while rest != {}
        invariant rest <= devices.Keys
        invariant forall d, p | d in devices && d !in rest && p in removed ::
                    !(devices[d].interface == of && Contains(p, devices[d].ipv4))
        decreases |rest|
      {
        var d :| d in rest;
        if devices[d].interface == of {
          for i := 0 to |removed|
            invariant forall k | 0 <= k < i :: !Contains(removed[k], devices[d].ipv4)
          {
            if Contains(removed[i], devices[d].ipv4) {
              assert Occupied(devices, of, removed[i]);
              return true;
            }
          }
        }
        rest := rest - {d};
      }
      found := false;
    }

    /** The pools of the old list that the new one drops. */
    static method Removed(was: seq<Prefix>, pools: seq<Prefix>) returns (removed: seq<Prefix>)
      ensures forall p :: p in removed <==> p in was && p !in pools
    {
      removed := [];
      for i := 0 to |was|
        invariant forall p :: p in removed <==> p in was[..i] && p !in pools
      {
        assert was[..i + 1] == was[..i] + [was[i]];
        if was[i] !in pools {
          removed := removed + [was[i]];
        }
      }
      assert was[..|was|] == was;
    }

    /** The checks of updatePoolsTx in order: the primary pool stays, and an occupied pool cannot go. */
    method CheckPools(of: ID, pools: seq<Prefix>) returns (e: Option<Error>)
      requires Kept(R())
      ensures match AfterEditPools(R(), of, pools)
              case Ok(now) =>
                e == None && of in interfaces && now == R().(interfaces := interfaces[of := interfaces[of].(pools := pools)])
              case Err(error) => e == Some(error)
    {
      var fault := Validate(pools);
      if fault.Some? {
        return Some(PoolError(fault.value));
      }
      FaultExact(pools);
      if of !in interfaces {
        return Some(InterfaceNotFound);
      }
      var was := interfaces[of].pools;
      assert ValidPools(was);
      if pools[0] != was[0] {
        return Some(SubnetInvalid);
      }
      var removed := Removed(was, pools);
      var occupied := AnyOccupied(of, removed);
      e := if occupied then Some(SubnetOverlap) else None;
    }

    /** updatePoolsTx: the checks and the write. */
    method UpdatePools(of: ID, pools: seq<Prefix>) returns (e: Option<Error>)
      requires Kept(R())
      modifies this`interfaces
      ensures Kept(R()) && Wrote(After(old(R()), EditPools(of, pools)), old(R()), R(), e)
    {
      e := CheckPools(of, pools);
      if e.None? {
        StepKeeps(R(), EditPools(of, pools));
        interfaces := interfaces[of := interfaces[of].(pools := pools)];
      }
    }
  }

  lemma UsedStep(devices: map<ID, Device>, rest: set<ID>, d: ID, interface: ID)
    requires rest <= devices.Keys && d in rest
    ensures UsedOn(devices - (rest - {d}), interface) ==
              UsedOn(devices - rest, interface) + (if devices[d].interface == interface then {devices[d].ipv4} else {})
  {
    var was := devices - rest;
    var now := devices - (rest - {d});
    assert now == was[d := devices[d]];
    forall a ensures a in UsedOn(now, interface) <==>
        a in UsedOn(was, interface) || (devices[d].interface == interface && a == devices[d].ipv4)
    {
      if a in UsedOn(was, interface) {
        var x :| x in was && was[x].interface == interface && was[x].ipv4 == a;
        assert x in now && now[x] == was[x];
      }
      if a in UsedOn(now, interface) {
        var x :| x in now && now[x].interface == interface && now[x].ipv4 == a;
        assert x != d ==> x in was;
      }
      if devices[d].interface == interface && a == devices[d].ipv4 {
        assert d in now;
      }
    }
  }
}
