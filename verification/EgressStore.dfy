/**
 The routing store itself: four tables, each call one transaction that checks,
 searches and rewrites rows in loops.
 */
module EgressStore {
  import opened Text
  import opened Wrappers
  import opened Egress
  import opened EgressOrder
  import opened EgressSafety

  /** One transaction: it commits the new state, or reports and leaves the old one. */
  ghost predicate Wrote(outcome: Result<Graph, Error>, before: Graph, after: Graph, r: Option<Error>) {
    match outcome
    case Ok(g) => r == None && after == g
    case Err(e) => r == Some(e) && after == before
  }

  /** A service call answered as specified. */
  ghost predicate Served(before: Graph, c: Call, after: Graph, r: Option<Error>)
    requires PositionsDistinct(before.rules)
  {
    Wrote(After(before, c), before, after, r)
  }

  class Store {
    var outbounds: map<ID, Outbound>
    var balancers: map<ID, Balancer>
    var rules: map<ID, Rule>
    var default: Target

    function G(): Graph
      reads this
    {
      Graph(outbounds, balancers, rules, default)
    }

    constructor ()
      ensures G() == EMPTY && Integrity(G())
    {
      outbounds, balancers, rules, default := map[], map[], map[], Direct;
    }

    /** One transaction whose checks need no search. */
    method Commit(outcome: Result<Graph, Error>) returns (r: Option<Error>)
      modifies this
      ensures Wrote(outcome, old(G()), G(), r)
    {
      match outcome
      case Err(e) =>
        r := Some(e);
      case Ok(g) =>
        outbounds, balancers, rules, default := g.outbounds, g.balancers, g.rules, g.default;
        r := None;
    }

    // ---- queries ------------------------------------------------------------------------

    /** The slot search of insertOutbound: read the used slots, then count up. */
    method FindSlot() returns (slot: int)
      ensures slot == FreeSlot(outbounds, 1)
    {
      var used: set<int> := {};
      var rest := outbounds.Keys;
      while rest != {}
        invariant rest <= outbounds.Keys
        invariant forall k :: k in used <==> exists i :: i in outbounds && i !in rest && outbounds[i].slot == k
        decreases |rest|
      {
        var i :| i in rest;
        ghost var before, restBefore := used, rest;
        used := used + {outbounds[i].slot};
        rest := rest - {i};
        UsedStep(outbounds, restBefore, before, i);
      }
      forall k ensures k in used <==> SlotUsed(outbounds, k) {
      }
      var n := 1;
      while n <= MAX_SLOTS
        invariant 1 <= n <= MAX_SLOTS + 1
        invariant FreeSlot(outbounds, 1) == FreeSlot(outbounds, n)
      {
        if n !in used {
          return n;
        }
        n := n + 1;
      }
      slot := 0;
    }

    /** The scan of validateVia for tunnels chained through this one. */
    method AnyChained(id: ID) returns (found: bool)
      ensures found <==> ChainedThrough(outbounds, id)
    {
      var rest := outbounds.Keys;
      while rest != {}
        invariant rest <= outbounds.Keys
        invariant forall i | i in outbounds && i !in rest ::
                    !(outbounds[i].tunnel.Some? && outbounds[i].tunnel.value.via == id)
        decreases |rest|
      {
        var i :| i in rest;
        if outbounds[i].tunnel.Some? && outbounds[i].tunnel.value.via == id {
          return true;
        }
        rest := rest - {i};
      }
      found := false;
    }

    method ValidateVia(id: ID, via: ID) returns (e: Option<Error>)
      ensures e == CheckVia(outbounds, id, via)
    {
      if via == NONE {
        return None;
      }
      if via == id {
        return Some(Invalid(ViaSelf));
      }
      if via !in outbounds {
        return Some(Invalid(ViaUnknown));
      }
      var v := outbounds[via];
      if !Tunneled(v.kind) || v.tunnel.None? {
        return Some(Invalid(ViaNotTunnel));
      }
      if v.tunnel.value.via != NONE {
        return Some(Invalid(ViaChained));
      }
      var chained := AnyChained(id);
      e := if chained then Some(Invalid(ViaInUse)) else None;
    }

    method AnyRuleTo(t: Target) returns (found: bool)
      ensures found <==> exists r :: r in rules && rules[r].target == t
    {
      var rest := rules.Keys;
      while rest != {}
        invariant rest <= rules.Keys
        invariant forall r | r in rules && r !in rest :: rules[r].target != t
        decreases |rest|
      {
        var r :| r in rest;
        if rules[r].target == t {
          return true;
        }
        rest := rest - {r};
      }
      found := false;
    }

    method ListsMember(b: Balancer, id: ID) returns (found: bool)
      ensures found <==> HasMember(b, id)
    {
      for i := 0 to |b.members|
        invariant forall m | m in b.members[..i] :: m.outbound != id
      {
        if b.members[i].outbound == id {
          return true;
        }
        assert b.members[..i + 1] == b.members[..i] + [b.members[i]];
      }
      assert b.members[..|b.members|] == b.members;
      found := false;
    }

    method AnyBalancerOver(id: ID) returns (found: bool)
      ensures found <==> exists b :: b in balancers && HasMember(balancers[b], id)
    {
      var rest := balancers.Keys;
      while rest != {}
        invariant rest <= balancers.Keys
        invariant forall b | b in balancers && b !in rest :: !HasMember(balancers[b], id)
        decreases |rest|
      {
        var b :| b in rest;
        var lists := ListsMember(balancers[b], id);
        if lists {
          return true;
        }
        rest := rest - {b};
      }
      found := false;
    }

    /** Whether anything routes through the target. */
    method References(t: Target) returns (found: bool)
      ensures found <==> Referenced(G(), t)
    {
      if t.ToOutbound? {
        var chained := AnyChained(t.id);
        if chained {
          return true;
        }
      }
      var ruled := AnyRuleTo(t);
      if ruled {
        return true;
      }
      if t.ToOutbound? {
        var listed := AnyBalancerOver(t.id);
        if listed {
          return true;
        }
      }
      found := default == t;
    }

    /** The rule with the greatest position. */
    static method FindLast(rules: map<ID, Rule>) returns (last: ID)
      requires PositionsDistinct(rules) && rules != map[]
      ensures IsLastRule(rules, last)
    {
      last :| last in rules;
      var rest := rules.Keys - {last};
      while rest != {}
        invariant rest <= rules.Keys && last in rules && last !in rest
        invariant forall s | s in rules && s !in rest && s != last :: rules[s].position < rules[last].position
        decreases |rest|
      {
        var r :| r in rest;
        if rules[r].position > rules[last].position {
          last := r;
        }
        rest := rest - {r};
      }
    }

    /** The greatest position, 0 without rules. */
    static method MaxPosition(rules: map<ID, Rule>) returns (n: int)
      requires PositionsDistinct(rules)
      ensures n == LastPosition(rules)
    {
      n := 0;
      if rules != map[] {
        var last := FindLast(rules);
        n := rules[last].position;
      }
      assert IsLast(rules, LastPosition(rules));
    }

    /** Rule IDs ordered by position. */
    static method Sorted(rules: map<ID, Rule>) returns (ids: seq<ID>)
      requires PositionsDistinct(rules)
      ensures ids == Order(rules)
      decreases |rules|
    {
      ids := [];
      if rules != map[] {
        var last := FindLast(rules);
        assert (rules - {last}).Keys == rules.Keys - {last};
        ids := Sorted(rules - {last});
        OrderSnoc(ids, rules, last);
        ids := ids + [last];
      }
      OrderUnique(ids, Order(rules), rules);
    }

    // ---- outbounds ----------------------------------------------------------------------

    method Create(id: ID, name: string, exit: Exit) returns (r: Option<Error>)
      requires Integrity(G()) && WellFormed(CreateOutbound(id, name, exit))
      modifies this
      ensures Integrity(G()) && Served(old(G()), CreateOutbound(id, name, exit), G(), r)
    {
      StepKeeps(G(), CreateOutbound(id, name, exit));
      r := InsertOutbound(id, name, exit);
    }

    /** insertOutbound: the checks in order, the slot search and the insert. */
    method InsertOutbound(id: ID, name: string, exit: Exit) returns (r: Option<Error>)
      modifies this
      ensures Wrote(AfterCreateOutbound(old(G()), id, name, exit), old(G()), G(), r)
    {
      if CheckName(name).Some? {
        return CheckName(name);
      }
      if exit.NewSource? && !(exit.address.Given? && exit.address.wellFormed) {
        return Some(Invalid(SourceIPInvalid));
      }
      var slot := FindSlot();
      if slot == 0 {
        return Some(Invalid(OutboundsFull));
      }
      var o := NewOutbound(name, exit, slot);
      if id in outbounds || NameTakenBy(outbounds, o.name, id) {
        return Some(Invalid(NameTaken));
      }
      outbounds := outbounds[id := o];
      r := None;
    }

    /** updateOutboundRow: the one write of every outbound edit. */
    method WriteRow(id: ID, o: Outbound) returns (r: Option<Error>)
      requires id in outbounds
      modifies this
      ensures Wrote(Stored(old(G()), id, o), old(G()), G(), r)
    {
      r := Commit(Stored(G(), id, o));
    }

    method ApplyTunnelEdit(id: ID, o: Outbound, edit: OutboundInput) returns (t: Result<Tunnel, Error>)
      requires o.tunnel.Some?
      ensures t == EditTunnel(G(), id, o, o.tunnel.value, edit)
    {
      t := EditEndpoint(o.tunnel.value, edit);
      if t.Err? {
        return;
      }
      var via := t.value.via;
      if edit.via.Some? {
        via := edit.via.value;
        var e := ValidateVia(id, via);
        if e.Some? {
          return Err(e.value);
        }
      }
      t := EditBridge(o, t.value.(via := via), edit);
    }

    method Edit(id: ID, edit: OutboundInput) returns (r: Option<Error>)
      requires Integrity(G())
      modifies this
      ensures Integrity(G()) && Served(old(G()), UpdateOutbound(id, edit), G(), r)
    {
      StepKeeps(G(), UpdateOutbound(id, edit));
      r := EditRow(id, edit);
    }

    method EditRow(id: ID, edit: OutboundInput) returns (r: Option<Error>)
      modifies this
      ensures Wrote(AfterUpdateOutbound(old(G()), id, edit), old(G()), G(), r)
    {
      if id !in outbounds {
        return Some(NotFound);
      }
      var o := outbounds[id];
      if edit.name != "" {
        if CheckName(edit.name).Some? {
          return CheckName(edit.name);
        }
        o := o.(name := Trim(edit.name));
      }
      if edit.enabled.Some? {
        o := o.(enabled := edit.enabled.value);
      }
      var e := EditExit(id, o, edit);
      assert Edited(G(), id, edit) == e;
      if e.Err? {
        return Some(e.error);
      }
      r := WriteRow(id, e.value);
    }

    /** The part of an edit that depends on the kind of the outbound. */
    method EditExit(id: ID, o: Outbound, edit: OutboundInput) returns (r: Result<Outbound, Error>)
      ensures r ==
              if Tunneled(o.kind) && o.tunnel.Some? then
                var t := EditTunnel(G(), id, o, o.tunnel.value, edit);
                if t.Err? then Err(t.error) else Ok(o.(tunnel := Some(t.value)))
              else if o.kind.SourceIP? && edit.sourceIP.Given? then
                if edit.sourceIP.wellFormed then Ok(o.(sourceIP := edit.sourceIP.text))
                else Err(Invalid(SourceIPInvalid))
              else Ok(o)
    {
      r := Ok(o);
      if Tunneled(o.kind) && o.tunnel.Some? {
        var t := ApplyTunnelEdit(id, o, edit);
        r := if t.Err? then Err(t.error) else Ok(o.(tunnel := Some(t.value)));
      } else if o.kind.SourceIP? && edit.sourceIP.Given? {
        r := if edit.sourceIP.wellFormed then Ok(o.(sourceIP := edit.sourceIP.text)) else Err(Invalid(SourceIPInvalid));
      }
    }

    method Reimport(id: ID, parsed: Option<Tunnel>) returns (r: Option<Error>)
      requires Integrity(G()) && WellFormed(ReplaceConfig(id, parsed))
      modifies this
      ensures Integrity(G()) && Served(old(G()), ReplaceConfig(id, parsed), G(), r)
    {
      StepKeeps(G(), ReplaceConfig(id, parsed));
      r := Commit(AfterReplaceConfig(G(), id, parsed));
    }

    method Renew(id: ID, registered: Option<Registration>) returns (r: Option<Error>)
      requires Integrity(G())
      modifies this
      ensures Integrity(G()) && Served(old(G()), RenewWarp(id, registered), G(), r)
    {
      StepKeeps(G(), RenewWarp(id, registered));
      r := Commit(AfterRenewWarp(G(), id, registered));
    }

    method RemoveOutbound(id: ID) returns (r: Option<Error>)
      requires Integrity(G())
      modifies this
      ensures Integrity(G()) && Served(old(G()), DeleteOutbound(id), G(), r)
    {
      StepKeeps(G(), DeleteOutbound(id));
      r := DropOutbound(id);
    }

    method DropOutbound(id: ID) returns (r: Option<Error>)
      modifies this
      ensures Wrote(AfterDeleteOutbound(old(G()), id), old(G()), G(), r)
    {
      var used := References(ToOutbound(id));
      if used {
        return Some(Invalid(InUse));
      }
      if id !in outbounds {
        return Some(NotFound);
      }
      outbounds := outbounds - {id};
      r := None;
    }

    // ---- balancers ----------------------------------------------------------------------

    /** The member loop of validateBalancer, which also fills in the default weight. */
    method ValidateMembers(members: seq<Member>) returns (r: Result<seq<Member>, Error>)
      ensures match CheckMembers(outbounds, members, 0)
              case None => r == Ok(Weighed(members))
              case Some(e) => r == Err(e)
    {
      var seen: set<ID> := {};
      var weighed: seq<Member> := [];
      for i := 0 to |members|
        invariant forall id :: id in seen <==> exists j :: 0 <= j < i && members[j].outbound == id
        invariant weighed == Weighed(members)[..i]
        invariant CheckMembers(outbounds, members, 0) == CheckMembers(outbounds, members, i)
      {
        var m := members[i];
        if m.outbound in seen {
          return Err(Invalid(MembersDuplicate));
        }
        seen := seen + {m.outbound};
        if m.weight == 0 {
          m := m.(weight := 1);
        }
        if m.weight < 1 || m.weight > MAX_WEIGHT {
          return Err(Invalid(WeightInvalid));
        }
        if m.outbound !in outbounds {
          return Err(Invalid(MemberUnknown));
        }
        weighed := weighed + [m];
      }
      assert weighed == Weighed(members);
      r := Ok(weighed);
    }

    method ValidateBalancer(b: BalancerInput) returns (r: Result<Balancer, Error>)
      ensures match CheckBalancer(outbounds, b)
              case None => r == Ok(BalancerRow(b))
              case Some(e) => r == Err(e)
    {
      if CheckName(b.name).Some? {
        return Err(CheckName(b.name).value);
      }
      if b.strategy.UnknownStrategy? {
        return Err(Invalid(StrategyInvalid));
      }
      var fallback := if b.fallback.Unset? then ToDirect else b.fallback;
      if fallback.UnknownFallback? {
        return Err(Invalid(FallbackInvalid));
      }
      if |b.members| == 0 {
        return Err(Invalid(MembersRequired));
      }
      if |b.members| > MAX_MEMBERS {
        return Err(Invalid(MembersTooMany));
      }
      var members := ValidateMembers(b.members);
      if members.Err? {
        return Err(members.error);
      }
      r := Ok(Balancer(Trim(b.name), b.strategy, fallback, members.value, b.enabled));
    }

    method AddBalancer(id: ID, b: BalancerInput) returns (r: Option<Error>)
      requires Integrity(G()) && WellFormed(CreateBalancer(id, b))
      modifies this
      ensures Integrity(G()) && Served(old(G()), CreateBalancer(id, b), G(), r)
    {
      StepKeeps(G(), CreateBalancer(id, b));
      r := InsertBalancer(id, b);
    }

    method InsertBalancer(id: ID, b: BalancerInput) returns (r: Option<Error>)
      modifies this
      ensures Wrote(AfterCreateBalancer(old(G()), id, b), old(G()), G(), r)
    {
      var row := ValidateBalancer(b);
      if row.Err? {
        return Some(row.error);
      }
      if |balancers| >= MAX_BALANCERS {
        return Some(Invalid(BalancersFull));
      }
      if id in balancers || BalancerNameTaken(G(), row.value.name, id) {
        return Some(Invalid(NameTaken));
      }
      balancers := balancers[id := row.value];
      r := None;
    }

    method ReplaceBalancer(id: ID, b: BalancerInput) returns (r: Option<Error>)
      requires Integrity(G())
      modifies this
      ensures Integrity(G()) && Served(old(G()), UpdateBalancer(id, b), G(), r)
    {
      StepKeeps(G(), UpdateBalancer(id, b));
      r := StoreBalancer(id, b);
    }

    method StoreBalancer(id: ID, b: BalancerInput) returns (r: Option<Error>)
      modifies this
      ensures Wrote(AfterUpdateBalancer(old(G()), id, b), old(G()), G(), r)
    {
      if id !in balancers {
        return Some(NotFound);
      }
      var row := ValidateBalancer(b);
      if row.Err? {
        return Some(row.error);
      }
      if BalancerNameTaken(G(), row.value.name, id) {
        return Some(Invalid(NameTaken));
      }
      balancers := balancers[id := row.value];
      r := None;
    }

    method ToggleBalancer(id: ID, enabled: bool) returns (r: Option<Error>)
      requires Integrity(G())
      modifies this
      ensures Integrity(G()) && Served(old(G()), SetBalancerEnabled(id, enabled), G(), r)
    {
      StepKeeps(G(), SetBalancerEnabled(id, enabled));
      r := Commit(AfterSetBalancerEnabled(G(), id, enabled));
    }

    method RemoveBalancer(id: ID) returns (r: Option<Error>)
      requires Integrity(G())
      modifies this
      ensures Integrity(G()) && Served(old(G()), DeleteBalancer(id), G(), r)
    {
      StepKeeps(G(), DeleteBalancer(id));
      r := DropBalancer(id);
    }

    method DropBalancer(id: ID) returns (r: Option<Error>)
      modifies this
      ensures Wrote(AfterDeleteBalancer(old(G()), id), old(G()), G(), r)
    {
      var used := References(ToBalancer(id));
      if used {
        return Some(Invalid(InUse));
      }
      if id !in balancers {
        return Some(NotFound);
      }
      balancers := balancers - {id};
      r := None;
    }

    // ---- rules --------------------------------------------------------------------------

    method AddRule(id: ID, edit: RuleInput) returns (r: Option<Error>)
      requires Integrity(G()) && WellFormed(CreateRule(id, edit))
      modifies this
      ensures Integrity(G()) && Served(old(G()), CreateRule(id, edit), G(), r)
    {
      StepKeeps(G(), CreateRule(id, edit));
      r := InsertRule(id, edit);
    }

    method InsertRule(id: ID, edit: RuleInput) returns (r: Option<Error>)
      requires PositionsDistinct(rules)
      modifies this`rules
      ensures Wrote(AfterCreateRule(old(G()), id, edit), old(G()), G(), r)
    {
      var fault := CheckRule(G(), edit);
      if fault.Some? {
        return fault;
      }
      if |rules| >= MAX_RULES {
        return Some(Invalid(RulesFull));
      }
      var last := MaxPosition(rules);
      if id in rules {
        return Some(StoreFailed);
      }
      rules := rules[id := RuleRow(edit, last + 1)];
      r := None;
    }

    method ReplaceRule(id: ID, edit: RuleInput) returns (r: Option<Error>)
      requires Integrity(G())
      modifies this
      ensures Integrity(G()) && Served(old(G()), UpdateRule(id, edit), G(), r)
    {
      StepKeeps(G(), UpdateRule(id, edit));
      r := Commit(AfterUpdateRule(G(), id, edit));
    }

    method ToggleRule(id: ID, enabled: bool) returns (r: Option<Error>)
      requires Integrity(G())
      modifies this
      ensures Integrity(G()) && Served(old(G()), SetRuleEnabled(id, enabled), G(), r)
    {
      StepKeeps(G(), SetRuleEnabled(id, enabled));
      r := Commit(AfterSetRuleEnabled(G(), id, enabled));
    }

    method RemoveRule(id: ID) returns (r: Option<Error>)
      requires Integrity(G())
      modifies this
      ensures Integrity(G()) && Served(old(G()), DeleteRule(id), G(), r)
    {
      StepKeeps(G(), DeleteRule(id));
      r := Commit(AfterDeleteRule(G(), id));
    }

    /** Write positions 1, 2, ... along the list. */
    method Renumber(ids: seq<ID>)
      requires forall i | 0 <= i < |ids| :: ids[i] in rules
      modifies this`rules
      ensures rules == Renumbered(old(rules), ids, |ids|)
    {
      for i := 0 to |ids|
        invariant rules == Renumbered(old(rules), ids, i)
      {
        rules := rules[ids[i] := rules[ids[i]].(position := i + 1)];
      }
    }

    /** The search for the rule in the ordered list, -1 when it is not there. */
    method Find(ids: seq<ID>, id: ID) returns (at: int)
      requires PositionsDistinct(rules) && ids == Order(rules)
      ensures if id in rules then at == Place(rules, id) else at == -1
    {
      at := -1;
      for i := 0 to |ids|
        invariant -1 <= at < i
        invariant if at < 0 then forall k | 0 <= k < i :: ids[k] != id else ids[at] == id
      {
        if ids[i] == id {
          at := i;
        }
      }
      assert id in rules ==> id in ids;
      if id in rules {
        OrderDistinct(ids, rules, at, Place(rules, id));
      }
    }

    method Move(id: ID, delta: int) returns (r: Option<Error>)
      requires Integrity(G())
      modifies this
      ensures Integrity(G()) && Served(old(G()), MoveRule(id, delta), G(), r)
    {
      StepKeeps(G(), MoveRule(id, delta));
      r := Exchange(id, delta);
    }

    method Exchange(id: ID, delta: int) returns (r: Option<Error>)
      requires PositionsDistinct(rules)
      modifies this`rules
      ensures Wrote(AfterMoveRule(old(G()), id, delta), old(G()), G(), r)
    {
      if delta != -1 && delta != 1 {
        return Some(Invalid(PositionInvalid));
      }
      var ids := Sorted(rules);
      var at := Find(ids, id);
      if at < 0 {
        return Some(NotFound);
      }
      var other := at + delta;
      if other < 0 || other >= |ids| {
        return None;
      }
      Rearrange(ids, id, at, other, delta);
      r := None;
    }

    /** Exchanges the two neighbours and numbers the whole list again. */
    method Rearrange(ids: seq<ID>, id: ID, at: nat, other: nat, ghost delta: int)
      requires PositionsDistinct(rules) && id in rules && CanMove(rules, id, delta)
      requires ids == Order(rules) && at == Place(rules, id) && other == at + delta && other < |ids|
      modifies this`rules
      ensures rules == Moved(old(rules), id, delta)
    {
      ExchangeIs(rules, id, delta, ids, at, other);
      var swapped := Swap(ids, at, other);
      ExchangedFacts(rules, id, delta);
      Renumber(swapped);
    }

    method SetSettings(t: Target, urlsValid: bool) returns (r: Option<Error>)
      requires Integrity(G())
      modifies this
      ensures Integrity(G()) && Served(old(G()), UpdateSettings(t, urlsValid), G(), r)
    {
      StepKeeps(G(), UpdateSettings(t, urlsValid));
      r := Commit(AfterUpdateSettings(G(), t, urlsValid));
    }
  }

  lemma UsedStep(outbounds: map<ID, Outbound>, rest: set<ID>, used: set<int>, i: ID)
    requires rest <= outbounds.Keys && i in rest
    requires forall k :: k in used <==> exists j :: j in outbounds && j !in rest && outbounds[j].slot == k
    ensures forall k :: k in used + {outbounds[i].slot} <==>
              exists j :: j in outbounds && j !in rest - {i} && outbounds[j].slot == k
  {
    var now := rest - {i};
    forall k | k in used + {outbounds[i].slot}
      ensures exists j :: j in outbounds && j !in now && outbounds[j].slot == k
    {
      if k == outbounds[i].slot {
        assert i in outbounds && i !in now;
      } else {
        var j :| j in outbounds && j !in rest && outbounds[j].slot == k;
        assert j !in now;
      }
    }
  }
}
