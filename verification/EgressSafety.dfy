/** Every service call keeps the routing graph whole, over every run. */
module EgressSafety {
  import opened Text
  import opened Wrappers
  import opened Egress
  import opened EgressOrder

  /** What a call stores, or why it stores nothing. */
  ghost function After(g: Graph, c: Call): Result<Graph, Error>
    requires PositionsDistinct(g.rules)
  {
    match c
    case CreateOutbound(id, name, exit) => AfterCreateOutbound(g, id, name, exit)
    case UpdateOutbound(id, edit) => AfterUpdateOutbound(g, id, edit)
    case ReplaceConfig(id, parsed) => AfterReplaceConfig(g, id, parsed)
    case RenewWarp(id, registered) => AfterRenewWarp(g, id, registered)
    case DeleteOutbound(id) => AfterDeleteOutbound(g, id)
    case CreateBalancer(id, b) => AfterCreateBalancer(g, id, b)
    case UpdateBalancer(id, b) => AfterUpdateBalancer(g, id, b)
    case SetBalancerEnabled(id, enabled) => AfterSetBalancerEnabled(g, id, enabled)
    case DeleteBalancer(id) => AfterDeleteBalancer(g, id)
    case CreateRule(id, r) => AfterCreateRule(g, id, r)
    case UpdateRule(id, r) => AfterUpdateRule(g, id, r)
    case SetRuleEnabled(id, enabled) => AfterSetRuleEnabled(g, id, enabled)
    case MoveRule(id, delta) => AfterMoveRule(g, id, delta)
    case DeleteRule(id) => AfterDeleteRule(g, id)
    case UpdateSettings(t, urlsValid) => AfterUpdateSettings(g, t, urlsValid)
  }

  ghost function Next(g: Graph, c: Call): Graph
    requires PositionsDistinct(g.rules)
  {
    var r := After(g, c);
    if r.Ok? then r.value else g
  }

  // ---- slots ----------------------------------------------------------------------------

  /** The slot search finds the least free slot, or nothing when all are taken. */
  lemma {:induction false} FreeSlotIsLeast(outbounds: map<ID, Outbound>, n: int)
    requires 1 <= n <= MAX_SLOTS + 1
    ensures var s := FreeSlot(outbounds, n);
            if s == 0 then forall k | n <= k <= MAX_SLOTS :: SlotUsed(outbounds, k)
            else n <= s <= MAX_SLOTS && !SlotUsed(outbounds, s) && forall k | n <= k < s :: SlotUsed(outbounds, k)
    decreases MAX_SLOTS + 1 - n
  {
    if n <= MAX_SLOTS && SlotUsed(outbounds, n) {
      FreeSlotIsLeast(outbounds, n + 1);
    }
  }

  lemma {:induction false} RangeOf(n: nat) returns (all: set<int>)
    ensures |all| == n && forall k :: k in all <==> 1 <= k <= n
  {
    all := {};
    if n > 0 {
      all := RangeOf(n - 1);
      all := all + {n};
    }
  }

  ghost function Slots(outbounds: map<ID, Outbound>): set<int> {
    set i | i in outbounds :: outbounds[i].slot
  }

  lemma {:induction false} SlotsCount(outbounds: map<ID, Outbound>)
    requires forall i, j | i in outbounds && j in outbounds && i != j :: outbounds[i].slot != outbounds[j].slot
    ensures |Slots(outbounds)| == |outbounds|
    decreases |outbounds|
  {
    if outbounds == map[] {
      assert Slots(outbounds) == {};
    } else {
      var i :| i in outbounds;
      var rest := outbounds - {i};
      assert rest.Keys == outbounds.Keys - {i};
      SlotsCount(rest);
      forall k ensures k in Slots(outbounds) <==> k in Slots(rest) || k == outbounds[i].slot {
        if k in Slots(outbounds) {
          var j :| j in outbounds && outbounds[j].slot == k;
          assert j != i ==> j in rest && rest[j].slot == k;
        }
        if k in Slots(rest) {
          var j :| j in rest && rest[j].slot == k;
          assert j in outbounds && outbounds[j].slot == k;
        }
      }
      assert Slots(outbounds) == Slots(rest) + {outbounds[i].slot};
      assert outbounds[i].slot !in Slots(rest);
    }
  }

  lemma SubsetFull(a: set<int>, b: set<int>)
    requires a <= b && |a| == |b|
    ensures a == b
  {
    assert b == a + (b - a);
  }

  lemma SubsetCard(a: set<int>, b: set<int>)
    requires a <= b
    ensures |a| <= |b|
  {
    assert b == a + (b - a);
  }

  lemma SlotUsedIn(outbounds: map<ID, Outbound>, k: int)
    ensures SlotUsed(outbounds, k) <==> k in Slots(outbounds)
  {
    if SlotUsed(outbounds, k) {
      var i :| i in outbounds && outbounds[i].slot == k;
    }
  }

  /** A node holds at most 63 outbounds, and the search fails exactly at 63. */
  lemma FullExactlyAtTheLimit(outbounds: map<ID, Outbound>)
    requires OutboundsKept(outbounds)
    ensures |outbounds| <= MAX_SLOTS
    ensures FreeSlot(outbounds, 1) == 0 <==> |outbounds| == MAX_SLOTS
  {
    var all := RangeOf(MAX_SLOTS);
    var used := Slots(outbounds);
    SlotsCount(outbounds);
    assert used <= all;
    SubsetCard(used, all);
    FreeSlotIsLeast(outbounds, 1);
    if FreeSlot(outbounds, 1) == 0 {
      forall k | k in all ensures k in used {
        SlotUsedIn(outbounds, k);
      }
      assert used == all;
    } else {
      SlotUsedIn(outbounds, FreeSlot(outbounds, 1));
      assert FreeSlot(outbounds, 1) in all && FreeSlot(outbounds, 1) !in used;
      assert used != all;
      if |used| == |all| {
        SubsetFull(used, all);
      }
    }
  }

  // ---- outbounds ------------------------------------------------------------------------

  /** An edited row that keeps slot and kind, takes no used name and keeps its chain legal. */
  lemma StoreKeeps(g: Graph, id: ID, o: Outbound)
    requires Integrity(g) && id in g.outbounds && !NameTakenBy(g.outbounds, o.name, id)
    requires o.slot == g.outbounds[id].slot && o.kind == g.outbounds[id].kind
    requires o.tunnel.Some? <==> g.outbounds[id].tunnel.Some?
    requires ViaOf(o) == ViaOf(g.outbounds[id]) || CheckVia(g.outbounds, id, ViaOf(o)).None?
    ensures Integrity(g.(outbounds := g.outbounds[id := o]))
  {
    var was := g.outbounds;
    var now := was[id := o];
    StoredChains(was, id, o);
    StoredRows(was, id, o);
    GrownOutbounds(g, now);
  }

  lemma StoredRows(was: map<ID, Outbound>, id: ID, o: Outbound)
    requires OutboundsKept(was) && id in was && !NameTakenBy(was, o.name, id)
    requires o.slot == was[id].slot && o.kind == was[id].kind && (o.tunnel.Some? <==> was[id].tunnel.Some?)
    ensures OutboundsKept(was[id := o])
  {
  }

  lemma StoredChains(was: map<ID, Outbound>, id: ID, o: Outbound)
    requires OutboundsKept(was) && ChainsKept(was) && id in was && o.kind == was[id].kind
    requires o.tunnel.Some? <==> was[id].tunnel.Some?
    requires ViaOf(o) == ViaOf(was[id]) || CheckVia(was, id, ViaOf(o)).None?
    ensures ChainsKept(was[id := o])
  {
    var now := was[id := o];
    forall i | i in now && ViaOf(now[i]) != NONE
      ensures var via := ViaOf(now[i]);
              && via != i && via in now
              && now[via].tunnel.Some? && now[via].tunnel.value.via == NONE
    {
      if i != id && ViaOf(was[i]) == id {
        assert ChainedThrough(was, id);
      }
    }
  }

  /** More objects can only help the rules and the default route. */
  lemma RulesCarry(g: Graph, h: Graph)
    requires RulesKept(g) && Exists(g, g.default) && h.rules == g.rules && h.default == g.default
    requires g.outbounds.Keys <= h.outbounds.Keys && g.balancers.Keys <= h.balancers.Keys
    ensures RulesKept(h) && Exists(h, h.default)
  {
    forall r | r in h.rules ensures Exists(h, h.rules[r].target) {
      assert Exists(g, g.rules[r].target);
    }
  }

  /** More outbounds can only help the balancers. */
  lemma BalancersCarry(g: Graph, h: Graph)
    requires BalancersKept(g) && h.balancers == g.balancers && g.outbounds.Keys <= h.outbounds.Keys
    ensures BalancersKept(h)
  {
    forall b | b in h.balancers ensures BalancerKept(h.outbounds, h.balancers[b]) {
      assert BalancerKept(g.outbounds, g.balancers[b]);
    }
  }

  lemma GrownOutbounds(g: Graph, now: map<ID, Outbound>)
    requires Integrity(g) && OutboundsKept(now) && ChainsKept(now) && g.outbounds.Keys <= now.Keys
    ensures Integrity(g.(outbounds := now))
  {
    BalancersCarry(g, g.(outbounds := now));
    RulesCarry(g, g.(outbounds := now));
  }

  lemma AddedRow(was: map<ID, Outbound>, id: ID, o: Outbound)
    requires OutboundsKept(was) && ChainsKept(was) && id !in was && id != NONE
    requires 1 <= o.slot <= MAX_SLOTS && !SlotUsed(was, o.slot) && !NameTakenBy(was, o.name, id)
    requires (o.tunnel.Some? <==> Tunneled(o.kind)) && ViaOf(o) == NONE
    ensures OutboundsKept(was[id := o]) && ChainsKept(was[id := o])
  {
    forall i | i in was ensures was[i].slot != o.slot && was[i].name != o.name {
    }
  }

  lemma CreateOutboundKeeps(g: Graph, id: ID, name: string, exit: Exit)
    requires Integrity(g) && WellFormed(CreateOutbound(id, name, exit)) && AfterCreateOutbound(g, id, name, exit).Ok?
    ensures Integrity(AfterCreateOutbound(g, id, name, exit).value)
  {
    var slot := FreeSlot(g.outbounds, 1);
    FreeSlotIsLeast(g.outbounds, 1);
    var o := NewOutbound(name, exit, slot);
    AddedRow(g.outbounds, id, o);
    GrownOutbounds(g, g.outbounds[id := o]);
  }

  /** What an edit leaves of a row. */
  lemma EditedRow(g: Graph, id: ID, edit: OutboundInput)
    requires id in g.outbounds && Edited(g, id, edit).Ok?
    ensures var o, was := Edited(g, id, edit).value, g.outbounds[id];
            && o.slot == was.slot && o.kind == was.kind && (o.tunnel.Some? <==> was.tunnel.Some?)
            && (ViaOf(o) == ViaOf(was) || CheckVia(g.outbounds, id, ViaOf(o)).None?)
  {
  }

  lemma UpdateOutboundKeeps(g: Graph, id: ID, edit: OutboundInput)
    requires Integrity(g) && AfterUpdateOutbound(g, id, edit).Ok?
    ensures Integrity(AfterUpdateOutbound(g, id, edit).value)
  {
    EditedRow(g, id, edit);
    StoreKeeps(g, id, Edited(g, id, edit).value);
  }

  lemma ReplaceConfigKeeps(g: Graph, id: ID, parsed: Option<Tunnel>)
    requires Integrity(g) && WellFormed(ReplaceConfig(id, parsed)) && AfterReplaceConfig(g, id, parsed).Ok?
    ensures Integrity(AfterReplaceConfig(g, id, parsed).value)
  {
    StoreKeeps(g, id, Reimported(g.outbounds[id], parsed.value));
  }

  lemma RenewWarpKeeps(g: Graph, id: ID, registered: Option<Registration>)
    requires Integrity(g) && AfterRenewWarp(g, id, registered).Ok?
    ensures Integrity(AfterRenewWarp(g, id, registered).value)
  {
    StoreKeeps(g, id, Renewed(g.outbounds[id], registered.value));
  }

  /** Fewer outbounds, none of which a chain goes through. */
  lemma DeletedChains(outbounds: map<ID, Outbound>, id: ID)
    requires OutboundsKept(outbounds) && ChainsKept(outbounds) && !ChainedThrough(outbounds, id)
    ensures OutboundsKept(outbounds - {id}) && ChainsKept(outbounds - {id})
  {
    var left := outbounds - {id};
    forall i | i in left && ViaOf(left[i]) != NONE ensures ViaOf(left[i]) != id {
      assert i in outbounds && left[i] == outbounds[i];
    }
  }

  lemma DeletedMember(outbounds: map<ID, Outbound>, b: Balancer, id: ID)
    requires BalancerKept(outbounds, b) && !HasMember(b, id)
    ensures BalancerKept(outbounds - {id}, b)
  {
    forall i | 0 <= i < |b.members| ensures b.members[i].outbound in outbounds - {id} {
      assert b.members[i] in b.members;
    }
  }

  lemma DeletedRules(g: Graph, id: ID)
    requires RulesKept(g) && !exists r :: r in g.rules && g.rules[r].target == ToOutbound(id)
    ensures RulesKept(g.(outbounds := g.outbounds - {id}))
  {
    var h := g.(outbounds := g.outbounds - {id});
    forall r | r in h.rules ensures Exists(h, h.rules[r].target) {
      assert g.rules[r].target != ToOutbound(id);
    }
  }

  lemma DeletedBalancers(g: Graph, id: ID)
    requires BalancersKept(g) && !exists b :: b in g.balancers && HasMember(g.balancers[b], id)
    ensures BalancersKept(g.(outbounds := g.outbounds - {id}))
  {
    forall b | b in g.balancers ensures BalancerKept(g.outbounds - {id}, g.balancers[b]) {
      DeletedMember(g.outbounds, g.balancers[b], id);
    }
  }

  lemma DeleteOutboundKeeps(g: Graph, id: ID)
    requires Integrity(g) && AfterDeleteOutbound(g, id).Ok?
    ensures Integrity(AfterDeleteOutbound(g, id).value)
  {
    DeletedChains(g.outbounds, id);
    DeletedBalancers(g, id);
    DeletedRules(g, id);
  }

  // ---- balancers ------------------------------------------------------------------------

  lemma PutSize<V>(m: map<ID, V>, k: ID, v: V)
    ensures |m[k := v]| == if k in m then |m| else |m| + 1
  {
    assert m[k := v].Keys == m.Keys + {k};
    assert k in m ==> m.Keys + {k} == m.Keys;
  }

  /** Members pass exactly when distinct, existing and weighted 1..10 after the default of 1. */
  lemma {:induction false} CheckMembersExact(outbounds: map<ID, Outbound>, members: seq<Member>, k: nat)
    requires k <= |members|
    ensures CheckMembers(outbounds, members, k).None? <==>
              && (forall i | k <= i < |members| ::
                    members[i].outbound in outbounds && 1 <= Weighted(members[i]).weight <= MAX_WEIGHT)
              && (forall i, j | 0 <= i < j < |members| && k <= j :: members[i].outbound != members[j].outbound)
    decreases |members| - k
  {
    if k < |members| {
      CheckMembersExact(outbounds, members, k + 1);
    }
  }

  lemma WeighedKept(outbounds: map<ID, Outbound>, members: seq<Member>)
    requires 1 <= |members| <= MAX_MEMBERS && CheckMembers(outbounds, members, 0).None?
    ensures MembersKept(outbounds, Weighed(members))
  {
    CheckMembersExact(outbounds, members, 0);
  }

  lemma BalancerNamesKept(g: Graph, id: ID, b: Balancer)
    requires BalancerNamesDistinct(g.balancers) && !BalancerNameTaken(g, b.name, id)
    ensures BalancerNamesDistinct(g.balancers[id := b])
  {
    assert forall c | c in g.balancers && c != id :: g.balancers[c].name != b.name;
  }

  lemma BalancerRowKeeps(g: Graph, id: ID, b: Balancer)
    requires BalancersKept(g) && BalancerKept(g.outbounds, b) && !BalancerNameTaken(g, b.name, id)
    requires id in g.balancers || |g.balancers| < MAX_BALANCERS
    ensures BalancersKept(g.(balancers := g.balancers[id := b]))
  {
    PutSize(g.balancers, id, b);
    BalancerNamesKept(g, id, b);
  }

  lemma BalancerPutKeeps(g: Graph, id: ID, b: Balancer)
    requires Integrity(g) && BalancerKept(g.outbounds, b) && !BalancerNameTaken(g, b.name, id)
    requires id in g.balancers || |g.balancers| < MAX_BALANCERS
    ensures Integrity(g.(balancers := g.balancers[id := b]))
  {
    BalancerRowKeeps(g, id, b);
    RulesCarry(g, g.(balancers := g.balancers[id := b]));
  }

  lemma BalancerInputKeeps(g: Graph, id: ID, b: BalancerInput)
    requires Integrity(g) && CheckBalancer(g.outbounds, b).None? && !BalancerNameTaken(g, Trim(b.name), id)
    requires id in g.balancers || |g.balancers| < MAX_BALANCERS
    ensures Integrity(g.(balancers := g.balancers[id := BalancerRow(b)]))
  {
    WeighedKept(g.outbounds, b.members);
    BalancerPutKeeps(g, id, BalancerRow(b));
  }

  lemma SetBalancerEnabledKeeps(g: Graph, id: ID, enabled: bool)
    requires Integrity(g) && id in g.balancers
    ensures Integrity(AfterSetBalancerEnabled(g, id, enabled).value)
  {
    var b := g.balancers[id];
    assert !BalancerNameTaken(g, b.name, id);
    BalancerPutKeeps(g, id, b.(enabled := enabled));
  }

  lemma DeleteBalancerKeeps(g: Graph, id: ID)
    requires Integrity(g) && AfterDeleteBalancer(g, id).Ok?
    ensures Integrity(AfterDeleteBalancer(g, id).value)
  {
    var h := AfterDeleteBalancer(g, id).value;
    assert h.balancers.Keys == g.balancers.Keys - {id};
    forall r | r in h.rules ensures Exists(h, h.rules[r].target) {
      assert g.rules[r].target != ToBalancer(id);
    }
  }

  // ---- rules ----------------------------------------------------------------------------

  lemma RulePutKeeps(g: Graph, id: ID, r: Rule)
    requires RulesKept(g) && Exists(g, r.target) && (r.presets != {} || r.matchers != [])
    requires forall s | s in g.rules && s != id :: g.rules[s].position != r.position
    requires id in g.rules || |g.rules| < MAX_RULES
    ensures RulesKept(g.(rules := g.rules[id := r]))
  {
    var h := g.(rules := g.rules[id := r]);
    PutSize(g.rules, id, r);
    forall s | s in h.rules ensures Exists(h, h.rules[s].target) {
      if s != id {
        assert Exists(g, g.rules[s].target);
      }
    }
  }

  lemma AppendedIsFree(rules: map<ID, Rule>)
    ensures forall s | s in rules :: rules[s].position != NextPosition(rules)
  {
    assert IsLast(rules, LastPosition(rules));
  }

  /** What passes the check of a rule. */
  lemma CheckedRule(g: Graph, r: RuleInput, position: int)
    requires CheckRule(g, r).None?
    ensures var row := RuleRow(r, position);
            Exists(g, row.target) && (row.presets != {} || row.matchers != []) && row.position == position
  {
  }

  /** Nothing but the rules changed. */
  lemma RulesOnly(g: Graph, rules: map<ID, Rule>)
    requires Integrity(g) && RulesKept(g.(rules := rules))
    ensures Integrity(g.(rules := rules))
  {
    var h := g.(rules := rules);
    assert BalancersKept(h) && Exists(h, h.default);
  }

  lemma RulePutIntegrity(g: Graph, id: ID, row: Rule)
    requires Integrity(g) && Exists(g, row.target) && (row.presets != {} || row.matchers != [])
    requires forall s | s in g.rules && s != id :: g.rules[s].position != row.position
    requires id in g.rules || |g.rules| < MAX_RULES
    ensures Integrity(g.(rules := g.rules[id := row]))
  {
    RulePutKeeps(g, id, row);
    RulesOnly(g, g.rules[id := row]);
  }

  lemma RuleAtFreePosition(g: Graph, id: ID, r: RuleInput, position: int)
    requires Integrity(g) && CheckRule(g, r).None? && |g.rules| < MAX_RULES
    requires forall s | s in g.rules :: g.rules[s].position != position
    ensures Integrity(g.(rules := g.rules[id := RuleRow(r, position)]))
  {
    CheckedRule(g, r, position);
    RulePutIntegrity(g, id, RuleRow(r, position));
  }

  lemma CreateRuleKeeps(g: Graph, id: ID, r: RuleInput)
    requires Integrity(g) && AfterCreateRule(g, id, r).Ok?
    ensures Integrity(AfterCreateRule(g, id, r).value)
  {
    AppendedIsFree(g.rules);
    RuleAtFreePosition(g, id, r, NextPosition(g.rules));
  }

  lemma UpdateRuleKeeps(g: Graph, id: ID, r: RuleInput)
    requires Integrity(g) && AfterUpdateRule(g, id, r).Ok?
    ensures Integrity(AfterUpdateRule(g, id, r).value)
  {
    CheckedRule(g, r, g.rules[id].position);
    RulePutIntegrity(g, id, RuleRow(r, g.rules[id].position));
  }

  lemma SetRuleEnabledKeeps(g: Graph, id: ID, enabled: bool)
    requires Integrity(g) && AfterSetRuleEnabled(g, id, enabled).Ok?
    ensures Integrity(AfterSetRuleEnabled(g, id, enabled).value)
  {
    RulePutKeeps(g, id, g.rules[id].(enabled := enabled));
  }

  lemma DeleteRuleKeeps(g: Graph, id: ID)
    requires Integrity(g) && AfterDeleteRule(g, id).Ok?
    ensures Integrity(AfterDeleteRule(g, id).value)
  {
    var h := AfterDeleteRule(g, id).value;
    assert h.rules.Keys == g.rules.Keys - {id};
  }

  lemma MoveRuleKeeps(g: Graph, id: ID, delta: int)
    requires Integrity(g) && AfterMoveRule(g, id, delta).Ok?
    ensures Integrity(AfterMoveRule(g, id, delta).value)
  {
    var now := Moved(g.rules, id, delta);
    MoveChangesPositionsOnly(g.rules, id, delta);
    var h := g.(rules := now);
    assert now.Keys == g.rules.Keys;
    assert |now| == |now.Keys| && |g.rules| == |g.rules.Keys|;
    forall r | r in now ensures Exists(h, now[r].target) && (now[r].presets != {} || now[r].matchers != []) {
      assert now[r].(position := g.rules[r].position) == g.rules[r];
      assert Exists(g, g.rules[r].target);
    }
  }

  // ---- runs -----------------------------------------------------------------------------

  lemma OutboundStepKeeps(g: Graph, c: Call)
    requires Integrity(g) && WellFormed(c) && After(g, c).Ok?
    requires c.CreateOutbound? || c.UpdateOutbound? || c.ReplaceConfig? || c.RenewWarp? || c.DeleteOutbound?
    ensures Integrity(After(g, c).value)
  {
    match c
    case CreateOutbound(id, name, exit) => CreateOutboundKeeps(g, id, name, exit);
    case UpdateOutbound(id, edit) => UpdateOutboundKeeps(g, id, edit);
    case ReplaceConfig(id, parsed) => ReplaceConfigKeeps(g, id, parsed);
    case RenewWarp(id, registered) => RenewWarpKeeps(g, id, registered);
    case DeleteOutbound(id) => DeleteOutboundKeeps(g, id);
  }

  lemma BalancerStepKeeps(g: Graph, c: Call)
    requires Integrity(g) && WellFormed(c) && After(g, c).Ok?
    requires c.CreateBalancer? || c.UpdateBalancer? || c.SetBalancerEnabled? || c.DeleteBalancer?
    ensures Integrity(After(g, c).value)
  {
    match c
    case CreateBalancer(id, b) => BalancerInputKeeps(g, id, b);
    case UpdateBalancer(id, b) => BalancerInputKeeps(g, id, b);
    case SetBalancerEnabled(id, enabled) => SetBalancerEnabledKeeps(g, id, enabled);
    case DeleteBalancer(id) => DeleteBalancerKeeps(g, id);
  }

  lemma RuleStepKeeps(g: Graph, c: Call)
    requires Integrity(g) && WellFormed(c) && After(g, c).Ok?
    requires c.CreateRule? || c.UpdateRule? || c.SetRuleEnabled? || c.MoveRule? || c.DeleteRule?
    ensures Integrity(After(g, c).value)
  {
    match c
    case CreateRule(id, r) => CreateRuleKeeps(g, id, r);
    case UpdateRule(id, r) => UpdateRuleKeeps(g, id, r);
    case SetRuleEnabled(id, enabled) => SetRuleEnabledKeeps(g, id, enabled);
    case MoveRule(id, delta) => MoveRuleKeeps(g, id, delta);
    case DeleteRule(id) => DeleteRuleKeeps(g, id);
  }

  lemma StepKeeps(g: Graph, c: Call)
    requires Integrity(g) && WellFormed(c)
    ensures Integrity(Next(g, c))
  {
    if After(g, c).Ok? {
      if c.CreateOutbound? || c.UpdateOutbound? || c.ReplaceConfig? || c.RenewWarp? || c.DeleteOutbound? {
        OutboundStepKeeps(g, c);
      } else if c.CreateBalancer? || c.UpdateBalancer? || c.SetBalancerEnabled? || c.DeleteBalancer? {
        BalancerStepKeeps(g, c);
      } else if !c.UpdateSettings? {
        RuleStepKeeps(g, c);
      }
    }
  }

  const EMPTY := Graph(map[], map[], map[], Direct)

  lemma EmptyIntegrity()
    ensures Integrity(EMPTY)
  {
  }

  /**
   The state a run of calls leads to from the empty store: whatever the calls,
   every reference in it names an existing object.
   */
  ghost function Reached(calls: seq<Call>): (g: Graph)
    requires forall c | c in calls :: WellFormed(c)
    ensures Integrity(g)
    decreases |calls|
  {
    if calls == [] then
      EmptyIntegrity();
      EMPTY
    else
      var n := |calls| - 1;
      var before := Reached(calls[..n]);
      StepKeeps(before, calls[n]);
      Next(before, calls[n])
  }

  // ---- what the calls mean ------------------------------------------------------------------

  /** An existing outbound can be deleted exactly when deleting it breaks nothing. */
  lemma DeletableExactly(g: Graph, id: ID)
    requires Integrity(g) && id in g.outbounds
    ensures AfterDeleteOutbound(g, id).Ok? <==> Integrity(g.(outbounds := g.outbounds - {id}))
  {
    if AfterDeleteOutbound(g, id).Ok? {
      DeleteOutboundKeeps(g, id);
    } else {
      DeleteWouldBreak(g, id);
    }
  }

  lemma ChainWouldBreak(outbounds: map<ID, Outbound>, id: ID)
    requires ChainsKept(outbounds) && id in outbounds && id != NONE && ChainedThrough(outbounds, id)
    ensures !ChainsKept(outbounds - {id})
  {
    var i :| i in outbounds && outbounds[i].tunnel.Some? && outbounds[i].tunnel.value.via == id;
    assert ViaOf(outbounds[i]) == id;
    assert i in outbounds - {id} && ViaOf((outbounds - {id})[i]) == id;
  }

  lemma MemberWouldBreak(outbounds: map<ID, Outbound>, b: Balancer, id: ID)
    requires HasMember(b, id)
    ensures !BalancerKept(outbounds - {id}, b)
  {
    var m :| m in b.members && m.outbound == id;
    var i :| 0 <= i < |b.members| && b.members[i] == m;
    assert b.members[i].outbound !in outbounds - {id};
  }

  lemma DeleteWouldBreak(g: Graph, id: ID)
    requires Integrity(g) && id in g.outbounds && Referenced(g, ToOutbound(id))
    ensures !Integrity(g.(outbounds := g.outbounds - {id}))
  {
    var h := g.(outbounds := g.outbounds - {id});
    if ChainedThrough(g.outbounds, id) {
      ChainWouldBreak(g.outbounds, id);
    } else if exists r :: r in g.rules && g.rules[r].target == ToOutbound(id) {
      var r :| r in g.rules && g.rules[r].target == ToOutbound(id);
      assert !Exists(h, h.rules[r].target);
    } else if exists b :: b in g.balancers && HasMember(g.balancers[b], id) {
      var b :| b in g.balancers && HasMember(g.balancers[b], id);
      MemberWouldBreak(g.outbounds, g.balancers[b], id);
    } else {
      assert !Exists(h, h.default);
    }
  }

  /** A chain is accepted exactly when the chains stay one level deep and loop-free. */
  lemma ViaAcceptedExactly(g: Graph, id: ID, via: ID)
    requires Integrity(g) && id in g.outbounds && g.outbounds[id].tunnel.Some?
    ensures var o := g.outbounds[id];
            CheckVia(g.outbounds, id, via).None? <==>
              ChainsKept(g.outbounds[id := o.(tunnel := Some(o.tunnel.value.(via := via)))])
  {
    var was := g.outbounds;
    var o := was[id].(tunnel := Some(was[id].tunnel.value.(via := via)));
    var now := was[id := o];
    if CheckVia(was, id, via).None? {
      StoredChains(was, id, o);
    } else {
      assert ViaOf(now[id]) == via != NONE;
      if via != id && via in was && was[via].tunnel.Some? && was[via].tunnel.value.via == NONE {
        assert ChainedThrough(was, id);
        var i :| i in was && was[i].tunnel.Some? && was[i].tunnel.value.via == id;
        assert ViaOf(was[i]) == id;
        assert ViaOf(now[i]) == id;
      }
    }
  }
}
