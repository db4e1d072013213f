/**
 What the calls store: when each one goes through, which row it leaves and what
 it does not touch.  A stored row is described by what was asked for, field by
 field.
 */
module EgressRows {
  import opened Text
  import opened Wrappers
  import opened Egress
  import opened EgressOrder
  import opened EgressSafety

  /** 1 to 48 characters once trimmed, on one line, without tabs. */
  predicate GoodName(name: string) {
    var t := Trim(name);
    1 <= |t| <= 48 && '\0' !in t && '\r' !in t && '\n' !in t && '\t' !in t
  }

  /** Nobody but `but` has the trimmed name. */
  predicate FreeName(outbounds: map<ID, Outbound>, name: string, but: ID) {
    forall i | i in outbounds && i != but :: outbounds[i].name != Trim(name)
  }

  /** One row is written and every other one stays. */
  ghost predicate Put<V(!new)>(before: map<ID, V>, id: ID, after: map<ID, V>) {
    && after.Keys == before.Keys + {id}
    && forall k | k in before && k != id :: after[k] == before[k]
  }

  // ---- rules ----------------------------------------------------------------------------

  /** What a rule needs to be stored. */
  predicate GoodRule(g: Graph, r: RuleInput) {
    && GoodName(r.name) && Exists(g, r.target)
    && r.presetsKnown && r.matchers.Some? && (r.presets != {} || r.matchers.value != [])
  }

  /** The row holds what was asked for. */
  predicate HoldsRule(row: Rule, r: RuleInput) {
    && row.name == Trim(r.name) && row.enabled == r.enabled
    && row.target == r.target && row.presets == r.presets && Some(row.matchers) == r.matchers
  }

  lemma CheckedRuleRow(g: Graph, r: RuleInput, position: int)
    ensures CheckRule(g, r).None? <==> GoodRule(g, r)
    ensures GoodRule(g, r) ==> HoldsRule(RuleRow(r, position), r) && RuleRow(r, position).position == position
  {
  }

  /** A position after every rule. */
  ghost predicate AfterLast(rules: map<ID, Rule>, n: int) {
    forall k | k in rules :: rules[k].position < n
  }

  lemma NextIsAfterLast(rules: map<ID, Rule>)
    ensures AfterLast(rules, NextPosition(rules))
  {
    assert IsLast(rules, LastPosition(rules));
  }

  lemma PutIs(rules: map<ID, Rule>, id: ID, row: Rule)
    ensures Put(rules, id, rules[id := row])
  {
  }

  /** The row is stored under the ID, after every other rule. */
  ghost predicate StoresRule(g: Graph, id: ID, r: RuleInput, h: Graph) {
    && h == g.(rules := h.rules) && Put(g.rules, id, h.rules)
    && HoldsRule(h.rules[id], r) && AfterLast(g.rules, h.rules[id].position)
  }

  lemma RowStored(g: Graph, id: ID, r: RuleInput, row: Rule)
    requires HoldsRule(row, r) && AfterLast(g.rules, row.position)
    ensures StoresRule(g, id, r, g.(rules := g.rules[id := row]))
  {
    PutIs(g.rules, id, row);
  }

  lemma CreatedRule(g: Graph, id: ID, r: RuleInput, row: Rule)
    requires row == RuleRow(r, NextPosition(g.rules))
    ensures AfterCreateRule(g, id, r).Ok? <==> CheckRule(g, r).None? && |g.rules| < 128 && id !in g.rules
    ensures AfterCreateRule(g, id, r).Ok? ==> AfterCreateRule(g, id, r).value == g.(rules := g.rules[id := row])
  {
  }

  lemma CreateRuleExactly(g: Graph, id: ID, r: RuleInput)
    ensures AfterCreateRule(g, id, r).Ok? <==> GoodRule(g, r) && |g.rules| < 128 && id !in g.rules
    ensures AfterCreateRule(g, id, r).Ok? ==> StoresRule(g, id, r, AfterCreateRule(g, id, r).value)
  {
    var position := NextPosition(g.rules);
    CheckedRuleRow(g, r, position);
    CreatedRule(g, id, r, RuleRow(r, position));
    if AfterCreateRule(g, id, r).Ok? {
      NextIsAfterLast(g.rules);
      RowStored(g, id, r, RuleRow(r, position));
    }
  }

  lemma UpdateRuleExactly(g: Graph, id: ID, r: RuleInput)
    ensures AfterUpdateRule(g, id, r).Ok? <==> id in g.rules && GoodRule(g, r)
    ensures AfterUpdateRule(g, id, r).Ok? ==>
      var h := AfterUpdateRule(g, id, r).value;
      && h == g.(rules := h.rules) && Put(g.rules, id, h.rules) && HoldsRule(h.rules[id], r)
      && h.rules[id].position == g.rules[id].position
  {
  }

  /** A toggle changes the flag of one rule, a deletion removes one, a move keeps all but the positions. */
  lemma RuleEditsExactly(g: Graph, id: ID, enabled: bool, delta: int)
    requires PositionsDistinct(g.rules)
    ensures After(g, SetRuleEnabled(id, enabled)) ==
              if id in g.rules then Ok(g.(rules := g.rules[id := g.rules[id].(enabled := enabled)])) else Err(NotFound)
    ensures After(g, DeleteRule(id)) == if id in g.rules then Ok(g.(rules := g.rules - {id})) else Err(NotFound)
    ensures After(g, MoveRule(id, delta)).Ok? <==> (delta == -1 || delta == 1) && id in g.rules
    ensures After(g, MoveRule(id, delta)).Ok? ==>
      var h := After(g, MoveRule(id, delta)).value;
      h == g.(rules := h.rules) && SameButPositions(g.rules, h.rules)
  {
    if After(g, MoveRule(id, delta)).Ok? {
      MoveChangesPositionsOnly(g.rules, id, delta);
    }
  }

  /** The default route may name whatever exists, but not block everything. */
  lemma SettingsExactly(g: Graph, t: Target, urlsValid: bool)
    requires PositionsDistinct(g.rules)
    ensures After(g, UpdateSettings(t, urlsValid)).Ok? <==> Exists(g, t) && !t.Block? && urlsValid
    ensures After(g, UpdateSettings(t, urlsValid)).Ok? ==>
      After(g, UpdateSettings(t, urlsValid)).value == g.(default := t)
  {
  }

  // ---- balancers ------------------------------------------------------------------------

  /** What a balancer needs to be stored: a weight of 0 counts as 1. */
  ghost predicate GoodBalancer(g: Graph, b: BalancerInput) {
    && GoodName(b.name) && !b.strategy.UnknownStrategy? && !b.fallback.UnknownFallback?
    && 1 <= |b.members| <= 16
    && (forall i | 0 <= i < |b.members| :: b.members[i].outbound in g.outbounds && 0 <= b.members[i].weight <= 10)
    && (forall i, j | 0 <= i < j < |b.members| :: b.members[i].outbound != b.members[j].outbound)
  }

  ghost predicate FreeBalancerName(g: Graph, name: string, but: ID) {
    forall b | b in g.balancers && b != but :: g.balancers[b].name != Trim(name)
  }

  ghost predicate HoldsBalancer(row: Balancer, b: BalancerInput) {
    && row.name == Trim(b.name) && row.strategy == b.strategy && row.enabled == b.enabled
    && row.fallback == (if b.fallback.Unset? then ToDirect else b.fallback)
    && |row.members| == |b.members|
    && forall i | 0 <= i < |b.members| ::
         && row.members[i].outbound == b.members[i].outbound
         && row.members[i].weight == if b.members[i].weight == 0 then 1 else b.members[i].weight
  }

  lemma CheckedBalancer(g: Graph, b: BalancerInput)
    ensures CheckBalancer(g.outbounds, b).None? <==> GoodBalancer(g, b)
    ensures HoldsBalancer(BalancerRow(b), b)
  {
    CheckMembersExact(g.outbounds, b.members, 0);
  }

  lemma CreateBalancerExactly(g: Graph, id: ID, b: BalancerInput)
    ensures AfterCreateBalancer(g, id, b).Ok? <==>
              GoodBalancer(g, b) && |g.balancers| < 32 && id !in g.balancers && FreeBalancerName(g, b.name, id)
    ensures AfterCreateBalancer(g, id, b).Ok? ==>
      var h := AfterCreateBalancer(g, id, b).value;
      h == g.(balancers := h.balancers) && Put(g.balancers, id, h.balancers) && HoldsBalancer(h.balancers[id], b)
  {
    CheckedBalancer(g, b);
    CreatedBalancer(g, id, b);
  }

  lemma CreatedBalancer(g: Graph, id: ID, b: BalancerInput)
    ensures AfterCreateBalancer(g, id, b).Ok? <==>
              CheckBalancer(g.outbounds, b).None? && |g.balancers| < 32 && id !in g.balancers && FreeBalancerName(g, b.name, id)
    ensures AfterCreateBalancer(g, id, b).Ok? ==>
      AfterCreateBalancer(g, id, b).value == g.(balancers := g.balancers[id := BalancerRow(b)])
  {
  }

  lemma UpdateBalancerExactly(g: Graph, id: ID, b: BalancerInput)
    ensures AfterUpdateBalancer(g, id, b).Ok? <==>
              id in g.balancers && GoodBalancer(g, b) && FreeBalancerName(g, b.name, id)
    ensures AfterUpdateBalancer(g, id, b).Ok? ==>
      var h := AfterUpdateBalancer(g, id, b).value;
      h == g.(balancers := h.balancers) && Put(g.balancers, id, h.balancers) && HoldsBalancer(h.balancers[id], b)
  {
    CheckedBalancer(g, b);
    UpdatedBalancer(g, id, b);
  }

  lemma UpdatedBalancer(g: Graph, id: ID, b: BalancerInput)
    ensures AfterUpdateBalancer(g, id, b).Ok? <==>
              id in g.balancers && CheckBalancer(g.outbounds, b).None? && FreeBalancerName(g, b.name, id)
    ensures AfterUpdateBalancer(g, id, b).Ok? ==>
      AfterUpdateBalancer(g, id, b).value == g.(balancers := g.balancers[id := BalancerRow(b)])
  {
  }

  /** A toggle changes the flag of one balancer, a deletion removes one. */
  lemma BalancerEditsExactly(g: Graph, id: ID, enabled: bool)
    requires PositionsDistinct(g.rules)
    ensures After(g, SetBalancerEnabled(id, enabled)) ==
              if id in g.balancers then Ok(g.(balancers := g.balancers[id := g.balancers[id].(enabled := enabled)]))
              else Err(NotFound)
    ensures After(g, DeleteBalancer(id)).Ok? ==>
              id in g.balancers && After(g, DeleteBalancer(id)).value == g.(balancers := g.balancers - {id})
  {
  }

  /** An existing balancer can be deleted exactly when deleting it breaks nothing. */
  lemma BalancerDeletableExactly(g: Graph, id: ID)
    requires Integrity(g) && id in g.balancers
    ensures AfterDeleteBalancer(g, id).Ok? <==> Integrity(g.(balancers := g.balancers - {id}))
  {
    if AfterDeleteBalancer(g, id).Ok? {
      DeleteBalancerKeeps(g, id);
    } else {
      BalancerWouldBreak(g, id);
    }
  }

  lemma BalancerWouldBreak(g: Graph, id: ID)
    requires Referenced(g, ToBalancer(id))
    ensures !Integrity(g.(balancers := g.balancers - {id}))
  {
    var h := g.(balancers := g.balancers - {id});
    if g.default != ToBalancer(id) {
      var r :| r in g.rules && g.rules[r].target == ToBalancer(id);
      assert !Exists(h, h.rules[r].target);
    } else {
      assert !Exists(h, h.default);
    }
  }

  // ---- outbounds ------------------------------------------------------------------------

  /** The row holds what was asked for, in the least free slot. */
  ghost predicate HoldsExit(row: Outbound, name: string, exit: Exit, outbounds: map<ID, Outbound>) {
    && row.name == Trim(name) && row.enabled
    && 1 <= row.slot <= 63 && !SlotUsed(outbounds, row.slot)
    && (forall n | 1 <= n < row.slot :: SlotUsed(outbounds, n))
    && match exit
       case NewTunnel(kind, tunnel, account) =>
         row.kind == kind && row.tunnel == Some(tunnel) && row.account == account && row.sourceIP == ""
       case NewSource(address) =>
         && row.kind.SourceIP? && row.tunnel.None? && row.account.None?
         && address.Given? && row.sourceIP == address.text
  }

  lemma CreateOutboundExactly(g: Graph, id: ID, name: string, exit: Exit)
    requires PositionsDistinct(g.rules) && OutboundsKept(g.outbounds)
    ensures After(g, CreateOutbound(id, name, exit)).Ok? <==>
      && GoodName(name) && (exit.NewSource? ==> exit.address.Given? && exit.address.wellFormed)
      && |g.outbounds| < 63 && id !in g.outbounds && FreeName(g.outbounds, name, id)
    ensures After(g, CreateOutbound(id, name, exit)).Ok? ==>
      var h := After(g, CreateOutbound(id, name, exit)).value;
      h == g.(outbounds := h.outbounds) && Put(g.outbounds, id, h.outbounds)
      && HoldsExit(h.outbounds[id], name, exit, g.outbounds)
  {
    FullExactlyAtTheLimit(g.outbounds);
    CreatedExactly(g, id, name, exit);
  }

  lemma CreatedExactly(g: Graph, id: ID, name: string, exit: Exit)
    ensures AfterCreateOutbound(g, id, name, exit).Ok? <==>
      && GoodName(name) && (exit.NewSource? ==> exit.address.Given? && exit.address.wellFormed)
      && FreeSlot(g.outbounds, 1) != 0 && id !in g.outbounds && FreeName(g.outbounds, name, id)
    ensures AfterCreateOutbound(g, id, name, exit).Ok? ==>
      var h := AfterCreateOutbound(g, id, name, exit).value;
      h == g.(outbounds := h.outbounds) && Put(g.outbounds, id, h.outbounds)
      && HoldsExit(h.outbounds[id], name, exit, g.outbounds)
  {
    FreeSlotIsLeast(g.outbounds, 1);
  }

  /** A deletion removes one outbound. */
  lemma DeleteOutboundExactly(g: Graph, id: ID)
    requires PositionsDistinct(g.rules)
    ensures After(g, DeleteOutbound(id)).Ok? ==>
              id in g.outbounds && After(g, DeleteOutbound(id)).value == g.(outbounds := g.outbounds - {id})
  {
  }

  /** The IPv6 bridge needs an address: the stored one, or the one a registered device has. */
  predicate BridgePossible(o: Outbound, edit: OutboundInput) {
    edit.ipv6Sites == Some(true) && o.tunnel.Some? && o.tunnel.value.address6 == "" ==>
      o.kind.Warp? && o.account.Some? && edit.fetched.Ok? && edit.fetched.value != ""
  }

  /** With the new chain, all chains stay one level deep and loop-free. */
  ghost predicate GoodVia(g: Graph, id: ID, o: Outbound, edit: OutboundInput)
    requires o.tunnel.Some? && edit.via.Some?
  {
    ChainsKept(g.outbounds[id := o.(tunnel := Some(o.tunnel.value.(via := edit.via.value)))])
  }

  /** What the edit of a tunnel needs. */
  ghost predicate GoodTunnelEdit(g: Graph, id: ID, o: Outbound, edit: OutboundInput)
    requires o.tunnel.Some?
  {
    && (edit.endpoint.Given? ==> edit.endpoint.wellFormed)
    && (edit.mtu == 0 || 576 <= edit.mtu <= 1500)
    && (edit.via.Some? ==> GoodVia(g, id, o, edit))
    && BridgePossible(o, edit)
  }

  /** What an edit needs: every part of it that concerns this kind of outbound. */
  ghost predicate GoodEdit(g: Graph, id: ID, edit: OutboundInput)
    requires id in g.outbounds
  {
    var o := g.outbounds[id];
    && (edit.name != "" ==> GoodName(edit.name) && FreeName(g.outbounds, edit.name, id))
    && (o.tunnel.Some? ==> GoodTunnelEdit(g, id, o, edit))
    && (o.kind.SourceIP? && edit.sourceIP.Given? ==> edit.sourceIP.wellFormed)
  }

  /** What was given is stored, what was not given stays. */
  predicate HoldsTunnelEdit(was: Tunnel, now: Tunnel, edit: OutboundInput) {
    && now.endpoint == (if edit.endpoint.Given? then edit.endpoint.text else was.endpoint)
    && now.mtu == (if edit.mtu != 0 then edit.mtu else was.mtu)
    && now.via == (if edit.via.Some? then edit.via.value else was.via)
    && now.ipv6Sites == (if edit.ipv6Sites.Some? then edit.ipv6Sites.value else was.ipv6Sites)
    && now.address == was.address && now.peer == was.peer
    && (if edit.ipv6Sites == Some(true) && was.address6 == "" then edit.fetched == Ok(now.address6)
        else now.address6 == was.address6)
  }

  predicate HoldsEdit(was: Outbound, now: Outbound, edit: OutboundInput) {
    && now.name == (if edit.name != "" then Trim(edit.name) else was.name)
    && now.enabled == (if edit.enabled.Some? then edit.enabled.value else was.enabled)
    && now.kind == was.kind && now.slot == was.slot && now.account == was.account
    && (now.tunnel.Some? <==> was.tunnel.Some?)
    && (was.tunnel.Some? ==> HoldsTunnelEdit(was.tunnel.value, now.tunnel.value, edit))
    && now.sourceIP == if was.kind.SourceIP? && edit.sourceIP.Given? then edit.sourceIP.text else was.sourceIP
  }

  lemma GoodTunnelEditExactly(g: Graph, id: ID, o: Outbound, edit: OutboundInput)
    requires id in g.outbounds && o.tunnel.Some? && o.tunnel == g.outbounds[id].tunnel
    requires o.kind == g.outbounds[id].kind && o.account == g.outbounds[id].account
    requires edit.via.Some? ==> (CheckVia(g.outbounds, id, edit.via.value).None? <==> GoodVia(g, id, g.outbounds[id], edit))
    ensures EditTunnel(g, id, o, o.tunnel.value, edit).Ok? <==> GoodTunnelEdit(g, id, g.outbounds[id], edit)
  {
  }

  lemma EditedTunnelHolds(g: Graph, id: ID, o: Outbound, edit: OutboundInput)
    requires o.tunnel.Some? && EditTunnel(g, id, o, o.tunnel.value, edit).Ok?
    ensures HoldsTunnelEdit(o.tunnel.value, EditTunnel(g, id, o, o.tunnel.value, edit).value, edit)
  {
  }

  /** The outbound with the edits that concern every kind. */
  function Renamed(o: Outbound, edit: OutboundInput): Outbound {
    o.(name := if edit.name != "" then Trim(edit.name) else o.name,
       enabled := if edit.enabled.Some? then edit.enabled.value else o.enabled)
  }

  lemma GoodEditExactly(g: Graph, id: ID, edit: OutboundInput)
    requires id in g.outbounds && (g.outbounds[id].tunnel.Some? <==> Tunneled(g.outbounds[id].kind))
    requires g.outbounds[id].tunnel.Some? && edit.via.Some? ==>
               (CheckVia(g.outbounds, id, edit.via.value).None? <==> GoodVia(g, id, g.outbounds[id], edit))
    ensures AfterUpdateOutbound(g, id, edit).Ok? <==> GoodEdit(g, id, edit) && KeepsName(g, id, edit)
  {
    if g.outbounds[id].tunnel.Some? {
      GoodTunnelEditExactly(g, id, Renamed(g.outbounds[id], edit), edit);
    }
  }

  lemma EditedHolds(g: Graph, id: ID, edit: OutboundInput)
    requires id in g.outbounds && (g.outbounds[id].tunnel.Some? <==> Tunneled(g.outbounds[id].kind))
    requires Edited(g, id, edit).Ok?
    ensures HoldsEdit(g.outbounds[id], Edited(g, id, edit).value, edit)
  {
    if g.outbounds[id].tunnel.Some? {
      EditedTunnelHolds(g, id, Renamed(g.outbounds[id], edit), edit);
    }
  }

  /** The name that stays is nobody else's. */
  predicate KeepsName(g: Graph, id: ID, edit: OutboundInput)
    requires id in g.outbounds
  {
    edit.name == "" ==> !NameTakenBy(g.outbounds, g.outbounds[id].name, id)
  }

  lemma UpdateOutboundExactly(g: Graph, id: ID, edit: OutboundInput)
    requires Integrity(g)
    ensures After(g, UpdateOutbound(id, edit)).Ok? <==> id in g.outbounds && GoodEdit(g, id, edit)
    ensures After(g, UpdateOutbound(id, edit)).Ok? ==>
      var h := After(g, UpdateOutbound(id, edit)).value;
      h == g.(outbounds := h.outbounds) && Put(g.outbounds, id, h.outbounds)
      && HoldsEdit(g.outbounds[id], h.outbounds[id], edit)
  {
    if id in g.outbounds {
      if g.outbounds[id].tunnel.Some? && edit.via.Some? {
        ViaAcceptedExactly(g, id, edit.via.value);
      }
      GoodEditExactly(g, id, edit);
      if AfterUpdateOutbound(g, id, edit).Ok? {
        EditedHolds(g, id, edit);
      }
    }
  }

  /** A re-import takes the new tunnel over, except for the chain and a bridge without an address. */
  lemma ReplaceConfigExactly(g: Graph, id: ID, parsed: Option<Tunnel>)
    requires PositionsDistinct(g.rules) && OutboundsKept(g.outbounds)
    ensures After(g, ReplaceConfig(id, parsed)).Ok? <==>
              id in g.outbounds && g.outbounds[id].kind.WireGuard? && parsed.Some?
    ensures After(g, ReplaceConfig(id, parsed)).Ok? ==>
      var h := After(g, ReplaceConfig(id, parsed)).value;
      h == g.(outbounds := h.outbounds) && Put(g.outbounds, id, h.outbounds)
      && HoldsImport(g.outbounds[id], h.outbounds[id], parsed.value)
  {
  }

  /** The tunnel is the parsed one, but for the chain and the bridge. */
  predicate HoldsImport(was: Outbound, now: Outbound, parsed: Tunnel) {
    && was.tunnel.Some? && now.tunnel.Some? && now == was.(tunnel := now.tunnel)
    && var t, u := was.tunnel.value, now.tunnel.value;
       && u.via == t.via && u.ipv6Sites == (t.ipv6Sites && parsed.address6 != "")
       && u == parsed.(via := u.via, ipv6Sites := u.ipv6Sites)
  }

  /** A renewed device has the new registration, and keeps an endpoint the operator chose. */
  lemma RenewWarpExactly(g: Graph, id: ID, registered: Option<Registration>)
    requires PositionsDistinct(g.rules) && OutboundsKept(g.outbounds)
    ensures After(g, RenewWarp(id, registered)).Ok? <==>
              id in g.outbounds && g.outbounds[id].kind.Warp? && g.outbounds[id].account.Some? && registered.Some?
    ensures After(g, RenewWarp(id, registered)).Ok? ==>
      var h := After(g, RenewWarp(id, registered)).value;
      h == g.(outbounds := h.outbounds) && Put(g.outbounds, id, h.outbounds)
      && HoldsRenewal(g.outbounds[id], h.outbounds[id], registered.value)
  {
  }

  /** The registration is the new one; everything else stays, an endpoint the operator chose too. */
  predicate HoldsRenewal(was: Outbound, now: Outbound, r: Registration) {
    && was.tunnel.Some? && now.tunnel.Some?
    && now == was.(account := Some(r.account), tunnel := now.tunnel)
    && var t, u := was.tunnel.value, now.tunnel.value;
       && u == t.(address := r.address, peer := r.peer, address6 := r.address6, endpoint := u.endpoint)
       && u.endpoint == if Chosen(t.endpoint) then t.endpoint else r.endpoint
  }

  /** An endpoint that is not the provider's own. */
  predicate Chosen(endpoint: string) {
    endpoint != "" && !("engage.cloudflareclient.com:" <= endpoint)
  }

  // ---- refusals -------------------------------------------------------------------------

  /** The fault a refusal names is one of the name. */
  predicate BlamesName(name: string, why: Reason) {
    || (why.NameRequired? && Trim(name) == "")
    || (why.NameInvalid? && Trim(name) != "" && !GoodName(name))
  }

  /** It is one of the rule. */
  predicate BlamesRule(g: Graph, r: RuleInput, why: Reason) {
    || BlamesName(r.name, why)
    || (why.TargetInvalid? && r.target.UnknownTarget?)
    || (why.TargetUnknown? && !r.target.UnknownTarget? && !Exists(g, r.target))
    || (why.PresetUnknown? && !r.presetsKnown)
    || (why.MatchersInvalid? && r.matchers.None?)
    || (why.RuleEmpty? && r.presets == {} && r.matchers == Some([]))
  }

  /** A rule is refused for a fault it has. */
  lemma RuleRefusals(g: Graph, id: ID, r: RuleInput)
    ensures AfterCreateRule(g, id, r).Err? ==>
      var e := AfterCreateRule(g, id, r).error;
      || (e.Invalid? && (BlamesRule(g, r, e.reason) || (e.reason.RulesFull? && |g.rules| >= 128)))
      || (e.StoreFailed? && id in g.rules)
    ensures AfterUpdateRule(g, id, r).Err? ==>
      var e := AfterUpdateRule(g, id, r).error;
      (e.Invalid? && BlamesRule(g, r, e.reason)) || (e.NotFound? && id !in g.rules)
  {
  }

  /** It is one of the balancer. */
  ghost predicate BlamesBalancer(g: Graph, b: BalancerInput, why: Reason) {
    || BlamesName(b.name, why)
    || (why.StrategyInvalid? && b.strategy.UnknownStrategy?)
    || (why.FallbackInvalid? && b.fallback.UnknownFallback?)
    || (why.MembersRequired? && b.members == [])
    || (why.MembersTooMany? && |b.members| > 16)
    || BlamesMember(g, b.members, why)
  }

  ghost predicate BlamesMember(g: Graph, members: seq<Member>, why: Reason) {
    || (why.MembersDuplicate? && exists i, j :: 0 <= i < j < |members| && members[i].outbound == members[j].outbound)
    || (why.WeightInvalid? && exists i :: 0 <= i < |members| && !(0 <= members[i].weight <= 10))
    || (why.MemberUnknown? && exists i :: 0 <= i < |members| && members[i].outbound !in g.outbounds)
  }

  lemma {:induction false} MemberRefusals(g: Graph, members: seq<Member>, k: nat)
    requires k <= |members| && CheckMembers(g.outbounds, members, k).Some?
    ensures var e := CheckMembers(g.outbounds, members, k).value; e.Invalid? && BlamesMember(g, members, e.reason)
    decreases |members| - k
  {
    if k < |members| && CheckMembers(g.outbounds, members, k + 1).Some? {
      MemberRefusals(g, members, k + 1);
    }
  }

  /** A balancer is refused for a fault it has. */
  lemma BalancerRefusals(g: Graph, id: ID, b: BalancerInput)
    ensures AfterCreateBalancer(g, id, b).Err? ==>
      var e := AfterCreateBalancer(g, id, b).error;
      e.Invalid? &&
      (|| BlamesBalancer(g, b, e.reason)
       || (e.reason.BalancersFull? && |g.balancers| >= 32)
       || (e.reason.NameTaken? && (id in g.balancers || !FreeBalancerName(g, b.name, id))))
    ensures AfterUpdateBalancer(g, id, b).Err? ==>
      var e := AfterUpdateBalancer(g, id, b).error;
      || (e.NotFound? && id !in g.balancers)
      || (e.Invalid? && (BlamesBalancer(g, b, e.reason) || (e.reason.NameTaken? && !FreeBalancerName(g, b.name, id))))
  {
    BalancerFault(g, b);
  }

  lemma BalancerFault(g: Graph, b: BalancerInput)
    ensures CheckBalancer(g.outbounds, b).Some? ==>
      var e := CheckBalancer(g.outbounds, b).value; e.Invalid? && BlamesBalancer(g, b, e.reason)
  {
    if CheckMembers(g.outbounds, b.members, 0).Some? {
      MemberRefusals(g, b.members, 0);
    }
  }

  /** A chain is refused for a fault it has. */
  ghost predicate BlamesVia(outbounds: map<ID, Outbound>, id: ID, via: ID, why: Reason) {
    || (why.ViaSelf? && via == id)
    || (why.ViaUnknown? && via !in outbounds)
    || (why.ViaNotTunnel? && via in outbounds && !(Tunneled(outbounds[via].kind) && outbounds[via].tunnel.Some?))
    || (why.ViaChained? && via in outbounds && ViaOf(outbounds[via]) != NONE)
    || (why.ViaInUse? && ChainedThrough(outbounds, id))
  }

  /** It is one of the edit of a tunnel. */
  ghost predicate BlamesTunnelEdit(g: Graph, id: ID, o: Outbound, edit: OutboundInput, why: Reason) {
    || (why.EndpointInvalid? && edit.endpoint.Given? && !edit.endpoint.wellFormed)
    || (why.MTUInvalid? && edit.mtu != 0 && !(576 <= edit.mtu <= 1500))
    || (edit.via.Some? && BlamesVia(g.outbounds, id, edit.via.value, why))
    || (why.AddressMissing? && !BridgePossible(o, edit))
  }

  lemma TunnelRefusals(g: Graph, id: ID, o: Outbound, edit: OutboundInput)
    requires o.tunnel.Some? && EditTunnel(g, id, o, o.tunnel.value, edit).Err?
    ensures var e := EditTunnel(g, id, o, o.tunnel.value, edit).error;
            (e.Invalid? && BlamesTunnelEdit(g, id, o, edit, e.reason)) || edit.fetched == Err(e)
  {
  }

  /** An outbound is refused for a fault it has. */
  lemma CreateOutboundRefusals(g: Graph, id: ID, name: string, exit: Exit)
    requires AfterCreateOutbound(g, id, name, exit).Err?
    ensures var e := AfterCreateOutbound(g, id, name, exit).error;
      e.Invalid? &&
      (|| BlamesName(name, e.reason)
       || (e.reason.SourceIPInvalid? && exit.NewSource? && !(exit.address.Given? && exit.address.wellFormed))
       || (e.reason.OutboundsFull? && forall n | 1 <= n <= 63 :: SlotUsed(g.outbounds, n))
       || (e.reason.NameTaken? && (id in g.outbounds || !FreeName(g.outbounds, name, id))))
  {
    FreeSlotIsLeast(g.outbounds, 1);
  }

  lemma UpdateOutboundRefusals(g: Graph, id: ID, edit: OutboundInput)
    requires AfterUpdateOutbound(g, id, edit).Err?
    ensures var e := AfterUpdateOutbound(g, id, edit).error;
      if id !in g.outbounds then e.NotFound?
      else
        var o := g.outbounds[id];
        || (e.Invalid? &&
            (|| (edit.name != "" && BlamesName(edit.name, e.reason))
             || (e.reason.NameTaken? && NameTakenBy(g.outbounds, if edit.name != "" then Trim(edit.name) else o.name, id))
             || (o.tunnel.Some? && BlamesTunnelEdit(g, id, o, edit, e.reason))
             || (e.reason.SourceIPInvalid? && edit.sourceIP.Given? && !edit.sourceIP.wellFormed)))
        || (o.tunnel.Some? && edit.fetched == Err(e))
  {
    if id in g.outbounds {
      var o := Renamed(g.outbounds[id], edit);
      if o.tunnel.Some? && EditTunnel(g, id, o, o.tunnel.value, edit).Err? {
        TunnelRefusals(g, id, o, edit);
      }
    }
  }
}
