/**
 The desired state of egress routing: outbounds, balancers, ordered rules and
 the default route, what every stored state must keep, and what each service
 call makes of it.  A call that fails leaves the state as it was.
 */
module Egress {
  import opened Text
  import opened Wrappers

  /** Generated identifiers; NONE is the empty one, which names nothing. */
  type ID = nat

  const NONE: ID := 0

  datatype Kind = Warp | WireGuard | SourceIP

  /** The stored half of a tunnel; `via` is NONE for a tunnel that is not chained. */
  datatype Tunnel = Tunnel(
    address: string,
    peer: string,
    endpoint: string,
    mtu: int,
    via: ID,
    address6: string,
    ipv6Sites: bool)

  datatype Outbound = Outbound(
    name: string,
    kind: Kind,
    slot: int,
    enabled: bool,
    tunnel: Option<Tunnel>,
    sourceIP: string,
    account: Option<string>)

  datatype Target = Direct | Block | ToOutbound(id: ID) | ToBalancer(id: ID) | UnknownTarget

  datatype Member = Member(outbound: ID, weight: int)

  datatype Strategy = Sticky | RoundRobin | Random | LeastConn | Failover | UnknownStrategy

  datatype Fallback = ToDirect | ToBlock | Unset | UnknownFallback

  datatype Balancer = Balancer(
    name: string,
    strategy: Strategy,
    fallback: Fallback,
    members: seq<Member>,
    enabled: bool)

  datatype Rule = Rule(
    name: string,
    position: int,
    enabled: bool,
    target: Target,
    presets: set<string>,
    matchers: seq<string>)

  datatype Graph = Graph(
    outbounds: map<ID, Outbound>,
    balancers: map<ID, Balancer>,
    rules: map<ID, Rule>,
    default: Target)

  datatype Reason =
    | NameRequired | NameInvalid | NameTaken
    | OutboundsFull | BalancersFull | RulesFull
    | EndpointInvalid | MTUInvalid | SourceIPInvalid | AddressMissing
    | ViaSelf | ViaUnknown | ViaNotTunnel | ViaChained | ViaInUse
    | NotWireGuard | NotWarp | ConfigInvalid
    | InUse
    | StrategyInvalid | FallbackInvalid
    | MembersRequired | MembersTooMany | MembersDuplicate | WeightInvalid | MemberUnknown
    | TargetInvalid | TargetUnknown | PresetUnknown | MatchersInvalid | RuleEmpty
    | PositionInvalid | URLInvalid

  datatype Error = NotFound | Unavailable | StoreFailed | Invalid(reason: Reason)

  const MAX_SLOTS := 63
  const MAX_NAME := 48
  const MAX_BALANCERS := 32
  const MAX_MEMBERS := 16
  const MAX_RULES := 128
  const MAX_WEIGHT := 10

  // ---- what every stored state keeps -------------------------------------------------

  predicate Tunneled(k: Kind) {
    k.Warp? || k.WireGuard?
  }

  predicate Exists(g: Graph, t: Target) {
    match t
    case Direct => true
    case Block => true
    case ToOutbound(id) => id in g.outbounds
    case ToBalancer(id) => id in g.balancers
    case UnknownTarget => false
  }

  function ViaOf(o: Outbound): ID {
    if o.tunnel.Some? then o.tunnel.value.via else NONE
  }

  /** Slots are distinct and within range, names are distinct, and NONE names nothing. */
  ghost predicate OutboundsKept(outbounds: map<ID, Outbound>) {
    && NONE !in outbounds
    && (forall i | i in outbounds :: 1 <= outbounds[i].slot <= MAX_SLOTS)
    && (forall i, j | i in outbounds && j in outbounds && i != j ::
          outbounds[i].slot != outbounds[j].slot && outbounds[i].name != outbounds[j].name)
    && (forall i | i in outbounds :: outbounds[i].tunnel.Some? <==> Tunneled(outbounds[i].kind))
  }

  /** A chain goes through one other tunnel that is not chained itself. */
  ghost predicate ChainsKept(outbounds: map<ID, Outbound>) {
    forall i | i in outbounds && ViaOf(outbounds[i]) != NONE ::
      var via := ViaOf(outbounds[i]);
      && via != i && via in outbounds
      && outbounds[via].tunnel.Some? && outbounds[via].tunnel.value.via == NONE
  }

  ghost predicate MembersKept(outbounds: map<ID, Outbound>, members: seq<Member>) {
    && 1 <= |members| <= MAX_MEMBERS
    && (forall i | 0 <= i < |members| ::
          members[i].outbound in outbounds && 1 <= members[i].weight <= MAX_WEIGHT)
    && (forall i, j | 0 <= i < j < |members| :: members[i].outbound != members[j].outbound)
  }

  ghost predicate BalancerKept(outbounds: map<ID, Outbound>, b: Balancer) {
    && MembersKept(outbounds, b.members)
    && !b.strategy.UnknownStrategy?
    && (b.fallback.ToDirect? || b.fallback.ToBlock?)
  }

  ghost predicate BalancerNamesDistinct(balancers: map<ID, Balancer>) {
    forall b, c | b in balancers && c in balancers && b != c :: balancers[b].name != balancers[c].name
  }

  ghost predicate BalancersKept(g: Graph) {
    && |g.balancers| <= MAX_BALANCERS
    && (forall b | b in g.balancers :: BalancerKept(g.outbounds, g.balancers[b]))
    && BalancerNamesDistinct(g.balancers)
  }

  ghost predicate RulesKept(g: Graph) {
    && |g.rules| <= MAX_RULES
    && (forall r | r in g.rules :: Exists(g, g.rules[r].target))
    && (forall r | r in g.rules :: g.rules[r].presets != {} || g.rules[r].matchers != [])
    && PositionsDistinct(g.rules)
  }

  ghost predicate PositionsDistinct(rules: map<ID, Rule>) {
    forall r, s | r in rules && s in rules && r != s :: rules[r].position != rules[s].position
  }

  /** Every reference names an existing object. */
  ghost predicate Integrity(g: Graph) {
    && OutboundsKept(g.outbounds)
    && ChainsKept(g.outbounds)
    && BalancersKept(g)
    && RulesKept(g)
    && Exists(g, g.default) && !g.default.Block?
  }

  // ---- inputs ---------------------------------------------------------------------------

  function CheckName(name: string): Option<Error> {
    var t := Trim(name);
    if t == "" then Some(Invalid(NameRequired))
    else if |t| > MAX_NAME || '\0' in t || '\r' in t || '\n' in t || '\t' in t then Some(Invalid(NameInvalid))
    else None
  }

  /** A text field of a request after its own syntax check. */
  datatype Field = Keep | Given(text: string, wellFormed: bool)

  /** What a create call stores: a parsed tunnel, or a source address. */
  datatype Exit =
    | NewTunnel(kind: Kind, tunnel: Tunnel, account: Option<string>)
    | NewSource(address: Field)

  datatype OutboundInput = OutboundInput(
    name: string,
    enabled: Option<bool>,
    endpoint: Field,
    mtu: int,
    sourceIP: Field,
    via: Option<ID>,
    ipv6Sites: Option<bool>,
    fetched: Result<string, Error>)

  datatype BalancerInput = BalancerInput(
    name: string,
    strategy: Strategy,
    fallback: Fallback,
    members: seq<Member>,
    enabled: bool)

  datatype RuleInput = RuleInput(
    name: string,
    target: Target,
    presets: set<string>,
    presetsKnown: bool,
    matchers: Option<seq<string>>,
    enabled: bool)

  /** A fresh device registration of the tunnel provider. */
  datatype Registration = Registration(account: string, address: string, peer: string, endpoint: string, address6: string)

  datatype Call =
    | CreateOutbound(id: ID, name: string, exit: Exit)
    | UpdateOutbound(id: ID, edit: OutboundInput)
    | ReplaceConfig(id: ID, parsed: Option<Tunnel>)
    | RenewWarp(id: ID, registered: Option<Registration>)
    | DeleteOutbound(id: ID)
    | CreateBalancer(id: ID, balancer: BalancerInput)
    | UpdateBalancer(id: ID, balancer: BalancerInput)
    | SetBalancerEnabled(id: ID, enabled: bool)
    | DeleteBalancer(id: ID)
    | CreateRule(id: ID, rule: RuleInput)
    | UpdateRule(id: ID, rule: RuleInput)
    | SetRuleEnabled(id: ID, enabled: bool)
    | MoveRule(id: ID, delta: int)
    | DeleteRule(id: ID)
    | UpdateSettings(target: Target, urlsValid: bool)

  /** A new object gets a generated ID, never the empty one; a parsed config is never chained. */
  predicate WellFormed(c: Call) {
    match c
    case CreateOutbound(id, _, exit) =>
      id != NONE && (exit.NewTunnel? ==> Tunneled(exit.kind) && exit.tunnel.via == NONE)
    case CreateBalancer(id, _) => id != NONE
    case CreateRule(id, _) => id != NONE
    case ReplaceConfig(_, parsed) => parsed.Some? ==> parsed.value.via == NONE
    case _ => true
  }

  // ---- outbounds ------------------------------------------------------------------------

  predicate NameTakenBy(outbounds: map<ID, Outbound>, name: string, but: ID) {
    exists i :: i in outbounds && i != but && outbounds[i].name == name
  }

  ghost predicate SlotUsed(outbounds: map<ID, Outbound>, n: int) {
    exists i :: i in outbounds && outbounds[i].slot == n
  }

  /** The first free slot from n on, or 0 when there is none. */
  ghost function FreeSlot(outbounds: map<ID, Outbound>, n: int): int
    decreases MAX_SLOTS + 1 - n, |outbounds|
  {
    if n > MAX_SLOTS then 0
    else if !SlotUsed(outbounds, n) then n
    else FreeSlot(outbounds, n + 1)
  }

  function NewOutbound(name: string, exit: Exit, slot: int): Outbound {
    if exit.NewTunnel?
    then Outbound(Trim(name), exit.kind, slot, true, Some(exit.tunnel), "", exit.account)
    else Outbound(Trim(name), SourceIP, slot, true, None,
                  if exit.address.Given? then exit.address.text else "", None)
  }

  ghost function AfterCreateOutbound(g: Graph, id: ID, name: string, exit: Exit): Result<Graph, Error> {
    if CheckName(name).Some? then Err(CheckName(name).value)
    else if exit.NewSource? && !(exit.address.Given? && exit.address.wellFormed) then Err(Invalid(SourceIPInvalid))
    else
      var slot := FreeSlot(g.outbounds, 1);
      var o := NewOutbound(name, exit, slot);
      if slot == 0 then Err(Invalid(OutboundsFull))
      else if id in g.outbounds || NameTakenBy(g.outbounds, o.name, id) then Err(Invalid(NameTaken))
      else Ok(g.(outbounds := g.outbounds[id := o]))
  }

  ghost predicate ChainedThrough(outbounds: map<ID, Outbound>, id: ID) {
    exists i :: i in outbounds && outbounds[i].tunnel.Some? && outbounds[i].tunnel.value.via == id
  }

  ghost function CheckVia(outbounds: map<ID, Outbound>, id: ID, via: ID): Option<Error> {
    if via == NONE then None
    else if via == id then Some(Invalid(ViaSelf))
    else if via !in outbounds then Some(Invalid(ViaUnknown))
    else if !Tunneled(outbounds[via].kind) || outbounds[via].tunnel.None? then Some(Invalid(ViaNotTunnel))
    else if outbounds[via].tunnel.value.via != NONE then Some(Invalid(ViaChained))
    else if ChainedThrough(outbounds, id) then Some(Invalid(ViaInUse))
    else None
  }

  /** The tunnel edits that need no look at other rows. */
  function EditEndpoint(t: Tunnel, edit: OutboundInput): Result<Tunnel, Error> {
    if edit.endpoint.Given? && !edit.endpoint.wellFormed then Err(Invalid(EndpointInvalid))
    else if edit.mtu != 0 && !(576 <= edit.mtu <= 1500) then Err(Invalid(MTUInvalid))
    else Ok(t.(endpoint := if edit.endpoint.Given? then edit.endpoint.text else t.endpoint,
               mtu := if edit.mtu != 0 then edit.mtu else t.mtu))
  }

  /** Turning the IPv6 bridge on may have to fetch the address of a registered device. */
  function EditBridge(o: Outbound, t: Tunnel, edit: OutboundInput): Result<Tunnel, Error> {
    if edit.ipv6Sites.None? then Ok(t)
    else if edit.ipv6Sites.value && t.address6 == "" then
      if !o.kind.Warp? || o.account.None? then Err(Invalid(AddressMissing))
      else if edit.fetched.Err? then Err(edit.fetched.error)
      else if edit.fetched.value == "" then Err(Invalid(AddressMissing))
      else Ok(t.(address6 := edit.fetched.value, ipv6Sites := true))
    else Ok(t.(ipv6Sites := edit.ipv6Sites.value))
  }

  ghost function EditTunnel(g: Graph, id: ID, o: Outbound, t: Tunnel, edit: OutboundInput): Result<Tunnel, Error> {
    var e := EditEndpoint(t, edit);
    if e.Err? then e
    else
      var via := if edit.via.Some? then edit.via.value else t.via;
      if edit.via.Some? && CheckVia(g.outbounds, id, via).Some? then Err(CheckVia(g.outbounds, id, via).value)
      else EditBridge(o, e.value.(via := via), edit)
  }

  ghost function Edited(g: Graph, id: ID, edit: OutboundInput): Result<Outbound, Error>
    requires id in g.outbounds
  {
    var o := g.outbounds[id];
    if edit.name != "" && CheckName(edit.name).Some? then Err(CheckName(edit.name).value)
    else
      var o := o.(name := if edit.name != "" then Trim(edit.name) else o.name,
                  enabled := if edit.enabled.Some? then edit.enabled.value else o.enabled);
      if Tunneled(o.kind) && o.tunnel.Some? then
        var t := EditTunnel(g, id, o, o.tunnel.value, edit);
        if t.Err? then Err(t.error) else Ok(o.(tunnel := Some(t.value)))
      else if o.kind.SourceIP? && edit.sourceIP.Given? then
        if edit.sourceIP.wellFormed then Ok(o.(sourceIP := edit.sourceIP.text))
        else Err(Invalid(SourceIPInvalid))
      else Ok(o)
  }

  function Stored(g: Graph, id: ID, o: Outbound): Result<Graph, Error> {
    if NameTakenBy(g.outbounds, o.name, id) then Err(Invalid(NameTaken))
    else Ok(g.(outbounds := g.outbounds[id := o]))
  }

  ghost function AfterUpdateOutbound(g: Graph, id: ID, edit: OutboundInput): Result<Graph, Error> {
    if id !in g.outbounds then Err(NotFound)
    else if Edited(g, id, edit).Err? then Err(Edited(g, id, edit).error)
    else Stored(g, id, Edited(g, id, edit).value)
  }

  /** A re-import keeps the chain, and the bridge while there is still an address for it. */
  function Reimported(o: Outbound, parsed: Tunnel): Outbound {
    o.(tunnel := Some(
         if o.tunnel.None? then parsed
         else parsed.(via := o.tunnel.value.via,
                      ipv6Sites := o.tunnel.value.ipv6Sites && parsed.address6 != "")))
  }

  function AfterReplaceConfig(g: Graph, id: ID, parsed: Option<Tunnel>): Result<Graph, Error> {
    if id !in g.outbounds then Err(NotFound)
    else if !g.outbounds[id].kind.WireGuard? then Err(Invalid(NotWireGuard))
    else if parsed.None? then Err(Invalid(ConfigInvalid))
    else Stored(g, id, Reimported(g.outbounds[id], parsed.value))
  }

  predicate DefaultEndpoint(endpoint: string) {
    endpoint == "" || "engage.cloudflareclient.com:" <= endpoint
  }

  /** A new device keeps name, slot, MTU, chain and an endpoint the operator chose. */
  function Renewed(o: Outbound, r: Registration): Outbound
    requires o.tunnel.Some?
  {
    var t := o.tunnel.value;
    o.(account := Some(r.account),
       tunnel := Some(t.(address := r.address, peer := r.peer, address6 := r.address6,
                         endpoint := if DefaultEndpoint(t.endpoint) then r.endpoint else t.endpoint)))
  }

  function AfterRenewWarp(g: Graph, id: ID, registered: Option<Registration>): Result<Graph, Error> {
    if id !in g.outbounds then Err(NotFound)
    else
      var o := g.outbounds[id];
      if !o.kind.Warp? || o.account.None? || o.tunnel.None? then Err(Invalid(NotWarp))
      else if registered.None? then Err(Unavailable)
      else Stored(g, id, Renewed(o, registered.value))
  }

  // ---- references -----------------------------------------------------------------------

  ghost predicate HasMember(b: Balancer, id: ID) {
    exists m :: m in b.members && m.outbound == id
  }

  /** Something routes through the target: a chain, a rule, a balancer or the default. */
  ghost predicate Referenced(g: Graph, t: Target) {
    || (t.ToOutbound? && ChainedThrough(g.outbounds, t.id))
    || (exists r :: r in g.rules && g.rules[r].target == t)
    || (t.ToOutbound? && exists b :: b in g.balancers && HasMember(g.balancers[b], t.id))
    || g.default == t
  }

  ghost function AfterDeleteOutbound(g: Graph, id: ID): Result<Graph, Error> {
    if Referenced(g, ToOutbound(id)) then Err(Invalid(InUse))
    else if id !in g.outbounds then Err(NotFound)
    else Ok(g.(outbounds := g.outbounds - {id}))
  }

  ghost function AfterDeleteBalancer(g: Graph, id: ID): Result<Graph, Error> {
    if Referenced(g, ToBalancer(id)) then Err(Invalid(InUse))
    else if id !in g.balancers then Err(NotFound)
    else Ok(g.(balancers := g.balancers - {id}))
  }

  // ---- balancers ------------------------------------------------------------------------

  function Weighted(m: Member): Member {
    if m.weight == 0 then m.(weight := 1) else m
  }

  /** The first fault of the members from index i on. */
  function CheckMembers(outbounds: map<ID, Outbound>, members: seq<Member>, i: nat): Option<Error>
    requires i <= |members|
    decreases |members| - i
  {
    if i == |members| then None
    else if exists j :: 0 <= j < i && members[j].outbound == members[i].outbound then Some(Invalid(MembersDuplicate))
    else if !(1 <= Weighted(members[i]).weight <= MAX_WEIGHT) then Some(Invalid(WeightInvalid))
    else if members[i].outbound !in outbounds then Some(Invalid(MemberUnknown))
    else CheckMembers(outbounds, members, i + 1)
  }

  function CheckBalancer(outbounds: map<ID, Outbound>, b: BalancerInput): Option<Error> {
    if CheckName(b.name).Some? then CheckName(b.name)
    else if b.strategy.UnknownStrategy? then Some(Invalid(StrategyInvalid))
    else if b.fallback.UnknownFallback? then Some(Invalid(FallbackInvalid))
    else if b.members == [] then Some(Invalid(MembersRequired))
    else if |b.members| > MAX_MEMBERS then Some(Invalid(MembersTooMany))
    else CheckMembers(outbounds, b.members, 0)
  }

  function Weighed(members: seq<Member>): seq<Member> {
    seq(|members|, i requires 0 <= i < |members| => Weighted(members[i]))
  }

  function BalancerRow(b: BalancerInput): Balancer {
    Balancer(Trim(b.name), b.strategy, if b.fallback.Unset? then ToDirect else b.fallback, Weighed(b.members), b.enabled)
  }

  predicate BalancerNameTaken(g: Graph, name: string, but: ID) {
    exists b :: b in g.balancers && b != but && g.balancers[b].name == name
  }

  ghost function AfterCreateBalancer(g: Graph, id: ID, b: BalancerInput): Result<Graph, Error> {
    if CheckBalancer(g.outbounds, b).Some? then Err(CheckBalancer(g.outbounds, b).value)
    else if |g.balancers| >= MAX_BALANCERS then Err(Invalid(BalancersFull))
    else if id in g.balancers || BalancerNameTaken(g, Trim(b.name), id) then Err(Invalid(NameTaken))
    else Ok(g.(balancers := g.balancers[id := BalancerRow(b)]))
  }

  ghost function AfterUpdateBalancer(g: Graph, id: ID, b: BalancerInput): Result<Graph, Error> {
    if id !in g.balancers then Err(NotFound)
    else if CheckBalancer(g.outbounds, b).Some? then Err(CheckBalancer(g.outbounds, b).value)
    else if BalancerNameTaken(g, Trim(b.name), id) then Err(Invalid(NameTaken))
    else Ok(g.(balancers := g.balancers[id := BalancerRow(b)]))
  }

  function AfterSetBalancerEnabled(g: Graph, id: ID, enabled: bool): Result<Graph, Error> {
    if id !in g.balancers then Err(NotFound)
    else Ok(g.(balancers := g.balancers[id := g.balancers[id].(enabled := enabled)]))
  }

  // ---- rules and settings ------------------------------------------------------------------

  function CheckTarget(g: Graph, t: Target, allowBlock: bool): Option<Error> {
    match t
    case Direct => None
    case Block => if allowBlock then None else Some(Invalid(TargetInvalid))
    case ToOutbound(id) => if id in g.outbounds then None else Some(Invalid(TargetUnknown))
    case ToBalancer(id) => if id in g.balancers then None else Some(Invalid(TargetUnknown))
    case UnknownTarget => Some(Invalid(TargetInvalid))
  }

  function CheckRule(g: Graph, r: RuleInput): Option<Error> {
    if CheckName(r.name).Some? then CheckName(r.name)
    else if CheckTarget(g, r.target, true).Some? then CheckTarget(g, r.target, true)
    else if !r.presetsKnown then Some(Invalid(PresetUnknown))
    else if r.matchers.None? then Some(Invalid(MatchersInvalid))
    else if r.matchers.value == [] && r.presets == {} then Some(Invalid(RuleEmpty))
    else None
  }

  function RuleRow(r: RuleInput, position: int): Rule {
    Rule(Trim(r.name), position, r.enabled, r.target, r.presets, if r.matchers.Some? then r.matchers.value else [])
  }

  ghost predicate IsLast(rules: map<ID, Rule>, n: int) {
    && (forall r | r in rules :: rules[r].position <= n)
    && (if rules == map[] then n == 0 else exists r :: r in rules && rules[r].position == n)
  }

  lemma {:induction false} LastExists(rules: map<ID, Rule>)
    ensures exists n :: IsLast(rules, n)
    decreases |rules|
  {
    if rules == map[] {
      assert IsLast(rules, 0);
    } else {
      var r :| r in rules;
      var rest := rules - {r};
      LastExists(rest);
      var n :| IsLast(rest, n);
      var p := rules[r].position;
      if rest == map[] || p > n {
        assert rules.Keys == rest.Keys + {r};
        assert IsLast(rules, p);
      } else {
        var q :| q in rest && rest[q].position == n;
        assert q in rules && rules[q].position == n;
        assert rules.Keys == rest.Keys + {r};
        assert IsLast(rules, n);
      }
    }
  }

  /** The greatest position, 0 without rules. */
  ghost function LastPosition(rules: map<ID, Rule>): (n: int)
    ensures IsLast(rules, n)
  {
    LastExists(rules);
    var n :| IsLast(rules, n);
    n
  }

  /** A new rule goes after the last one. */
  ghost function NextPosition(rules: map<ID, Rule>): int {
    LastPosition(rules) + 1
  }

  ghost function AfterCreateRule(g: Graph, id: ID, r: RuleInput): Result<Graph, Error> {
    if CheckRule(g, r).Some? then Err(CheckRule(g, r).value)
    else if |g.rules| >= MAX_RULES then Err(Invalid(RulesFull))
    else if id in g.rules then Err(StoreFailed)
    else Ok(g.(rules := g.rules[id := RuleRow(r, NextPosition(g.rules))]))
  }

  function AfterUpdateRule(g: Graph, id: ID, r: RuleInput): Result<Graph, Error> {
    if id !in g.rules then Err(NotFound)
    else if CheckRule(g, r).Some? then Err(CheckRule(g, r).value)
    else Ok(g.(rules := g.rules[id := RuleRow(r, g.rules[id].position)]))
  }

  function AfterSetRuleEnabled(g: Graph, id: ID, enabled: bool): Result<Graph, Error> {
    if id !in g.rules then Err(NotFound)
    else Ok(g.(rules := g.rules[id := g.rules[id].(enabled := enabled)]))
  }

  function AfterDeleteRule(g: Graph, id: ID): Result<Graph, Error> {
    if id !in g.rules then Err(NotFound) else Ok(g.(rules := g.rules - {id}))
  }

  function AfterUpdateSettings(g: Graph, t: Target, urlsValid: bool): Result<Graph, Error> {
    if CheckTarget(g, t, false).Some? then Err(CheckTarget(g, t, false).value)
    else if !urlsValid then Err(Invalid(URLInvalid))
    else Ok(g.(default := t))
  }
}
