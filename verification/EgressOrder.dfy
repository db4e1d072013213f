/** The evaluation order of the rules, and what each rule call does to it. */
module EgressOrder {
  import opened Wrappers
  import opened Egress

  /** All rule IDs, by increasing position. */
  ghost predicate IsOrder(ids: seq<ID>, rules: map<ID, Rule>) {
    && (forall i | 0 <= i < |ids| :: ids[i] in rules)
    && (forall r {:trigger r in ids} | r in rules :: r in ids)
    && (forall i, j | 0 <= i < j < |ids| :: rules[ids[i]].position < rules[ids[j]].position)
  }

  lemma OrderDistinct(ids: seq<ID>, rules: map<ID, Rule>, i: nat, j: nat)
    requires IsOrder(ids, rules) && i < |ids| && j < |ids| && ids[i] == ids[j]
    ensures i == j
  {
  }

  lemma TailOrder(ids: seq<ID>, rules: map<ID, Rule>)
    requires IsOrder(ids, rules) && ids != []
    ensures IsOrder(ids[..|ids| - 1], rules - {ids[|ids| - 1]})
  {
    var n := |ids| - 1;
    var rest := rules - {ids[n]};
    forall r ensures r in ids[..n] <==> r in rest {
      if r in ids[..n] {
        var i :| 0 <= i < n && ids[..n][i] == r;
        assert ids[i] in rules;
      }
      if r in rest {
        assert r in ids;
        var i :| 0 <= i < |ids| && ids[i] == r;
        assert ids[..n][i] == r;
      }
    }
  }

  ghost predicate IsLastRule(rules: map<ID, Rule>, r: ID) {
    r in rules && forall s | s in rules && s != r :: rules[s].position < rules[r].position
  }

  lemma OrderEndsWithLast(ids: seq<ID>, rules: map<ID, Rule>)
    requires IsOrder(ids, rules) && ids != []
    ensures IsLastRule(rules, ids[|ids| - 1])
  {
    var n := |ids| - 1;
    assert ids[n] in ids;
    forall s | s in rules && s != ids[n] ensures rules[s].position < rules[ids[n]].position {
      assert s in ids;
      var i :| 0 <= i < |ids| && ids[i] == s;
    }
  }

  lemma LastRuleUnique(rules: map<ID, Rule>, r: ID, s: ID)
    requires IsLastRule(rules, r) && IsLastRule(rules, s)
    ensures r == s
  {
  }

  lemma OrderEmpty(ids: seq<ID>, rules: map<ID, Rule>)
    requires IsOrder(ids, rules)
    ensures ids == [] <==> rules == map[]
  {
    if ids != [] {
      assert ids[0] in ids;
    }
    if rules != map[] {
      var r :| r in rules;
      assert r in ids;
    }
  }

  /** There is one order. */
  lemma {:induction false} OrderUnique(a: seq<ID>, b: seq<ID>, rules: map<ID, Rule>)
    requires IsOrder(a, rules) && IsOrder(b, rules)
    ensures a == b
    decreases |a|
  {
    OrderEmpty(a, rules);
    OrderEmpty(b, rules);
    if a != [] {
      var m, n := |a| - 1, |b| - 1;
      var last := a[m];
      OrderEndsWithLast(a, rules);
      OrderEndsWithLast(b, rules);
      LastRuleUnique(rules, last, b[n]);
      assert a[..m] == b[..n] by {
        TailOrder(a, rules);
        TailOrder(b, rules);
        OrderUnique(a[..m], b[..n], rules - {last});
      }
      assert a == a[..m] + [last] && b == b[..n] + [last];
    }
  }

  lemma OrderSnoc(ids: seq<ID>, rules: map<ID, Rule>, last: ID)
    requires last in rules && IsOrder(ids, rules - {last}) && IsLastRule(rules, last)
    ensures IsOrder(ids + [last], rules)
  {
    var rest := rules - {last};
    var all := ids + [last];
    forall r ensures r in all <==> r in rules {
      assert r in ids <==> r in rest;
    }
    forall i, j | 0 <= i < j < |all| ensures rules[all[i]].position < rules[all[j]].position {
      assert ids[i] in ids;
      if j < |ids| {
        assert ids[j] in ids;
        assert rest[ids[i]].position < rest[ids[j]].position;
      }
    }
  }

  lemma LastRuleExists(rules: map<ID, Rule>) returns (last: ID)
    requires PositionsDistinct(rules) && rules != map[]
    ensures IsLastRule(rules, last)
  {
    LastExists(rules);
    var n :| IsLast(rules, n);
    last :| last in rules && rules[last].position == n;
  }

  lemma {:induction false} OrderExists(rules: map<ID, Rule>)
    requires PositionsDistinct(rules)
    ensures exists ids :: IsOrder(ids, rules)
    decreases |rules|
  {
    if rules == map[] {
      assert IsOrder([], rules);
    } else {
      var last := LastRuleExists(rules);
      assert (rules - {last}).Keys == rules.Keys - {last};
      OrderExists(rules - {last});
      var ids :| IsOrder(ids, rules - {last});
      OrderSnoc(ids, rules, last);
    }
  }

  ghost function Order(rules: map<ID, Rule>): (ids: seq<ID>)
    requires PositionsDistinct(rules)
    ensures IsOrder(ids, rules)
  {
    OrderExists(rules);
    var ids :| IsOrder(ids, rules);
    ids
  }

  /** ids with the elements at i and j exchanged. */
  function Swap(ids: seq<ID>, i: nat, j: nat): seq<ID>
    requires i < |ids| && j < |ids|
  {
    ids[i := ids[j]][j := ids[i]]
  }

  /** Positions 1, 2, ... for the first n in the given order. */
  ghost function Renumbered(rules: map<ID, Rule>, ids: seq<ID>, n: nat): map<ID, Rule>
    requires n <= |ids| && forall i | 0 <= i < |ids| :: ids[i] in rules
    ensures Renumbered(rules, ids, n).Keys == rules.Keys
  {
    if n == 0 then rules
    else
      var so := Renumbered(rules, ids, n - 1);
      so[ids[n - 1] := so[ids[n - 1]].(position := n)]
  }

  ghost function IndexOf(ids: seq<ID>, r: ID): (i: nat)
    requires r in ids
    ensures i < |ids| && ids[i] == r
  {
    var i: nat :| i < |ids| && ids[i] == r;
    i
  }

  /** The index of a rule in the evaluation order. */
  ghost function Place(rules: map<ID, Rule>, id: ID): (i: nat)
    requires PositionsDistinct(rules) && id in rules
    ensures i < |Order(rules)| && Order(rules)[i] == id
  {
    IndexOf(Order(rules), id)
  }

  /** There is a rule to exchange with in that direction. */
  ghost predicate CanMove(rules: map<ID, Rule>, id: ID, delta: int)
    requires PositionsDistinct(rules) && id in rules
  {
    0 <= Place(rules, id) + delta < |Order(rules)|
  }

  ghost function Exchanged(rules: map<ID, Rule>, id: ID, delta: int): seq<ID>
    requires PositionsDistinct(rules) && id in rules && CanMove(rules, id, delta)
  {
    Swap(Order(rules), Place(rules, id), Place(rules, id) + delta)
  }

  /** The rules after one move: renumbered along the order with two neighbours exchanged. */
  ghost function Moved(rules: map<ID, Rule>, id: ID, delta: int): map<ID, Rule>
    requires PositionsDistinct(rules) && id in rules
  {
    if CanMove(rules, id, delta) then
      var ids := Exchanged(rules, id, delta);
      Renumbered(rules, ids, |ids|)
    else rules
  }

  ghost function AfterMoveRule(g: Graph, id: ID, delta: int): Result<Graph, Error>
    requires PositionsDistinct(g.rules)
  {
    if delta != -1 && delta != 1 then Err(Invalid(PositionInvalid))
    else if id !in g.rules then Err(NotFound)
    else Ok(g.(rules := Moved(g.rules, id, delta)))
  }

  lemma SwapMembers(ids: seq<ID>, i: nat, j: nat)
    requires i < |ids| && j < |ids|
    ensures forall r :: r in Swap(ids, i, j) <==> r in ids
  {
    var s := Swap(ids, i, j);
    assert s[i] == ids[j] && s[j] == ids[i];
    forall r | r in ids ensures r in s {
      var k :| 0 <= k < |ids| && ids[k] == r;
      assert k != i && k != j ==> s[k] == r;
    }
  }

  ghost predicate NoRepeats(ids: seq<ID>) {
    forall i, j | 0 <= i < j < |ids| :: ids[i] != ids[j]
  }

  lemma OrderNoRepeats(ids: seq<ID>, rules: map<ID, Rule>)
    requires IsOrder(ids, rules)
    ensures NoRepeats(ids)
  {
  }

  lemma SwapNoRepeats(ids: seq<ID>, i: nat, j: nat)
    requires i < |ids| && j < |ids| && NoRepeats(ids)
    ensures NoRepeats(Swap(ids, i, j))
  {
  }

  /** The rules differ in their positions only. */
  ghost predicate SameButPositions(a: map<ID, Rule>, b: map<ID, Rule>) {
    a.Keys == b.Keys && forall r | r in a :: b[r].(position := a[r].position) == a[r]
  }

  lemma RepositionedKeeps(rules: map<ID, Rule>, so: map<ID, Rule>, r: ID, n: int)
    requires SameButPositions(rules, so) && r in so
    ensures SameButPositions(rules, so[r := so[r].(position := n)])
  {
  }

  lemma {:induction false} RenumberedKeeps(rules: map<ID, Rule>, ids: seq<ID>, n: nat)
    requires n <= |ids| && forall i | 0 <= i < |ids| :: ids[i] in rules
    ensures SameButPositions(rules, Renumbered(rules, ids, n))
    decreases n
  {
    if n > 0 {
      RenumberedKeeps(rules, ids, n - 1);
      RepositionedKeeps(rules, Renumbered(rules, ids, n - 1), ids[n - 1], n);
    }
  }

  lemma {:induction false} RenumberedPlace(rules: map<ID, Rule>, ids: seq<ID>, n: nat, i: nat)
    requires i < n <= |ids| && NoRepeats(ids) && forall j | 0 <= j < |ids| :: ids[j] in rules
    ensures Renumbered(rules, ids, n)[ids[i]].position == i + 1
    decreases n
  {
    if i < n - 1 {
      RenumberedPlace(rules, ids, n - 1, i);
      assert ids[i] != ids[n - 1];
    }
  }

  lemma RenumberedAt(rules: map<ID, Rule>, ids: seq<ID>, n: nat)
    requires n <= |ids| && NoRepeats(ids) && forall i | 0 <= i < |ids| :: ids[i] in rules
    ensures SameButPositions(rules, Renumbered(rules, ids, n))
    ensures forall i | 0 <= i < n :: Renumbered(rules, ids, n)[ids[i]].position == i + 1
  {
    RenumberedKeeps(rules, ids, n);
    forall i | 0 <= i < n ensures Renumbered(rules, ids, n)[ids[i]].position == i + 1 {
      RenumberedPlace(rules, ids, n, i);
    }
  }

  lemma OrderMakesDistinct(ids: seq<ID>, rules: map<ID, Rule>)
    requires IsOrder(ids, rules)
    ensures PositionsDistinct(rules)
  {
    forall r, s | r in rules && s in rules && r != s ensures rules[r].position != rules[s].position {
      assert r in ids && s in ids;
      var i :| 0 <= i < |ids| && ids[i] == r;
      var j :| 0 <= j < |ids| && ids[j] == s;
      assert i < j || j < i;
    }
  }

  /** Renumbering along a rearranged order makes that the order. */
  lemma RenumberedOrder(rules: map<ID, Rule>, ids: seq<ID>)
    requires NoRepeats(ids) && (forall i | 0 <= i < |ids| :: ids[i] in rules)
    requires forall r {:trigger r in ids} | r in rules :: r in ids
    ensures var now := Renumbered(rules, ids, |ids|);
            PositionsDistinct(now) && SameButPositions(rules, now) && Order(now) == ids
  {
    var now := Renumbered(rules, ids, |ids|);
    RenumberedAt(rules, ids, |ids|);
    assert IsOrder(ids, now);
    OrderMakesDistinct(ids, now);
    OrderUnique(ids, Order(now), now);
  }

  lemma ExchangeIs(rules: map<ID, Rule>, id: ID, delta: int, ids: seq<ID>, at: nat, other: nat)
    requires PositionsDistinct(rules) && id in rules && CanMove(rules, id, delta)
    requires ids == Order(rules) && at == Place(rules, id) && other == at + delta && other < |ids|
    ensures Exchanged(rules, id, delta) == Swap(ids, at, other)
  {
  }

  lemma ExchangedFacts(rules: map<ID, Rule>, id: ID, delta: int)
    requires PositionsDistinct(rules) && id in rules && CanMove(rules, id, delta)
    ensures var ids := Exchanged(rules, id, delta);
            && NoRepeats(ids)
            && (forall i | 0 <= i < |ids| :: ids[i] in rules)
            && (forall r {:trigger r in ids} | r in rules :: r in ids)
  {
    var ids := Order(rules);
    OrderNoRepeats(ids, rules);
    SwapNoRepeats(ids, Place(rules, id), Place(rules, id) + delta);
    SwapMembers(ids, Place(rules, id), Place(rules, id) + delta);
    forall r {:trigger r in Exchanged(rules, id, delta)} | r in rules ensures r in Exchanged(rules, id, delta) {
      assert r in ids;
    }
  }

  /** MoveRule changes nothing but positions, and keeps them distinct. */
  lemma MoveChangesPositionsOnly(rules: map<ID, Rule>, id: ID, delta: int)
    requires PositionsDistinct(rules) && id in rules
    ensures PositionsDistinct(Moved(rules, id, delta))
    ensures SameButPositions(rules, Moved(rules, id, delta))
  {
    if CanMove(rules, id, delta) {
      ExchangedFacts(rules, id, delta);
      RenumberedOrder(rules, Exchanged(rules, id, delta));
    }
  }

  /** MoveRule exchanges the rule with its neighbour in the evaluation order. */
  lemma MoveIsOneTransposition(rules: map<ID, Rule>, id: ID, delta: int)
    requires PositionsDistinct(rules) && id in rules && CanMove(rules, id, delta)
    ensures PositionsDistinct(Moved(rules, id, delta))
    ensures Order(Moved(rules, id, delta)) == Swap(Order(rules), Place(rules, id), Place(rules, id) + delta)
  {
    ExchangedFacts(rules, id, delta);
    RenumberedOrder(rules, Exchanged(rules, id, delta));
  }

  /** A move past an end changes nothing, and only the first or last rule is at one. */
  lemma MoveAtEndIsNothing(rules: map<ID, Rule>, id: ID, delta: int)
    requires PositionsDistinct(rules) && id in rules && (delta == -1 || delta == 1)
    ensures !CanMove(rules, id, delta) <==> if delta == -1 then Place(rules, id) == 0 else Place(rules, id) == |rules| - 1
    ensures !CanMove(rules, id, delta) ==> Moved(rules, id, delta) == rules
  {
    OrderSize(Order(rules), rules);
  }

  /** The opposite move of a rule that just changed places with the neighbour of its old place. */
  lemma MoveBack(there: map<ID, Rule>, id: ID, delta: int, ids: seq<ID>, at: nat, now: nat)
    requires PositionsDistinct(there) && id in there
    requires at < |ids| && now < |ids| && ids[at] == id && Order(there) == Swap(ids, at, now) && now + delta == at
    ensures PositionsDistinct(Moved(there, id, delta)) && Order(Moved(there, id, delta)) == ids
  {
    SwapTwice(ids, at, now);
    MovedPlace(there, id, now);
    MoveIsOneTransposition(there, id, delta);
  }

  lemma MovedPlace(there: map<ID, Rule>, id: ID, i: nat)
    requires PositionsDistinct(there) && id in there && i < |Order(there)| && Order(there)[i] == id
    ensures Place(there, id) == i
  {
    OrderDistinct(Order(there), there, i, Place(there, id));
  }

  lemma SwapTwice(ids: seq<ID>, i: nat, j: nat)
    requires i < |ids| && j < |ids|
    ensures Swap(Swap(ids, i, j), j, i) == ids
  {
  }

  /** A move and its opposite restore the order, unless the first had no effect. */
  lemma MoveBackRestores(rules: map<ID, Rule>, id: ID, delta: int, opposite: int)
    requires PositionsDistinct(rules) && id in rules && CanMove(rules, id, delta) && opposite == -delta
    ensures var there := Moved(rules, id, delta);
            && PositionsDistinct(there) && id in there
            && PositionsDistinct(Moved(there, id, opposite))
            && Order(Moved(there, id, opposite)) == Order(rules)
  {
    MovedStillThere(rules, id, delta);
    MoveIsOneTransposition(rules, id, delta);
    MoveBack(Moved(rules, id, delta), id, opposite, Order(rules), Place(rules, id), Place(rules, id) + delta);
  }

  lemma MovedStillThere(rules: map<ID, Rule>, id: ID, delta: int)
    requires PositionsDistinct(rules) && id in rules
    ensures PositionsDistinct(Moved(rules, id, delta)) && id in Moved(rules, id, delta)
  {
    MoveChangesPositionsOnly(rules, id, delta);
  }

  lemma {:induction false} OrderSize(ids: seq<ID>, rules: map<ID, Rule>)
    requires IsOrder(ids, rules)
    ensures |ids| == |rules|
    decreases |ids|
  {
    OrderEmpty(ids, rules);
    if ids != [] {
      var last := ids[|ids| - 1];
      TailOrder(ids, rules);
      OrderSize(ids[..|ids| - 1], rules - {last});
      assert last in rules;
      assert (rules - {last}).Keys == rules.Keys - {last};
    }
  }

  /** A new rule is evaluated last; the others keep their order. */
  lemma CreateAppends(g: Graph, id: ID, r: RuleInput)
    requires PositionsDistinct(g.rules) && AfterCreateRule(g, id, r).Ok?
    ensures IsOrder(Order(g.rules) + [id], AfterCreateRule(g, id, r).value.rules)
  {
    var rules := AfterCreateRule(g, id, r).value.rules;
    var ids := Order(g.rules) + [id];
    forall i, j | 0 <= i < j < |ids| ensures rules[ids[i]].position < rules[ids[j]].position {
      assert ids[i] in g.rules;
    }
  }

  function Without(ids: seq<ID>, id: ID): (r: seq<ID>)
    ensures forall x :: x in r <==> x in ids && x != id
  {
    if ids == [] then []
    else
      var last := ids[|ids| - 1];
      assert ids == ids[..|ids| - 1] + [last];
      if last == id then Without(ids[..|ids| - 1], id) else Without(ids[..|ids| - 1], id) + [last]
  }

  /** Deleting a rule leaves the order of the others. */
  lemma {:induction false} DeleteKeepsOrder(rules: map<ID, Rule>, ids: seq<ID>, id: ID)
    requires IsOrder(ids, rules)
    ensures IsOrder(Without(ids, id), rules - {id})
    decreases |ids|
  {
    if ids != [] {
      var n := |ids| - 1;
      var last := ids[n];
      TailOrder(ids, rules);
      DeleteKeepsOrder(rules - {last}, ids[..n], id);
      var r := Without(ids[..n], id);
      assert (rules - {last}) - {id} == (rules - {id}) - {last};
      var now := Without(ids, id);
      forall i, j | 0 <= i < j < |now|
        ensures (rules - {id})[now[i]].position < (rules - {id})[now[j]].position
      {
        assert now[i] in now && now[j] in now;
        assert now[i] == r[i] && r[i] in r;
        if j < |r| {
          assert r[j] in r;
        } else {
          var k :| 0 <= k < n && ids[k] == r[i];
          assert rules[ids[k]].position < rules[ids[n]].position;
        }
      }
    }
  }

  /** Editing or toggling a rule leaves the order. */
  lemma EditKeepsOrder(rules: map<ID, Rule>, ids: seq<ID>, id: ID, r: Rule)
    requires IsOrder(ids, rules) && id in rules && r.position == rules[id].position
    ensures IsOrder(ids, rules[id := r])
  {
  }
}
