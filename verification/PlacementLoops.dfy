/** The loops of replica placement: the load sort and the three selection passes. */
module PlacementLoops {
  import opened Prelude
  import opened FsmTypes
  import opened Placement

  /** `order` lists the workers as a range over the map would meet them. */
  ghost predicate MapOrder(ws: map<Id, Worker>, order: seq<Id>)
  {
    Distinct(order) && forall id :: id in order <==> id in ws
  }

  ghost predicate DistinctPrefix(ids: seq<Id>, order: seq<Id>, k: nat, ws: map<Id, Worker>, now: int)
    requires k <= |order| && Registered(ws, order)
  {
    Distinct(ids) && forall id :: id in ids <==> id in order[..k] && Eligible(ws[id], now)
  }

  lemma PermutationFacts(a: seq<Id>, b: seq<Id>)
    requires multiset(a) == multiset(b) && Distinct(a)
    ensures Distinct(b) && forall id :: id in a <==> id in b
  {
    forall id: Id
      ensures id in a <==> id in b
    {
      assert id in a <==> id in multiset(a);
      assert id in b <==> id in multiset(b);
    }
    assert |a| == |multiset(a)| == |multiset(b)| == |b|;
    DistinctCard(a);
    assert ToSet(a) == ToSet(b);
    NoRepeats(b);
  }

  lemma {:induction false} NoRepeats(s: seq<Id>)
    requires |ToSet(s)| >= |s|
    ensures Distinct(s)
  {
    if |s| > 0 {
      var front, x := s[..|s| - 1], s[|s| - 1];
      assert s == front + [x];
      assert ToSet(s) == ToSet(front) + {x};
      DistinctCard(front);
      assert x !in ToSet(front);
      NoRepeats(front);
    }
  }

  method Swap(a: array<Id>, i: nat, j: nat)
    requires i < j < a.Length
    modifies a
    ensures a[..] == old(a[..])[i := old(a[j])][j := old(a[i])]
    ensures multiset(a[..]) == old(multiset(a[..]))
  {
    a[i], a[j] := a[j], a[i];
  }

  /** The head of the array is sorted and nothing after it is less loaded. */
  ghost predicate SortedUpTo(ws: map<Id, Worker>, s: seq<Id>, i: nat)
    requires Registered(ws, s) && i <= |s|
  {
    forall p, q :: 0 <= p < i && p < q < |s| ==> ws[s[p]].load <= ws[s[q]].load
  }

  /** Position `i` holds the least loaded of positions `i` to `j`. */
  ghost predicate LeastUpTo(ws: map<Id, Worker>, s: seq<Id>, i: nat, j: nat)
    requires Registered(ws, s) && i < j <= |s|
  {
    SortedUpTo(ws, s, i) && forall q :: i < q < j ==> ws[s[i]].load <= ws[s[q]].load
  }

  method SortByLoad(ws: map<Id, Worker>, a: array<Id>)
    requires Registered(ws, a[..])
    modifies a
    ensures multiset(a[..]) == old(multiset(a[..]))
    ensures Registered(ws, a[..]) && AscendingLoad(ws, a[..])
  {
    var i := 0;
    while i < a.Length
      invariant i <= a.Length
      invariant multiset(a[..]) == old(multiset(a[..]))
      invariant Registered(ws, a[..]) && SortedUpTo(ws, a[..], i)
    {
      BringLeast(ws, a, i);
      i := i + 1;
    }
  }

  /** The inner loop of the sort. */
  method BringLeast(ws: map<Id, Worker>, a: array<Id>, i: nat)
    requires i < a.Length && Registered(ws, a[..]) && SortedUpTo(ws, a[..], i)
    modifies a
    ensures multiset(a[..]) == old(multiset(a[..]))
    ensures Registered(ws, a[..]) && SortedUpTo(ws, a[..], i + 1)
  {
    var j := i + 1;
    while j < a.Length
      invariant i < j <= a.Length
      invariant multiset(a[..]) == old(multiset(a[..]))
      invariant Registered(ws, a[..]) && LeastUpTo(ws, a[..], i, j)
    {
      ghost var before := a[..];
      if ws[a[j]].load < ws[a[i]].load {
        Swap(a, i, j);
      }
      SwapStep(ws, before, a[..], i, j);
      j := j + 1;
    }
  }

  lemma SwapStep(ws: map<Id, Worker>, s: seq<Id>, t: seq<Id>, i: nat, j: nat)
    requires i < j < |s| && Registered(ws, s) && LeastUpTo(ws, s, i, j)
    requires t == if ws[s[j]].load < ws[s[i]].load then s[i := s[j]][j := s[i]] else s
    ensures Registered(ws, t) && LeastUpTo(ws, t, i, j + 1)
  {
  }

  /** Eligible workers met in map order, least loaded first. */
  method WorkersSortedByLoad(ws: map<Id, Worker>, order: seq<Id>, now: int) returns (ids: seq<Id>)
    requires MapOrder(ws, order)
    ensures LoadOrder(ws, now, ids)
  {
    ids := [];
    for k := 0 to |order|
      invariant DistinctPrefix(ids, order, k, ws, now)
    {
      assert order[..k + 1] == order[..k] + [order[k]];
      if Eligible(ws[order[k]], now) {
        assert order[k] !in order[..k];
        ids := ids + [order[k]];
      }
    }
    assert order[..|order|] == order;
    var loads := new Id[|ids|](i requires 0 <= i < |ids| => ids[i]);
    assert loads[..] == ids;
    SortByLoad(ws, loads);
    PermutationFacts(ids, loads[..]);
    ids := loads[..];
  }

  method ZoneLoop(ws: map<Id, Worker>, ids: seq<Id>, rf: int) returns (selected: seq<Id>, usedRacks: set<string>)
    ensures selected == ZonePass(ws, ids, rf, []) && usedRacks == Racks(ws, selected)
  {
    selected := [];
    usedRacks := {};
    var usedZones: set<string> := {};
    var k := 0;
    while k < |ids| && |selected| < rf
      invariant k <= |ids|
      invariant usedZones == Zones(ws, selected) && usedRacks == Racks(ws, selected)
      invariant ZonePass(ws, ids[k..], rf, selected) == ZonePass(ws, ids, rf, [])
    {
      var id := ids[k];
      if id in ws && ZoneKey(ws[id]) !in usedZones {
        KeysSnoc(ZoneOf(ws), selected, id);
        KeysSnoc(RackOf(ws), selected, id);
        selected := selected + [id];
        usedZones := usedZones + {ZoneKey(ws[id])};
        usedRacks := usedRacks + {RackKey(ws[id])};
      }
      assert ids[k..][1..] == ids[k + 1..];
      k := k + 1;
    }
  }

  method RackLoop(ws: map<Id, Worker>, ids: seq<Id>, rf: int, picks: seq<Id>, racks: set<string>) returns (selected: seq<Id>)
    requires racks == Racks(ws, picks)
    ensures selected == RackPass(ws, ids, rf, picks)
  {
    selected := picks;
    var usedRacks := racks;
    var k := 0;
    while k < |ids| && |selected| < rf
      invariant k <= |ids|
      invariant usedRacks == Racks(ws, selected)
      invariant RackPass(ws, ids[k..], rf, selected) == RackPass(ws, ids, rf, picks)
    {
      var id := ids[k];
      if id !in selected && id in ws && RackKey(ws[id]) !in usedRacks {
        KeysSnoc(RackOf(ws), selected, id);
        selected := selected + [id];
        usedRacks := usedRacks + {RackKey(ws[id])};
      }
      assert ids[k..][1..] == ids[k + 1..];
      k := k + 1;
    }
  }

  method FillLoop(ids: seq<Id>, rf: int, picks: seq<Id>) returns (selected: seq<Id>)
    ensures selected == FillPass(ids, rf, picks)
  {
    selected := picks;
    var k := 0;
    while k < |ids| && |selected| < rf
      invariant k <= |ids|
      invariant FillPass(ids[k..], rf, selected) == FillPass(ids, rf, picks)
    {
      if ids[k] !in selected {
        selected := selected + [ids[k]];
      }
      assert ids[k..][1..] == ids[k + 1..];
      k := k + 1;
    }
  }

  method SelectReplicasLoop(ws: map<Id, Worker>, ids: seq<Id>, rf: int) returns (selected: seq<Id>)
    ensures selected == SelectReplicas(ws, ids, rf)
  {
    if rf <= 1 {
      return if |ids| > 0 then [ids[0]] else [];
    }
    var usedRacks;
    selected, usedRacks := ZoneLoop(ws, ids, rf);
    selected := RackLoop(ws, ids, rf, selected, usedRacks);
    selected := FillLoop(ids, rf, selected);
  }
}
