/** Failure-domain-aware replica placement: zones first, then racks, then anything. */
module Placement {
  import opened Prelude
  import opened FsmTypes

  function ZoneKey(w: Worker): string
  {
    w.region + "/" + w.zone
  }

  function RackKey(w: Worker): string
  {
    w.region + "/" + w.zone + "/" + w.rack
  }

  function ZoneOf(ws: map<Id, Worker>): Id -> string
  {
    id => if id in ws then ZoneKey(ws[id]) else ""
  }

  function RackOf(ws: map<Id, Worker>): Id -> string
  {
    id => if id in ws then RackKey(ws[id]) else ""
  }

  function Keys<K(==)>(key: Id -> K, ids: seq<Id>): set<K>
  {
    set id | id in ids :: key(id)
  }

  function Zones(ws: map<Id, Worker>, ids: seq<Id>): set<string>
  {
    Keys(ZoneOf(ws), ids)
  }

  function Racks(ws: map<Id, Worker>, ids: seq<Id>): set<string>
  {
    Keys(RackOf(ws), ids)
  }

  ghost predicate Registered(ws: map<Id, Worker>, ids: seq<Id>)
  {
    forall id :: id in ids ==> id in ws
  }

  /** First pass: the first worker of every zone not yet used. */
  function ZonePass(ws: map<Id, Worker>, ids: seq<Id>, rf: int, sel: seq<Id>): seq<Id>
  {
    if ids == [] || |sel| >= rf then sel
    else if ids[0] in ws && ZoneKey(ws[ids[0]]) !in Zones(ws, sel) then ZonePass(ws, ids[1..], rf, sel + [ids[0]])
    else ZonePass(ws, ids[1..], rf, sel)
  }

  /** Second pass: the first unselected worker of every rack not yet used. */
  function RackPass(ws: map<Id, Worker>, ids: seq<Id>, rf: int, sel: seq<Id>): seq<Id>
  {
    if ids == [] || |sel| >= rf then sel
    else if ids[0] !in sel && ids[0] in ws && RackKey(ws[ids[0]]) !in Racks(ws, sel) then
      RackPass(ws, ids[1..], rf, sel + [ids[0]])
    else RackPass(ws, ids[1..], rf, sel)
  }

  /** Third pass: whatever is left. */
  function FillPass(ids: seq<Id>, rf: int, sel: seq<Id>): seq<Id>
  {
    if ids == [] || |sel| >= rf then sel
    else if ids[0] !in sel then FillPass(ids[1..], rf, sel + [ids[0]])
    else FillPass(ids[1..], rf, sel)
  }

  function SelectReplicas(ws: map<Id, Worker>, ids: seq<Id>, rf: int): seq<Id>
  {
    if rf <= 1 then (if |ids| > 0 then [ids[0]] else [])
    else FillPass(ids, rf, RackPass(ws, ids, rf, ZonePass(ws, ids, rf, [])))
  }

  // ---------------------------------------------------------------- what each pass achieves

  /** All three passes are one greedy scan, each with its own notion of what counts as already used. */
  function Scan<K(==)>(key: Id -> K, ids: seq<Id>, rf: int, sel: seq<Id>): seq<Id>
  {
    if ids == [] || |sel| >= rf then sel
    else if key(ids[0]) !in Keys(key, sel) then Scan(key, ids[1..], rf, sel + [ids[0]])
    else Scan(key, ids[1..], rf, sel)
  }

  lemma KeysSnoc<K>(key: Id -> K, sel: seq<Id>, x: Id)
    ensures Keys(key, sel + [x]) == Keys(key, sel) + {key(x)}
    ensures ToSet(sel + [x]) == ToSet(sel) + {x}
  {
  }

  lemma KeysCons<K>(key: Id -> K, ids: seq<Id>)
    requires ids != []
    ensures Keys(key, ids) == {key(ids[0])} + Keys(key, ids[1..])
    ensures ToSet(ids) == {ids[0]} + ToSet(ids[1..])
  {
  }

  lemma KeysMonotone<K>(key: Id -> K, a: seq<Id>, b: seq<Id>)
    requires ToSet(a) <= ToSet(b)
    ensures Keys(key, a) <= Keys(key, b)
    ensures |Keys(key, a)| <= |Keys(key, b)|
  {
    forall k | k in Keys(key, a)
      ensures k in Keys(key, b)
    {
      var id :| id in a && key(id) == k;
      assert id in ToSet(a);
    }
    SubsetCard(Keys(key, a), Keys(key, b));
  }

  lemma {:induction false} KeysAtMost<K>(key: Id -> K, ids: seq<Id>)
    ensures |Keys(key, ids)| <= |ids|
  {
    if ids != [] {
      KeysCons(key, ids);
      KeysAtMost(key, ids[1..]);
    }
  }

  /** The scan only adds candidates, keeps what it was given, and never exceeds the target. */
  lemma {:induction false} ScanShape<K>(key: Id -> K, ids: seq<Id>, rf: int, sel: seq<Id>)
    requires |sel| <= rf && Distinct(sel)
    ensures |sel| <= |Scan(key, ids, rf, sel)| <= rf && Distinct(Scan(key, ids, rf, sel))
    ensures ToSet(sel) <= ToSet(Scan(key, ids, rf, sel)) <= ToSet(sel) + ToSet(ids)
  {
    if ids != [] && |sel| < rf {
      KeysCons(key, ids);
      KeysSnoc(key, sel, ids[0]);
      if key(ids[0]) !in Keys(key, sel) {
        ScanShape(key, ids[1..], rf, sel + [ids[0]]);
      } else {
        ScanShape(key, ids[1..], rf, sel);
      }
    }
  }

  /** Every candidate added brings a key of its own; a scan that stops short has used every key. */
  lemma {:induction false} ScanKeys<K>(key: Id -> K, ids: seq<Id>, rf: int, sel: seq<Id>)
    requires |sel| <= rf && Distinct(sel)
    ensures var r := Scan(key, ids, rf, sel);
      && |Keys(key, r)| == |Keys(key, sel)| + |r| - |sel|
      && (|r| < rf ==> Keys(key, ids) <= Keys(key, r))
  {
    if ids != [] && |sel| < rf {
      var x := ids[0];
      KeysCons(key, ids);
      KeysSnoc(key, sel, x);
      if key(x) !in Keys(key, sel) {
        ScanKeys(key, ids[1..], rf, sel + [x]);
        ScanShape(key, ids[1..], rf, sel + [x]);
        KeysMonotone(key, sel + [x], Scan(key, ids, rf, sel));
      } else {
        ScanKeys(key, ids[1..], rf, sel);
        ScanShape(key, ids[1..], rf, sel);
        KeysMonotone(key, sel, Scan(key, ids, rf, sel));
      }
    }
  }

  lemma {:induction false} PassesAreScans(ws: map<Id, Worker>, ids: seq<Id>, rf: int, sel: seq<Id>)
    requires Registered(ws, ids)
    ensures ZonePass(ws, ids, rf, sel) == Scan(ZoneOf(ws), ids, rf, sel)
    ensures RackPass(ws, ids, rf, sel) == Scan(RackOf(ws), ids, rf, sel)
    ensures FillPass(ids, rf, sel) == Scan(Self, ids, rf, sel)
  {
    if ids != [] && |sel| < rf {
      assert Keys(Self, sel) == ToSet(sel);
      assert ids[0] in sel ==> RackOf(ws)(ids[0]) in Racks(ws, sel);
      PassesAreScans(ws, ids[1..], rf, sel);
      PassesAreScans(ws, ids[1..], rf, sel + [ids[0]]);
    }
  }

  function Self(id: Id): Id
  {
    id
  }

  // ---------------------------------------------------------------- placement theorems

  /** The picks of the first pass: one worker for each zone, as far as the target allows. */
  function ZonePicks(ws: map<Id, Worker>, ids: seq<Id>, rf: int): seq<Id>
  {
    ZonePass(ws, ids, rf, [])
  }

  lemma SelfKeys(ids: seq<Id>)
    ensures Keys(Self, ids) == ToSet(ids)
  {
  }

  /** Filling up from any selection reaches the target, or every candidate. */
  lemma FillFacts(ids: seq<Id>, rf: int, q: seq<Id>)
    requires Distinct(ids) && Distinct(q) && |q| <= rf && ToSet(q) <= ToSet(ids)
    ensures var r := Scan(Self, ids, rf, q);
      && Distinct(r) && ToSet(q) <= ToSet(r) <= ToSet(ids) && |r| == Min(rf, |ids|)
      && (|q| >= rf ==> r == q)
  {
    var r := Scan(Self, ids, rf, q);
    ScanShape(Self, ids, rf, q);
    ScanKeys(Self, ids, rf, q);
    SelfKeys(ids);
    SelfKeys(r);
    DistinctWithin(r, ids);
    if |r| < rf { DistinctWithin(ids, r); }
  }

  /** A scan by `key` that goes on to be filled up to `r` decides how many keys `r` has. */
  lemma SpreadFacts<K>(key: Id -> K, ids: seq<Id>, rf: int, sel: seq<Id>, r: seq<Id>)
    requires Distinct(sel) && |sel| <= rf && ToSet(sel) <= ToSet(ids)
    requires ToSet(Scan(key, ids, rf, sel)) <= ToSet(r) <= ToSet(ids)
    requires |Scan(key, ids, rf, sel)| >= rf ==> r == Scan(key, ids, rf, sel)
    ensures |Keys(key, r)| == Min(rf - (|sel| - |Keys(key, sel)|), |Keys(key, ids)|)
  {
    var q := Scan(key, ids, rf, sel);
    ScanShape(key, ids, rf, sel);
    ScanKeys(key, ids, rf, sel);
    KeysMonotone(key, q, r);
    KeysMonotone(key, r, ids);
    if |q| < rf {
      assert Keys(key, r) == Keys(key, ids) == Keys(key, q);
    }
  }

  lemma NoPicks<K>(key: Id -> K, ids: seq<Id>)
    ensures ToSet<Id>([]) <= ToSet(ids) && |Keys(key, [])| == 0
  {
  }

  /** Everything the three passes add up to. */
  lemma SelectionFacts(ws: map<Id, Worker>, ids: seq<Id>, rf: int)
    requires Distinct(ids) && Registered(ws, ids) && rf >= 1
    ensures var r, p := SelectReplicas(ws, ids, rf), ZonePicks(ws, ids, rf);
      && Distinct(r) && ToSet(p) <= ToSet(r) <= ToSet(ids) && |r| == Min(rf, |ids|)
      && |p| == |Zones(ws, p)| && |Zones(ws, r)| == |p| == Min(rf, |Zones(ws, ids)|)
      && |Racks(ws, r)| == Min(rf - (|p| - |Racks(ws, p)|), |Racks(ws, ids)|)
  {
    var p := Scan(ZoneOf(ws), ids, rf, []);
    var q := Scan(RackOf(ws), ids, rf, p);
    var r := Scan(Self, ids, rf, q);
    ThreeScans(ws, ids, rf);
    NoPicks(ZoneOf(ws), ids);
    ScanShape(ZoneOf(ws), ids, rf, []);
    ScanKeys(ZoneOf(ws), ids, rf, []);
    ScanShape(RackOf(ws), ids, rf, p);
    FillFacts(ids, rf, q);
    SpreadFacts(ZoneOf(ws), ids, rf, [], p);
    SpreadFacts(ZoneOf(ws), ids, rf, [], r);
    SpreadFacts(RackOf(ws), ids, rf, p, r);
  }

  lemma ThreeScans(ws: map<Id, Worker>, ids: seq<Id>, rf: int)
    requires Registered(ws, ids) && rf >= 1
    ensures var p := Scan(ZoneOf(ws), ids, rf, []);
      && ZonePicks(ws, ids, rf) == p
      && SelectReplicas(ws, ids, rf) == Scan(Self, ids, rf, Scan(RackOf(ws), ids, rf, p))
  {
    var p := ZonePicks(ws, ids, rf);
    PassesAreScans(ws, ids, rf, []);
    PassesAreScans(ws, ids, rf, p);
    PassesAreScans(ws, ids, rf, RackPass(ws, ids, rf, p));
    if rf == 1 && ids != [] {
      assert Zones(ws, []) == {};
      assert p == [ids[0]];
    }
  }

  /** `t` is another way to choose as many of the candidates as `r` does. */
  ghost predicate Alternative(ids: seq<Id>, r: seq<Id>, t: seq<Id>)
  {
    Distinct(t) && ToSet(t) <= ToSet(ids) && |t| == |r|
  }

  lemma AlternativeBound<K>(key: Id -> K, ids: seq<Id>, t: seq<Id>)
    requires ToSet(t) <= ToSet(ids)
    ensures |Keys(key, t)| <= Min(|t|, |Keys(key, ids)|)
  {
    KeysMonotone(key, t, ids);
    KeysAtMost(key, t);
  }

  /** No choice of the same size reaches more zones, whatever the names of zones and racks. */
  lemma ZonesAreMaximal(ws: map<Id, Worker>, ids: seq<Id>, rf: int, t: seq<Id>)
    requires Distinct(ids) && Registered(ws, ids) && rf >= 1
    requires Alternative(ids, SelectReplicas(ws, ids, rf), t)
    ensures |Zones(ws, t)| <= |Zones(ws, SelectReplicas(ws, ids, rf))|
  {
    SelectionFacts(ws, ids, rf);
    AlternativeBound(ZoneOf(ws), ids, t);
  }

  ghost predicate RacksMaximal(ws: map<Id, Worker>, ids: seq<Id>, r: seq<Id>)
  {
    forall t :: Alternative(ids, r, t) ==> |Racks(ws, t)| <= |Racks(ws, r)|
  }

  /** The rack spread is maximal exactly when the first pass has not spent picks on racks that share a key,
      or has enough picks left to reach every rack anyway. */
  lemma RacksMaximalIff(ws: map<Id, Worker>, ids: seq<Id>, rf: int)
    requires Distinct(ids) && Registered(ws, ids) && rf >= 1
    ensures var p := ZonePicks(ws, ids, rf);
      RacksMaximal(ws, ids, SelectReplicas(ws, ids, rf)) <==>
        (|Racks(ws, p)| == |p| || |Racks(ws, ids)| <= rf - (|p| - |Racks(ws, p)|))
  {
    var r, p := SelectReplicas(ws, ids, rf), ZonePicks(ws, ids, rf);
    SelectionFacts(ws, ids, rf);
    KeysAtMost(RackOf(ws), p);
    KeysAtMost(RackOf(ws), ids);
    var best := RackFirst(ws, ids, rf, r);
    forall t | Alternative(ids, r, t)
      ensures |Racks(ws, t)| <= |Racks(ws, best)|
    {
      AlternativeBound(RackOf(ws), ids, t);
    }
  }

  /** Picking racks first attains the most racks any choice of that size can have. */
  lemma RackFirst(ws: map<Id, Worker>, ids: seq<Id>, rf: int, r: seq<Id>) returns (t: seq<Id>)
    requires Distinct(ids) && rf >= 1 && |r| == Min(rf, |ids|)
    ensures Alternative(ids, r, t) && |Racks(ws, t)| == Min(|r|, |Racks(ws, ids)|)
  {
    var q := Scan(RackOf(ws), ids, rf, []);
    t := Scan(Self, ids, rf, q);
    NoPicks(RackOf(ws), ids);
    ScanShape(RackOf(ws), ids, rf, []);
    FillFacts(ids, rf, q);
    SpreadFacts(RackOf(ws), ids, rf, [], t);
    KeysAtMost(RackOf(ws), ids);
  }

  /** Rack keys name their zone: always so when region and zone names have no slash in them. */
  ghost predicate RackNamesZone(ws: map<Id, Worker>, ids: seq<Id>)
  {
    forall a, b :: a in ids && b in ids && RackOf(ws)(a) == RackOf(ws)(b) ==> ZoneOf(ws)(a) == ZoneOf(ws)(b)
  }

  /** When rack keys name their zone, both spreads are maximal at once. */
  lemma PlacementIsOptimal(ws: map<Id, Worker>, ids: seq<Id>, rf: int)
    requires Distinct(ids) && Registered(ws, ids) && rf >= 1 && RackNamesZone(ws, ids)
    ensures var r := SelectReplicas(ws, ids, rf);
      && Distinct(r) && ToSet(r) <= ToSet(ids) && |r| == Min(rf, |ids|)
      && (forall t :: Alternative(ids, r, t) ==>
            |Zones(ws, t)| <= |Zones(ws, r)| && |Racks(ws, t)| <= |Racks(ws, r)|)
  {
    var r, p := SelectReplicas(ws, ids, rf), ZonePicks(ws, ids, rf);
    SelectionFacts(ws, ids, rf);
    FinerKeys(ZoneOf(ws), RackOf(ws), ids, p);
    KeysAtMost(RackOf(ws), p);
    RacksMaximalIff(ws, ids, rf);
    forall t | Alternative(ids, r, t)
      ensures |Zones(ws, t)| <= |Zones(ws, r)|
    {
      ZonesAreMaximal(ws, ids, rf, t);
    }
  }

  lemma {:induction false} FinerKeys<K, L>(coarse: Id -> K, fine: Id -> L, ids: seq<Id>, p: seq<Id>)
    requires forall a, b :: a in ids && b in ids && fine(a) == fine(b) ==> coarse(a) == coarse(b)
    requires ToSet(p) <= ToSet(ids)
    ensures |Keys(coarse, p)| <= |Keys(fine, p)|
  {
    if p != [] {
      KeysCons(coarse, p);
      KeysCons(fine, p);
      FinerKeys(coarse, fine, ids, p[1..]);
      assert p[0] in ToSet(ids);
      if fine(p[0]) in Keys(fine, p[1..]) {
        var b :| b in p[1..] && fine(b) == fine(p[0]);
        assert b in ToSet(p[1..]);
      }
    }
  }

  /** The first pass over three such candidates picks the first two. */
  lemma TwoZonesFirst(ws: map<Id, Worker>, a: Id, b: Id, c: Id)
    requires Distinct([a, b, c]) && a in ws && b in ws && c in ws && ZoneOf(ws)(a) != ZoneOf(ws)(b)
    ensures ZonePicks(ws, [a, b, c], 2) == [a, b]
  {
    var ids := [a, b, c];
    assert ids[1..] == [b, c] && [b, c][1..] == [c] && [a] + [b] == [a, b] && [] + [a] == [a];
    assert Zones(ws, []) == {} && Zones(ws, [a]) == {ZoneOf(ws)(a)};
    assert ZonePass(ws, [b, c], 2, [a]) == [a, b];
  }

  /** Without that, the first pass can spend two picks on one rack key and miss a rack. */
  lemma SharedRackKeyLosesARack(ws: map<Id, Worker>, a: Id, b: Id, c: Id)
    requires Distinct([a, b, c]) && a in ws && b in ws && c in ws
    requires ZoneOf(ws)(a) != ZoneOf(ws)(b) && RackOf(ws)(a) == RackOf(ws)(b) != RackOf(ws)(c)
    ensures |Racks(ws, SelectReplicas(ws, [a, b, c], 2))| == 1
    ensures !RacksMaximal(ws, [a, b, c], SelectReplicas(ws, [a, b, c], 2))
  {
    var ids := [a, b, c];
    TwoZonesFirst(ws, a, b, c);
    assert Racks(ws, [a, b]) == {RackOf(ws)(a)};
    assert Racks(ws, ids) == {RackOf(ws)(a), RackOf(ws)(c)};
    SelectionFacts(ws, ids, 2);
    RacksMaximalIff(ws, ids, 2);
  }

  /** A slash in a zone name is enough for that: zone `b/c` with rack `d`, and zone `b` with rack `c/d`. */
  lemma SlashInZoneNameLosesARack()
    ensures !RacksMaximal(SlashWorkers(), [1, 2, 3], SelectReplicas(SlashWorkers(), [1, 2, 3], 2))
  {
    var ws := SlashWorkers();
    assert |ZoneOf(ws)(1)| == 5 && |ZoneOf(ws)(2)| == 3;
    assert RackOf(ws)(1) == "a/b/c/d" == RackOf(ws)(2);
    assert |RackOf(ws)(3)| == 5;
    SharedRackKeyLosesARack(ws, 1, 2, 3);
  }

  function SlashWorkers(): map<Id, Worker>
  {
    map[1 := Worker(1, "", "", 0, Ready, "write", [], 0.0, "a", "b/c", "d"),
        2 := Worker(2, "", "", 0, Ready, "write", [], 0.0, "a", "b", "c/d"),
        3 := Worker(3, "", "", 0, Ready, "write", [], 0.0, "a", "b", "e")]
  }

  ghost predicate SlashFree(s: string)
  {
    '/' !in s
  }

  lemma SplitAtSlash(a: string, x: string, b: string, y: string)
    requires SlashFree(a) && SlashFree(b) && a + "/" + x == b + "/" + y
    ensures a == b && x == y
  {
    var u, v := a + "/" + x, b + "/" + y;
    assert u[|a|] == '/' && v[|b|] == '/';
    assert forall i :: 0 <= i < |a| ==> u[i] == a[i] && a[i] in a;
    assert forall i :: 0 <= i < |b| ==> v[i] == b[i] && b[i] in b;
    assert |a| == |b|;
    assert u[..|a|] == a && v[..|a|] == b;
    assert u[|a| + 1..] == x && v[|a| + 1..] == y;
  }

  /** Where region names are free of slashes, a zone key stands for one region and zone; where zone names are too, a rack
      key stands for one region, zone and rack. */
  lemma KeysStandForNames(v: Worker, w: Worker)
    requires SlashFree(v.region) && SlashFree(w.region)
    ensures ZoneKey(v) == ZoneKey(w) <==> v.region == w.region && v.zone == w.zone
    ensures SlashFree(v.zone) && SlashFree(w.zone) ==>
      (RackKey(v) == RackKey(w) <==> v.region == w.region && v.zone == w.zone && v.rack == w.rack)
  {
    if ZoneKey(v) == ZoneKey(w) { SplitAtSlash(v.region, v.zone, w.region, w.zone); }
    if SlashFree(v.zone) && SlashFree(w.zone) && RackKey(v) == RackKey(w) {
      assert RackKey(v) == v.region + "/" + (v.zone + "/" + v.rack);
      assert RackKey(w) == w.region + "/" + (w.zone + "/" + w.rack);
      SplitAtSlash(v.region, v.zone + "/" + v.rack, w.region, w.zone + "/" + w.rack);
      SplitAtSlash(v.zone, v.rack, w.zone, w.rack);
    }
  }

  /** Slash-free region and zone names, which an operator can check, are enough. */
  lemma SlashFreeNamesSuffice(ws: map<Id, Worker>, ids: seq<Id>)
    requires Registered(ws, ids)
    requires forall id :: id in ids ==> SlashFree(ws[id].region) && SlashFree(ws[id].zone)
    ensures RackNamesZone(ws, ids)
  {
    forall a, b | a in ids && b in ids && RackOf(ws)(a) == RackOf(ws)(b)
      ensures ZoneOf(ws)(a) == ZoneOf(ws)(b)
    {
      var v, w := ws[a], ws[b];
      assert RackKey(v) == v.region + "/" + (v.zone + "/" + v.rack);
      assert RackKey(w) == w.region + "/" + (w.zone + "/" + w.rack);
      SplitAtSlash(v.region, v.zone + "/" + v.rack, w.region, w.zone + "/" + w.rack);
      SplitAtSlash(v.zone, v.rack, w.zone, w.rack);
    }
  }

  // ---------------------------------------------------------------- load order

  ghost predicate AscendingLoad(ws: map<Id, Worker>, ids: seq<Id>)
    requires Registered(ws, ids)
  {
    forall i, j :: 0 <= i < j < |ids| ==> ws[ids[i]].load <= ws[ids[j]].load
  }

  /** The candidate list placement works from: every eligible worker once, least loaded first. */
  ghost predicate LoadOrder(ws: map<Id, Worker>, now: int, ids: seq<Id>)
  {
    && Distinct(ids)
    && (forall id :: id in ids <==> id in ws && Eligible(ws[id], now))
    && AscendingLoad(ws, ids)
  }

  lemma {:induction false} ZonePicksComeFirst(ws: map<Id, Worker>, ids: seq<Id>, rf: int, sel: seq<Id>, k: nat, x: Id)
    requires Registered(ws, ids) && k < |ids|
    requires x in ZonePass(ws, ids, rf, sel) && x !in sel && ZoneOf(ws)(ids[k]) == ZoneOf(ws)(x)
    ensures exists j :: 0 <= j <= k && ids[j] == x
  {
    if ids != [] && |sel| < rf {
      var y := ids[0];
      if ZoneKey(ws[y]) !in Zones(ws, sel) {
        if x != y {
          KeysSnoc(ZoneOf(ws), sel, y);
          if k == 0 {
            LaterPicksAvoid(ws, ids[1..], rf, sel + [y], x);
          } else {
            ZonePicksComeFirst(ws, ids[1..], rf, sel + [y], k - 1, x);
            var j :| 0 <= j <= k - 1 && ids[1..][j] == x;
            assert ids[j + 1] == x;
          }
        }
      } else {
        if k == 0 {
          LaterPicksAvoid(ws, ids[1..], rf, sel, x);
        } else {
          ZonePicksComeFirst(ws, ids[1..], rf, sel, k - 1, x);
          var j :| 0 <= j <= k - 1 && ids[1..][j] == x;
          assert ids[j + 1] == x;
        }
      }
    }
  }

  lemma {:induction false} LaterPicksAvoid(ws: map<Id, Worker>, ids: seq<Id>, rf: int, sel: seq<Id>, x: Id)
    requires x in ZonePass(ws, ids, rf, sel) && x !in sel
    ensures ZoneOf(ws)(x) !in Zones(ws, sel)
  {
    if ids != [] && |sel| < rf {
      if ids[0] in ws && ZoneKey(ws[ids[0]]) !in Zones(ws, sel) {
        if x != ids[0] {
          KeysSnoc(ZoneOf(ws), sel, ids[0]);
          LaterPicksAvoid(ws, ids[1..], rf, sel + [ids[0]], x);
        }
      } else {
        LaterPicksAvoid(ws, ids[1..], rf, sel, x);
      }
    }
  }

  /** Fed by the load order, the first pass represents each zone it reaches by its least-loaded eligible worker. */
  lemma ZonePicksAreLeastLoaded(ws: map<Id, Worker>, now: int, ids: seq<Id>, rf: int, x: Id, y: Id)
    requires LoadOrder(ws, now, ids) && x in ZonePicks(ws, ids, rf)
    requires y in ws && Eligible(ws[y], now) && ZoneOf(ws)(y) == ZoneOf(ws)(x)
    ensures x in ws && Eligible(ws[x], now) && ws[x].load <= ws[y].load
  {
    assert y in ids;
    var k :| 0 <= k < |ids| && ids[k] == y;
    ZonePicksComeFirst(ws, ids, rf, [], k, x);
    var j :| 0 <= j <= k && ids[j] == x;
  }

  lemma {:induction false} ScanExtends<K>(key: Id -> K, ids: seq<Id>, rf: int, sel: seq<Id>)
    ensures sel <= Scan(key, ids, rf, sel)
  {
    if ids != [] && |sel| < rf {
      if key(ids[0]) !in Keys(key, sel) {
        ScanExtends(key, ids[1..], rf, sel + [ids[0]]);
      } else {
        ScanExtends(key, ids[1..], rf, sel);
      }
    }
  }

  /** The first candidate is the first one selected. */
  lemma FirstIsSelected(ws: map<Id, Worker>, ids: seq<Id>, rf: int)
    requires Distinct(ids) && Registered(ws, ids) && rf >= 1 && ids != []
    ensures SelectReplicas(ws, ids, rf) != [] && SelectReplicas(ws, ids, rf)[0] == ids[0]
  {
    if rf > 1 {
      ThreeScans(ws, ids, rf);
      var p := Scan(ZoneOf(ws), ids, rf, []);
      var q := Scan(RackOf(ws), ids, rf, p);
      ScanExtends(ZoneOf(ws), ids[1..], rf, [ids[0]]);
      ScanExtends(RackOf(ws), ids, rf, p);
      ScanExtends(Self, ids, rf, q);
      assert Keys(ZoneOf(ws), []) == {} && [] + [ids[0]] == [ids[0]];
    }
  }
}
