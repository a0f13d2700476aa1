/**
 * Target arbitration. Every frame the daemons ray-march the field of every
 * registered handler or receiver concurrently and fold the results in the order
 * the tasks finish. The model folds an arbitrary sequence of completed tasks,
 * so every arrival order is covered.
 *
 * Two folds exist in the source:
 *  - the pointer fold keeps a LIST of handlers tied by exact equality of
 *    `deepest_point_distance` and replaces it on a strictly smaller distance
 *    (azimuth's `update_pointer`, both copies);
 *  - the hover fold keeps a single winner, replaced only on a strictly smaller
 *    distance (simular's `detect_hover`, azimuth's `reconnect_keyboard`,
 *    spatializer's `spatial_beam_target`).
 * Each site first drops results by its own distance filter.
 */
module Arbitration {
  import opened Wrappers
  import opened Geometry

  /** One finished ray-march task: what was marched and what came back. `None`
      stands for a task that panicked or a ray march that returned an error. */
  datatype Completion<H> = Completion(target: H, result: Option<RayMarch>)

  /** The distance filters used at the different call sites. */
  datatype Filter =
    | PointerFilter  // azimuth update_pointer: drop `min_distance > 0`
    | HoverFilter    // detect_hover, reconnect_keyboard: drop `min_distance > 0 || deepest <= 0.001`
    | BeamFilter     // spatial_beam_target: keep `deepest > 0 && min_distance < 0.05`

  const HoverFloor: real := 0.001
  const BeamReach: real := 0.05

  predicate Accepts(f: Filter, r: RayMarch) {
    match f
    case PointerFilter => !(r.minDistance > 0.0)
    case HoverFilter => !(r.minDistance > 0.0 || r.deepestPointDistance <= HoverFloor)
    case BeamFilter => r.deepestPointDistance > 0.0 && r.minDistance < BeamReach
  }

  /** A completion that is still in the running after the filter. */
  predicate Survives<H>(f: Filter, c: Completion<H>) {
    c.result.Some? && Accepts(f, c.result.value)
  }

  function Dist<H>(c: Completion<H>): real
    requires c.result.Some?
  {
    c.result.value.deepestPointDistance
  }

  /** A survivor whose deepest point lies exactly at distance `d`. */
  predicate AtDist<H>(f: Filter, c: Completion<H>, d: real) {
    Survives(f, c) && Dist(c) == d
  }

  ghost predicate NoSurvivor<H>(f: Filter, rs: seq<Completion<H>>) {
    forall c :: c in rs ==> !Survives(f, c)
  }

  /** `d` is the minimum of `deepest_point_distance` over the survivors. */
  ghost predicate IsBest<H>(f: Filter, rs: seq<Completion<H>>, d: real) {
    && (exists c :: c in rs && AtDist(f, c, d))
    && (forall c :: c in rs && Survives(f, c) ==> d <= Dist(c))
  }

  /** The survivors at distance `d`, in arrival order. */
  function Winners<H>(f: Filter, rs: seq<Completion<H>>, d: real): seq<H> {
    if rs == [] then []
    else
      var c := rs[|rs| - 1];
      Winners(f, rs[..|rs| - 1], d) + (if AtDist(f, c, d) then [c.target] else [])
  }

  /** The first survivor to arrive at distance `d`, with its result. */
  function FirstAt<H>(f: Filter, rs: seq<Completion<H>>, d: real): Option<(H, RayMarch)> {
    if rs == [] then None
    else
      var earlier := FirstAt(f, rs[..|rs| - 1], d);
      var c := rs[|rs| - 1];
      if earlier.Some? then earlier
      else if AtDist(f, c, d) then Some((c.target, c.result.value))
      else None
  }

  /** The set of targets the completions speak for: the tasks that were spawned. */
  function Targets<H>(rs: seq<Completion<H>>): set<H> {
    set i | 0 <= i < |rs| :: rs[i].target
  }

  /** What a hover fold hands on once the ray-march result is dropped: nobody exactly
      when nothing survives, otherwise the first arrival at the best distance. */
  ghost predicate IsHoverChoice<H>(f: Filter, rs: seq<Completion<H>>, hovered: Option<H>) {
    && (hovered.None? <==> NoSurvivor(f, rs))
    && (hovered.Some? ==>
          exists d :: IsBest(f, rs, d) && FirstAt(f, rs, d) != None && FirstAt(f, rs, d).value.0 == hovered.value)
  }

  /** What the pointer fold promises about its result `closest` for arrivals `rs`. */
  ghost predicate IsTieOutcome<H>(rs: seq<Completion<H>>, closest: Option<(seq<H>, RayMarch)>) {
    && (closest.None? <==> NoSurvivor(PointerFilter, rs))
    && (closest.Some? ==>
          var (hits, info) := closest.value;
          && IsBest(PointerFilter, rs, info.deepestPointDistance)
          && hits == Winners(PointerFilter, rs, info.deepestPointDistance)
          && hits != []
          && FirstAt(PointerFilter, rs, info.deepestPointDistance) == Some((hits[0], info)))
  }

  /** What the single-winner fold promises about its result `closest`. */
  ghost predicate IsHoverOutcome<H>(f: Filter, rs: seq<Completion<H>>, closest: Option<(H, RayMarch)>) {
    && (closest.None? <==> NoSurvivor(f, rs))
    && (closest.Some? ==>
          && IsBest(f, rs, closest.value.1.deepestPointDistance)
          && closest == FirstAt(f, rs, closest.value.1.deepestPointDistance))
  }

  // ---------------------------------------------------------------- the folds

  /**
   * The pointer fold (azimuth/src/handlers.rs:78-95, azimuth/src/main.rs:281-298).
   * The result is `None` exactly when nothing survives; otherwise its distance is the
   * minimum over the survivors, its list is every survivor at that minimum in arrival
   * order, and the kept ray-march result is the first arrival's at that minimum.
   */
  method ClosestHits<H(==)>(rs: seq<Completion<H>>) returns (closest: Option<(seq<H>, RayMarch)>)
    ensures IsTieOutcome(rs, closest)
  {
    closest := None;
    var i := 0;
    while i < |rs|
      invariant 0 <= i <= |rs|
      invariant IsTieOutcome(rs[..i], closest)
    {
      var c := rs[i];
      assert rs[..i + 1] == rs[..i] + [c];
      if c.result.Some? && !(c.result.value.minDistance > 0.0) {
        var rayInfo := c.result.value;
        match closest
        case Some((hits, hitInfo)) =>
          if rayInfo.deepestPointDistance == hitInfo.deepestPointDistance {
            TieJoin(rs[..i], c, hits, hitInfo);
            closest := Some((hits + [c.target], hitInfo));
          } else if rayInfo.deepestPointDistance < hitInfo.deepestPointDistance {
            TieReplace(rs[..i], c, hits, hitInfo);
            closest := Some(([c.target], rayInfo));
          } else {
            TieKeep(rs[..i], c, closest);
          }
        case None =>
          TieStart(rs[..i], c);
          closest := Some(([c.target], rayInfo));
      } else {
        TieKeep(rs[..i], c, closest);
      }
      i := i + 1;
    }
    assert rs[..i] == rs;
  }

  /**
   * The single-winner fold (simular/src/main.rs:238-254, azimuth/src/main.rs:339-355,
   * spatializer/src/lib.rs:73-82): `None` exactly when nothing survives the filter,
   * otherwise the first survivor to arrive at the minimal distance, because a later
   * result replaces the winner only when it is strictly closer.
   */
  method ClosestHit<H(==)>(f: Filter, rs: seq<Completion<H>>) returns (closest: Option<(H, RayMarch)>)
    ensures IsHoverOutcome(f, rs, closest)
  {
    closest := None;
    var i := 0;
    while i < |rs|
      invariant 0 <= i <= |rs|
      invariant IsHoverOutcome(f, rs[..i], closest)
    {
      var c := rs[i];
      assert rs[..i + 1] == rs[..i] + [c];
      if c.result.Some? && Accepts(f, c.result.value) {
        var rayInfo := c.result.value;
        match closest
        case Some((_, hitInfo)) =>
          if rayInfo.deepestPointDistance < hitInfo.deepestPointDistance {
            HoverReplace(f, rs[..i], c, closest);
            closest := Some((c.target, rayInfo));
          } else {
            HoverKeep(f, rs[..i], c, closest);
          }
        case None =>
          HoverStart(f, rs[..i], c);
          closest := Some((c.target, rayInfo));
      } else {
        HoverKeep(f, rs[..i], c, closest);
      }
      i := i + 1;
    }
    assert rs[..i] == rs;
  }

  // ---------------------------------------------------------------- lemmas

  /** What one more arrival does to the survivors and to the best distance. */
  lemma Extend<H>(f: Filter, p: seq<Completion<H>>, c: Completion<H>, d: real)
    ensures NoSurvivor(f, p + [c]) <==> NoSurvivor(f, p) && !Survives(f, c)
    ensures !Survives(f, c) ==> (IsBest(f, p + [c], d) <==> IsBest(f, p, d))
    ensures Survives(f, c) && NoSurvivor(f, p) ==> IsBest(f, p + [c], Dist(c))
    ensures Survives(f, c) && IsBest(f, p, d) && Dist(c) < d ==> IsBest(f, p + [c], Dist(c))
    ensures Survives(f, c) && IsBest(f, p, d) && d <= Dist(c) ==> IsBest(f, p + [c], d)
  {
    assert forall x :: x in p + [c] <==> x in p || x == c;
    assert c in p + [c];
  }

  /** The first survivor starts the tie list. */
  lemma TieStart<H>(p: seq<Completion<H>>, c: Completion<H>)
    requires NoSurvivor(PointerFilter, p) && Survives(PointerFilter, c)
    ensures IsTieOutcome(p + [c], Some(([c.target], c.result.value)))
  {
    Extend(PointerFilter, p, c, Dist(c));
    NoneAtDist(PointerFilter, p, Dist(c));
    assert (p + [c])[..|p|] == p;
  }

  /** A survivor at the best distance joins the end of the tie list. */
  lemma TieJoin<H>(p: seq<Completion<H>>, c: Completion<H>, hits: seq<H>, info: RayMarch)
    requires IsTieOutcome(p, Some((hits, info)))
    requires Survives(PointerFilter, c) && Dist(c) == info.deepestPointDistance
    ensures IsTieOutcome(p + [c], Some((hits + [c.target], info)))
  {
    Extend(PointerFilter, p, c, info.deepestPointDistance);
    assert (p + [c])[..|p|] == p;
  }

  /** A strictly closer survivor replaces the tie list. */
  lemma TieReplace<H>(p: seq<Completion<H>>, c: Completion<H>, hits: seq<H>, info: RayMarch)
    requires IsTieOutcome(p, Some((hits, info)))
    requires Survives(PointerFilter, c) && Dist(c) < info.deepestPointDistance
    ensures IsTieOutcome(p + [c], Some(([c.target], c.result.value)))
  {
    Extend(PointerFilter, p, c, info.deepestPointDistance);
    NoneAtDist(PointerFilter, p, Dist(c));
    assert (p + [c])[..|p|] == p;
  }

  /** A result that does not survive, or survives farther away, changes nothing. */
  lemma TieKeep<H>(p: seq<Completion<H>>, c: Completion<H>, closest: Option<(seq<H>, RayMarch)>)
    requires IsTieOutcome(p, closest)
    requires !Survives(PointerFilter, c) || (closest.Some? && Dist(c) > closest.value.1.deepestPointDistance)
    ensures IsTieOutcome(p + [c], closest)
  {
    Extend(PointerFilter, p, c, if closest.Some? then closest.value.1.deepestPointDistance else 0.0);
    assert (p + [c])[..|p|] == p;
  }

  /** The first survivor becomes the single winner. */
  lemma HoverStart<H>(f: Filter, p: seq<Completion<H>>, c: Completion<H>)
    requires NoSurvivor(f, p) && Survives(f, c)
    ensures IsHoverOutcome(f, p + [c], Some((c.target, c.result.value)))
  {
    Extend(f, p, c, Dist(c));
    NoneAtDist(f, p, Dist(c));
    assert (p + [c])[..|p|] == p;
  }

  /** A strictly closer survivor becomes the single winner. */
  lemma HoverReplace<H>(f: Filter, p: seq<Completion<H>>, c: Completion<H>, closest: Option<(H, RayMarch)>)
    requires IsHoverOutcome(f, p, closest) && closest.Some?
    requires Survives(f, c) && Dist(c) < closest.value.1.deepestPointDistance
    ensures IsHoverOutcome(f, p + [c], Some((c.target, c.result.value)))
  {
    Extend(f, p, c, closest.value.1.deepestPointDistance);
    NoneAtDist(f, p, Dist(c));
    assert (p + [c])[..|p|] == p;
  }

  /** A result that does not survive, or is not strictly closer, keeps the winner. */
  lemma HoverKeep<H>(f: Filter, p: seq<Completion<H>>, c: Completion<H>, closest: Option<(H, RayMarch)>)
    requires IsHoverOutcome(f, p, closest)
    requires !Survives(f, c) || (closest.Some? && Dist(c) >= closest.value.1.deepestPointDistance)
    ensures IsHoverOutcome(f, p + [c], closest)
  {
    Extend(f, p, c, if closest.Some? then closest.value.1.deepestPointDistance else 0.0);
    assert (p + [c])[..|p|] == p;
  }

  /** Nobody at distance `d`: no winners and no first arrival there. */
  lemma {:induction false} NoneAtDist<H>(f: Filter, rs: seq<Completion<H>>, d: real)
    requires forall c :: c in rs && Survives(f, c) ==> Dist(c) != d
    ensures Winners(f, rs, d) == []
    ensures FirstAt(f, rs, d) == None
  {
    if rs != [] {
      var pre := rs[..|rs| - 1];
      assert forall c :: c in pre ==> c in rs;
      NoneAtDist(f, pre, d);
    }
  }

  /** The tie list of a concatenation is the concatenation of the tie lists. */
  lemma {:induction false} WinnersAppend<H>(f: Filter, a: seq<Completion<H>>, b: seq<Completion<H>>, d: real)
    ensures Winners(f, a + b, d) == Winners(f, a, d) + Winners(f, b, d)
    decreases |b|
  {
    if b == [] {
      assert a + b == a;
    } else {
      var b' := b[..|b| - 1];
      assert (a + b)[..|a + b| - 1] == a + b';
      WinnersAppend(f, a, b', d);
    }
  }

  /** The tie list holds exactly the targets of the survivors at distance `d`. */
  lemma {:induction false} WinnersMembers<H>(f: Filter, rs: seq<Completion<H>>, d: real, h: H)
    ensures h in Winners(f, rs, d) <==> exists c :: c in rs && AtDist(f, c, d) && c.target == h
  {
    if rs != [] {
      var pre, c := rs[..|rs| - 1], rs[|rs| - 1];
      assert rs == pre + [c];
      WinnersMembers(f, pre, d, h);
      if h in Winners(f, rs, d) {
        if h !in Winners(f, pre, d) {
          assert AtDist(f, c, d) && c.target == h;
        }
      }
    }
  }

  /** Cancelling one common element from two equal multisets of sequences. */
  lemma MultisetCancel<T>(p: seq<T>, c: T, a: seq<T>, b: seq<T>)
    requires multiset(p + [c]) == multiset(a + [c] + b)
    ensures multiset(p) == multiset(a + b)
  {
    calc {
      multiset(p) + multiset{c};
      multiset(p + [c]);
      multiset(a + [c] + b);
      multiset(a) + multiset{c} + multiset(b);
      multiset(a + b) + multiset{c};
    }
    assert multiset(p) == (multiset(p) + multiset{c}) - multiset{c};
    assert multiset(a + b) == (multiset(a + b) + multiset{c}) - multiset{c};
  }

  /** Taking one arrival out of the middle removes its contribution to the tie list. */
  lemma WinnersInsert<H>(f: Filter, a: seq<Completion<H>>, c: Completion<H>, b: seq<Completion<H>>, d: real)
    ensures multiset(Winners(f, a + [c] + b, d)) == multiset(Winners(f, a + b, d)) + multiset(Winners(f, [c], d))
  {
    WinnersAppend(f, a, b, d);
    WinnersAppend(f, a + [c], b, d);
    WinnersAppend(f, a, [c], d);
  }

  /** Every winner is the target of some arrival. */
  lemma WinnersAreTargets<H>(f: Filter, rs: seq<Completion<H>>, d: real)
    ensures forall h :: h in Winners(f, rs, d) ==> h in Targets(rs)
  {
    forall h | h in Winners(f, rs, d) ensures h in Targets(rs) {
      WinnersMembers(f, rs, d, h);
      var c :| c in rs && AtDist(f, c, d) && c.target == h;
      var i :| 0 <= i < |rs| && rs[i] == c;
      assert rs[i].target == h;
    }
  }

  /** As a multiset, the tie list does not depend on the arrival order. */
  lemma {:induction false} WinnersPermutation<H>(f: Filter, rs: seq<Completion<H>>, qs: seq<Completion<H>>, d: real)
    requires multiset(rs) == multiset(qs)
    ensures multiset(Winners(f, rs, d)) == multiset(Winners(f, qs, d))
    decreases |rs|
  {
    if rs == [] {
      assert |qs| == |multiset(qs)| == 0;
    } else {
      var pre, c := rs[..|rs| - 1], rs[|rs| - 1];
      assert rs == pre + [c];
      assert c in multiset(qs);
      var j :| 0 <= j < |qs| && qs[j] == c;
      var a, b := qs[..j], qs[j + 1..];
      assert qs == a + [c] + b;
      MultisetCancel(pre, c, a, b);
      WinnersPermutation(f, pre, a + b, d);
      WinnersAppend(f, pre, [c], d);
      WinnersInsert(f, a, c, b, d);
    }
  }

  /** Whether anything survives, and which distance is the best, do not depend on the
      arrival order. */
  lemma BestPermutation<H>(f: Filter, rs: seq<Completion<H>>, qs: seq<Completion<H>>, d: real)
    requires multiset(rs) == multiset(qs)
    ensures IsBest(f, rs, d) <==> IsBest(f, qs, d)
    ensures NoSurvivor(f, rs) <==> NoSurvivor(f, qs)
  {
    forall c ensures c in rs <==> c in qs {
      assert c in rs <==> c in multiset(rs);
      assert c in qs <==> c in multiset(qs);
    }
  }

  /** There is at most one best distance. */
  lemma BestUnique<H>(f: Filter, rs: seq<Completion<H>>, d: real, e: real)
    requires IsBest(f, rs, d) && IsBest(f, rs, e)
    ensures d == e
  {
    var c :| c in rs && AtDist(f, c, d);
    var c' :| c' in rs && AtDist(f, c', e);
    assert e <= Dist(c) && d <= Dist(c');
  }

  /**
   * Order independence of the tie fold: two arrival orders of the same completions
   * give the same best distance and the same winners, counted with multiplicity,
   * though the lists may be ordered differently (see TieListFollowsArrival).
   */
  lemma TieOutcomeOrderIndependent<H>(f: Filter, rs: seq<Completion<H>>, qs: seq<Completion<H>>, d: real, e: real)
    requires multiset(rs) == multiset(qs)
    requires IsBest(f, rs, d) && IsBest(f, qs, e)
    ensures d == e
    ensures multiset(Winners(f, rs, d)) == multiset(Winners(f, qs, e))
    ensures forall h :: h in Winners(f, rs, d) <==> h in Winners(f, qs, e)
  {
    BestPermutation(f, rs, qs, d);
    BestUnique(f, qs, d, e);
    WinnersPermutation(f, rs, qs, d);
    forall h ensures h in Winners(f, rs, d) <==> h in Winners(f, qs, e) {
      assert h in Winners(f, rs, d) <==> h in multiset(Winners(f, rs, d));
      assert h in Winners(f, qs, e) <==> h in multiset(Winners(f, qs, e));
    }
  }

  /** The list itself follows arrival order: two tied handlers swap places when their
      results arrive the other way round. */
  lemma TieListFollowsArrival()
    ensures
      var info := RayMarch(Vec3(0.0, 0.0, 0.0), Vec3(0.0, 0.0, -1.0), 0.0, 1.0);
      var a, b := Completion(1, Some(info)), Completion(2, Some(info));
      && Winners(PointerFilter, [a, b], 1.0) == [1, 2]
      && Winners(PointerFilter, [b, a], 1.0) == [2, 1]
  {
    var info := RayMarch(Vec3(0.0, 0.0, 0.0), Vec3(0.0, 0.0, -1.0), 0.0, 1.0);
    var a, b := Completion(1, Some(info)), Completion(2, Some(info));
    assert [a, b][..1] == [a] && [a][..0] == [];
    assert [b, a][..1] == [b] && [b][..0] == [];
    assert Winners(PointerFilter, [a], 1.0) == [1];
    assert Winners(PointerFilter, [b], 1.0) == [2];
  }

  /** The single-winner fold picks the head of the tie list at the same distance. */
  lemma {:induction false} FirstAtHeadsWinners<H>(f: Filter, rs: seq<Completion<H>>, d: real)
    ensures FirstAt(f, rs, d).None? <==> Winners(f, rs, d) == []
    ensures FirstAt(f, rs, d).Some? ==> FirstAt(f, rs, d).value.0 == Winners(f, rs, d)[0]
  {
    if rs != [] {
      FirstAtHeadsWinners(f, rs[..|rs| - 1], d);
    }
  }

  /** A single winner is one of the targets that were ray-marched. */
  lemma FirstAtIsTarget<H>(f: Filter, rs: seq<Completion<H>>, d: real)
    ensures FirstAt(f, rs, d).Some? ==> FirstAt(f, rs, d).value.0 in Targets(rs)
  {
    FirstAtHeadsWinners(f, rs, d);
    WinnersAreTargets(f, rs, d);
  }

  /** When exactly one survivor sits at the best distance, the single-winner fold picks
      the same target whatever the arrival order. */
  lemma HoverOrderIndependentWithoutTie<H>(f: Filter, rs: seq<Completion<H>>, qs: seq<Completion<H>>, d: real)
    requires multiset(rs) == multiset(qs)
    requires |Winners(f, rs, d)| == 1
    ensures FirstAt(f, rs, d).Some? && FirstAt(f, qs, d).Some?
    ensures FirstAt(f, rs, d).value.0 == FirstAt(f, qs, d).value.0
  {
    WinnersPermutation(f, rs, qs, d);
    var w := Winners(f, qs, d);
    assert |w| == |multiset(w)| == 1;
    assert w == [w[0]];
    assert multiset(Winners(f, rs, d)) == multiset{w[0]};
    assert Winners(f, rs, d) == [Winners(f, rs, d)[0]];
    assert Winners(f, rs, d)[0] in multiset(Winners(f, rs, d));
    FirstAtHeadsWinners(f, rs, d);
    FirstAtHeadsWinners(f, qs, d);
  }
}
