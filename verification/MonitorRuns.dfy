/** Histories of successful samples: when a baseline is kept, and what its rates add up to. */
module MonitorRuns {
  import opened Common
  import opened Monitor

  function Run(hist: seq<seq<Reading>>, grace: nat): Option<map<Key, Baseline>> {
    if hist == [] then Some(map[])
    else
      match Run(hist[..|hist| - 1], grace)
      case None => None
      case Some(b) => Sample(b, hist[|hist| - 1], grace)
  }

  predicate Seen(rs: seq<Reading>, k: Key) { exists i :: 0 <= i < |rs| && rs[i].key == k }

  predicate Measured(rs: seq<Reading>, k: Key) { exists i :: 0 <= i < |rs| && rs[i].key == k && !rs[i].gpu }

  lemma SeenSnoc(rs: seq<Reading>, k: Key)
    requires rs != []
    ensures var p, r := rs[..|rs| - 1], rs[|rs| - 1];
            && (Seen(rs, k) <==> Seen(p, k) || r.key == k)
            && (Measured(rs, k) <==> Measured(p, k) || (r.key == k && !r.gpu))
  {
    var p := rs[..|rs| - 1];
    assert forall i :: 0 <= i < |p| ==> p[i] == rs[i];
  }

  lemma {:induction false} TakeAllKeys(p: Pass, rs: seq<Reading>, k: Key)
    requires TakeAll(p, rs).Some?
    ensures var q := TakeAll(p, rs).value;
            && (k in q.present <==> k in p.present || Seen(rs, k))
            && (k in q.baselines <==> k in p.baselines || Measured(rs, k))
            && (k in p.baselines && !Measured(rs, k) ==> q.baselines[k] == p.baselines[k])
  {
    if rs != [] {
      TakeAllKeys(p, rs[..|rs| - 1], k);
      SeenSnoc(rs, k);
    }
  }

  // ----- how long a baseline is kept -----

  /** The samples at the end that have nothing of the runtime. */
  function Absences(hist: seq<seq<Reading>>, k: Key): (n: nat)
    ensures n <= |hist| && (forall i :: |hist| - n <= i < |hist| ==> !Seen(hist[i], k))
    ensures n < |hist| ==> Seen(hist[|hist| - n - 1], k)
  {
    if hist == [] || Seen(hist[|hist| - 1], k) then 0 else Absences(hist[..|hist| - 1], k) + 1
  }

  /** The runtime is seen in the `grace + 1` samples from `from` on. */
  predicate SeenWithin(hist: seq<seq<Reading>>, k: Key, from: nat, grace: nat) {
    exists t :: from <= t <= from + grace && t < |hist| && Seen(hist[t], k)
  }

  predicate NoGap(hist: seq<seq<Reading>>, k: Key, i: nat, grace: nat) {
    forall j :: i < j && j + grace < |hist| ==> SeenWithin(hist, k, j, grace)
  }

  /** Measured at some sample and never absent for more than the grace since. */
  predicate KeptSince(hist: seq<seq<Reading>>, k: Key, i: nat, grace: nat) {
    i < |hist| && Measured(hist[i], k) && NoGap(hist, k, i, grace)
  }

  predicate Kept(hist: seq<seq<Reading>>, k: Key, grace: nat) { exists i: nat :: i < |hist| && KeptSince(hist, k, i, grace) }

  lemma MeasuredIsSeen(rs: seq<Reading>, k: Key)
    ensures Measured(rs, k) ==> Seen(rs, k)
  {
  }

  lemma SeenAtEnd(hist: seq<seq<Reading>>, k: Key, j: nat, grace: nat)
    requires j + grace + 1 == |hist| && SeenWithin(hist, k, j, grace)
    ensures Absences(hist, k) <= grace
  {
    var t :| j <= t < j + grace + 1 && t < |hist| && Seen(hist[t], k);
  }

  lemma {:induction false} GapSnoc(hist: seq<seq<Reading>>, rs: seq<Reading>, k: Key, i: nat, grace: nat)
    requires i < |hist| && Measured(hist[i], k)
    ensures NoGap(hist + [rs], k, i, grace) <==> NoGap(hist, k, i, grace) && Absences(hist + [rs], k) <= grace
  {
    var all := hist + [rs];
    MeasuredIsSeen(hist[i], k);
    assert all[i] == hist[i];
    var n := Absences(all, k);
    if NoGap(all, k, i, grace) {
      forall j | i < j && j + grace < |hist| ensures SeenWithin(hist, k, j, grace) {
        assert SeenWithin(all, k, j, grace);
        var t :| j <= t < j + grace + 1 && t < |all| && Seen(all[t], k);
        assert hist[t] == all[t];
      }
      if |all| - grace - 1 > i { SeenAtEnd(all, k, |all| - grace - 1, grace); }
    }
    if NoGap(hist, k, i, grace) && n <= grace {
      forall j | i < j && j + grace < |all| ensures SeenWithin(all, k, j, grace) {
        if j + grace < |hist| {
          assert SeenWithin(hist, k, j, grace);
          var t :| j <= t < j + grace + 1 && t < |hist| && Seen(hist[t], k);
          assert all[t] == hist[t];
        } else {
          assert Seen(all[|all| - n - 1], k);
        }
      }
    }
  }

  lemma {:induction false} KeptSnoc(hist: seq<seq<Reading>>, rs: seq<Reading>, k: Key, grace: nat)
    ensures Kept(hist + [rs], k, grace) <==> Measured(rs, k) || (Kept(hist, k, grace) && Absences(hist + [rs], k) <= grace)
  {
    var all := hist + [rs];
    assert forall i :: 0 <= i < |hist| ==> all[i] == hist[i];
    if Measured(rs, k) {
      assert KeptSince(all, k, |hist|, grace);
    } else if Kept(all, k, grace) {
      var i: nat :| i < |all| && KeptSince(all, k, i, grace);
      GapSnoc(hist, rs, k, i, grace);
      assert KeptSince(hist, k, i, grace);
    } else if Kept(hist, k, grace) {
      var i: nat :| i < |hist| && KeptSince(hist, k, i, grace);
      GapSnoc(hist, rs, k, i, grace);
      assert !KeptSince(all, k, i, grace);
    }
  }

  /** A runtime's baseline is kept exactly while it is never absent for more than the grace, and
      its counter is its present absences. */
  lemma {:induction false} BaselineKeptExactly(hist: seq<seq<Reading>>, grace: nat, k: Key)
    requires Run(hist, grace).Some?
    ensures k in Run(hist, grace).value <==> Kept(hist, k, grace)
    ensures k in Run(hist, grace).value ==> Run(hist, grace).value[k].missed == Absences(hist, k) <= grace
  {
    if hist != [] {
      var before, rs := hist[..|hist| - 1], hist[|hist| - 1];
      assert hist == before + [rs];
      BaselineKeptExactly(before, grace, k);
      KeptSnoc(before, rs, k, grace);
      TakeAllKeys(Pass(Run(before, grace).value, {}, []), rs, k);
      MeasuredIsSeen(rs, k);
    }
  }

  // ----- what the rates add up to -----

  datatype Point = Point(usage: nat, time: int, percent: real)

  /** The points written for a runtime in one sample, behind those of its baseline. */
  function PointsIn(b: map<Key, Baseline>, points: seq<Point>, rs: seq<Reading>, k: Key): seq<Point>
    requires TakeAll(Pass(b, {}, []), rs).Some?
  {
    if rs == [] then points
    else
      var before, r := PointsIn(b, points, rs[..|rs| - 1], k), rs[|rs| - 1];
      var known := TakeAll(Pass(b, {}, []), rs[..|rs| - 1]).value.baselines;
      var percents := TakeAll(Pass(b, {}, []), rs).value.percents;
      if r.key != k || r.gpu then before
      else
        var point := Point(r.usage, r.time, percents[|percents| - 1]);
        if k in known then before + [point] else [point]
  }

  /** All points of a runtime since its baseline was set up. */
  function Points(hist: seq<seq<Reading>>, grace: nat, k: Key): seq<Point>
    requires Run(hist, grace).Some?
  {
    if hist == [] then []
    else
      var before := hist[..|hist| - 1];
      PointsIn(Run(before, grace).value, Points(before, grace, k), hist[|hist| - 1], k)
  }

  /** Each step: time moves on, the counter does not fall, and rate times time is the difference. */
  predicate StepExact(p: Point, q: Point) {
    && p.time < q.time && p.usage <= q.usage && 0.0 <= q.percent <= MaxCPUPercent
    && q.percent * (q.time - p.time) as real == (q.usage - p.usage) as real * 100.0
  }

  predicate Exact(points: seq<Point>) { forall i :: 0 < i < |points| ==> StepExact(points[i - 1], points[i]) }

  predicate Tied(b: map<Key, Baseline>, k: Key, points: seq<Point>) {
    k in b ==> points != [] && Exact(points) && points[|points| - 1].usage == b[k].usage && points[|points| - 1].time == b[k].time
  }

  lemma ExactSnoc(points: seq<Point>, q: Point)
    requires Exact(points) && (points != [] ==> StepExact(points[|points| - 1], q))
    ensures Exact(points + [q])
  {
  }

  lemma {:induction false} PointsInTied(b: map<Key, Baseline>, points: seq<Point>, rs: seq<Reading>, k: Key)
    requires TakeAll(Pass(b, {}, []), rs).Some? && Tied(b, k, points)
    ensures Tied(TakeAll(Pass(b, {}, []), rs).value.baselines, k, PointsIn(b, points, rs, k))
  {
    if rs != [] {
      var before, r := rs[..|rs| - 1], rs[|rs| - 1];
      PointsInTied(b, points, before, k);
      var p := TakeAll(Pass(b, {}, []), before).value;
      if r.key == k && !r.gpu && k in p.baselines {
        var rate := CpuPercent(p.baselines, r).value;
        ExactSnoc(PointsIn(b, points, before, k), Point(r.usage, r.time, rate.percent));
      }
    }
  }

  lemma {:induction false} PointsTied(hist: seq<seq<Reading>>, grace: nat, k: Key)
    requires Run(hist, grace).Some?
    ensures Tied(Run(hist, grace).value, k, Points(hist, grace, k))
  {
    if hist != [] {
      var before, rs := hist[..|hist| - 1], hist[|hist| - 1];
      PointsTied(before, grace, k);
      PointsInTied(Run(before, grace).value, Points(before, grace, k), rs, k);
    }
  }

  /** Rate times elapsed time, added up from point `a` to point `b`. */
  function Area(points: seq<Point>, a: nat, b: nat): real
    requires a <= b < |points|
  {
    if a == b then 0.0 else Area(points, a, b - 1) + points[b].percent * (points[b].time - points[b - 1].time) as real
  }

  lemma {:induction false} AreaIsDifference(points: seq<Point>, a: nat, b: nat)
    requires a <= b < |points| && Exact(points)
    ensures Area(points, a, b) == (points[b].usage - points[a].usage) as real * 100.0
  {
    if a < b {
      AreaIsDifference(points, a, b - 1);
      assert StepExact(points[b - 1], points[b]);
    }
  }

  /** Over any stretch for which a baseline is kept, the reported rates times the elapsed time add
      up to the counter difference. */
  lemma {:induction false} RatesTelescope(hist: seq<seq<Reading>>, grace: nat, k: Key, a: nat, b: nat)
    requires Run(hist, grace).Some? && k in Run(hist, grace).value && a <= b < |Points(hist, grace, k)|
    ensures var points := Points(hist, grace, k);
            && Area(points, a, b) == (points[b].usage - points[a].usage) as real * 100.0
            && points[|points| - 1].usage == Run(hist, grace).value[k].usage
  {
    PointsTied(hist, grace, k);
    AreaIsDifference(Points(hist, grace, k), a, b);
  }
}
