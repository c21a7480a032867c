/** Which readings the resource monitor takes, and what each leaves behind. */
module MonitorResults {
  import opened Common
  import opened Monitor

  /** A rate is refused exactly when time did not advance, the counter fell, or the difference is more
      than ten thousand cores' worth of the elapsed time; otherwise it is zero for a first reading,
      and the reading becomes the baseline of its own runtime alone. */
  lemma RateExactly(b: map<Key, Baseline>, r: Reading)
    ensures CpuPercent(b, r).None? <==>
              r.key in b && (r.time <= b[r.key].time || r.usage < b[r.key].usage
                             || (r.usage - b[r.key].usage) as real > 10000.0 * (r.time - b[r.key].time) as real)
    ensures CpuPercent(b, r).Some? ==>
              CpuPercent(b, r).value.baselines == b[r.key := Baseline(r.usage, r.time, 0)] && (r.key !in b ==> CpuPercent(b, r).value.percent == 0.0)
  {
    if r.key in b && r.time > b[r.key].time && r.usage >= b[r.key].usage {
      QuotientBound((r.usage - b[r.key].usage) as real, (r.time - b[r.key].time) as real);
    }
  }

  lemma QuotientBound(work: real, elapsed: real)
    requires elapsed > 0.0 && work >= 0.0
    ensures work / elapsed * 100.0 > 1_000_000.0 <==> work > 10000.0 * elapsed
    ensures work / elapsed * 100.0 >= 0.0
  {
    var q := work / elapsed;
    assert q * elapsed == work;
    if q > 10000.0 { Scaled(q, 10000.0, elapsed); } else { Scaled(10000.0, q, elapsed); }
    if q < 0.0 { Scaled(0.0, q, elapsed); }
  }

  lemma Scaled(a: real, b: real, elapsed: real)
    requires elapsed > 0.0 && a >= b
    ensures a * elapsed >= b * elapsed && (a > b ==> a * elapsed > b * elapsed)
  {
    assert (a - b) * elapsed >= 0.0;
    if a > b { assert (a - b) * elapsed > 0.0; }
  }

  /** A reading is taken exactly when it is valid, is of a GPU or has a rate, and could be written. A GPU
      reports zero and has no baseline; any other reports its rate and moves its baseline; both count
      as present. */
  lemma TakeExactly(p: Pass, r: Reading)
    ensures Take(p, r).Some? <==> r.valid && r.written && (r.gpu || CpuPercent(p.baselines, r).Some?)
    ensures Take(p, r).Some? ==>
              var q := Take(p, r).value;
              && q.present == p.present + {r.key} && |q.percents| == |p.percents| + 1 && q.percents[..|p.percents|] == p.percents
              && (r.gpu ==> q.baselines == p.baselines && q.percents[|p.percents|] == 0.0)
              && (!r.gpu ==> q.baselines == p.baselines[r.key := Baseline(r.usage, r.time, 0)]
                             && q.percents[|p.percents|] == CpuPercent(p.baselines, r).value.percent)
  {
  }

  /** Readings are taken one after the other, and the first that is not taken stops the sample. */
  lemma {:induction false} TakesInTurn(p: Pass, a: seq<Reading>, b: seq<Reading>)
    ensures TakeAll(p, a + b) == if TakeAll(p, a).None? then None else TakeAll(TakeAll(p, a).value, b)
    ensures |a| == 1 ==> TakeAll(p, a) == Take(p, a[0])
  {
    if |a| == 1 { assert a[..0] == []; }
    if b == [] {
      assert a + b == a;
    } else {
      var n := |b| - 1;
      assert (a + b)[..|a| + n] == a + b[..n];
      TakesInTurn(p, a, b[..n]);
    }
  }
}
