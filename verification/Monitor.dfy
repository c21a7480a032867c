/** The resource monitor's CPU baselines (pkg/monitor/recorder.go:351-404 and 455-493). Times are
    nanoseconds; rates are exact. */
module Monitor {
  import opened Common

  const MaxCPUPercent := 1_000_000.0

  type Key = string

  datatype Baseline = Baseline(usage: nat, time: int, missed: nat)

  /** One reading. `valid` says whether it passes validation, `written` whether the artifact takes it. */
  datatype Reading = Reading(key: Key, usage: nat, time: int, gpu: bool, valid: bool, written: bool)

  // ----- one reading -----

  function Percent(previous: Baseline, r: Reading): real
    requires r.time > previous.time
  {
    (r.usage - previous.usage) as real / (r.time - previous.time) as real * 100.0
  }

  datatype Rate = Rate(percent: real, baselines: map<Key, Baseline>)

  /** cpuPercent: the rate since the last reading of the runtime, or zero for its first. */
  function CpuPercent(b: map<Key, Baseline>, r: Reading): (result: Option<Rate>)
    ensures result.Some? ==> 0.0 <= result.value.percent <= MaxCPUPercent
    ensures result.Some? && r.key in b ==>
              r.time > b[r.key].time && r.usage >= b[r.key].usage
              && result.value.percent * (r.time - b[r.key].time) as real == (r.usage - b[r.key].usage) as real * 100.0
  {
    var updated := b[r.key := Baseline(r.usage, r.time, 0)];
    if r.key !in b then Some(Rate(0.0, updated))
    else if r.time <= b[r.key].time then None
    else if r.usage < b[r.key].usage then None
    else
      var percent := Percent(b[r.key], r);
      if percent < 0.0 || percent > MaxCPUPercent then None
      else
        RateTimesElapsed((r.usage - b[r.key].usage) as real, (r.time - b[r.key].time) as real);
        Some(Rate(percent, updated))
  }

  lemma RateTimesElapsed(work: real, elapsed: real)
    requires elapsed > 0.0
    ensures work / elapsed * 100.0 * elapsed == work * 100.0
  {
    assert work / elapsed * elapsed == work;
  }

  // ----- one sample -----

  /** What a sample has seen and written so far. */
  datatype Pass = Pass(baselines: map<Key, Baseline>, present: set<Key>, percents: seq<real>)

  function Take(p: Pass, r: Reading): Option<Pass> {
    if !r.valid then None
    else
      var present := p.present + {r.key};
      if r.gpu then
        if r.written then Some(Pass(p.baselines, present, p.percents + [0.0])) else None
      else
        match CpuPercent(p.baselines, r)
        case None => None
        case Some(rate) => if r.written then Some(Pass(rate.baselines, present, p.percents + [rate.percent])) else None
  }

  function TakeAll(p: Pass, rs: seq<Reading>): Option<Pass> {
    if rs == [] then Some(p)
    else
      match TakeAll(p, rs[..|rs| - 1])
      case None => None
      case Some(q) => Take(q, rs[|rs| - 1])
  }

  /** dropMissingBaselines: absences count up to the grace and start again when the runtime is back. */
  function Drop(b: map<Key, Baseline>, present: set<Key>, grace: nat): map<Key, Baseline> {
    map k | k in b && (k in present || b[k].missed + 1 <= grace) :: b[k].(missed := if k in present then 0 else b[k].missed + 1)
  }

  function Sample(b: map<Key, Baseline>, rs: seq<Reading>, grace: nat): Option<map<Key, Baseline>> {
    match TakeAll(Pass(b, {}, []), rs)
    case None => None
    case Some(p) => Some(Drop(p.baselines, p.present, grace))
  }

  /** The readings before i were taken and i was not. What it has done to the baselines stays: a rate
      that was computed moves its own, even if it could then not be written. */
  predicate FailedAt(p: Pass, rs: seq<Reading>, i: nat, left: map<Key, Baseline>)
    requires i < |rs|
  {
    var before, r := TakeAll(p, rs[..i]), rs[i];
    && before.Some? && Take(before.value, r).None?
    && left == if r.valid && !r.gpu && CpuPercent(before.value.baselines, r).Some?
               then before.value.baselines[r.key := Baseline(r.usage, r.time, 0)] else before.value.baselines
  }

  // ----- the recorder -----

  class Recorder {
    const grace: nat
    var baselines: map<Key, Baseline>

    constructor (grace: nat)
      ensures this.grace == grace && baselines == map[]
    {
      this.grace := grace;
      baselines := map[];
    }

    method Rate(r: Reading) returns (percent: Option<real>)
      modifies this
      ensures var rate := CpuPercent(old(baselines), r);
              if rate.None? then percent.None? && baselines == old(baselines)
              else percent == Some(rate.value.percent) && baselines == rate.value.baselines
    {
      if r.key !in baselines {
        baselines := baselines[r.key := Baseline(r.usage, r.time, 0)];
        return Some(0.0);
      }
      var previous := baselines[r.key];
      if r.time <= previous.time { return None; }
      if r.usage < previous.usage { return None; }
      var value := Percent(previous, r);
      if value < 0.0 || value > MaxCPUPercent { return None; }
      baselines := baselines[r.key := Baseline(r.usage, r.time, 0)];
      percent := Some(value);
    }

    method DropMissing(present: set<Key>)
      modifies this
      ensures baselines == Drop(old(baselines), present, grace)
    {
      var todo := baselines.Keys;
      ghost var want := Drop(baselines, present, grace);
      while todo != {}
        invariant todo <= old(baselines).Keys
        invariant forall k :: k in todo ==> k in baselines && baselines[k] == old(baselines)[k]
        invariant forall k :: k !in todo ==> (k in baselines <==> k in want) && (k in want ==> baselines[k] == want[k])
        decreases todo
      {
        var key :| key in todo;
        var baseline := baselines[key];
        todo := todo - {key};
        if key in present {
          if baseline.missed != 0 { baselines := baselines[key := baseline.(missed := 0)]; }
        } else if baseline.missed + 1 > grace {
          baselines := baselines - {key};
        } else {
          baselines := baselines[key := baseline.(missed := baseline.missed + 1)];
        }
      }
    }

    /** One sample; on an error the baselines of the readings before it stay updated. */
    method TakeSample(readings: seq<Reading>) returns (ok: bool, percents: seq<real>)
      modifies this
      ensures ok <==> Sample(old(baselines), readings, grace).Some?
      ensures ok ==> baselines == Sample(old(baselines), readings, grace).value
      ensures ok ==> percents == TakeAll(Pass(old(baselines), {}, []), readings).value.percents
      ensures !ok ==> exists i :: 0 <= i < |readings| && FailedAt(Pass(old(baselines), {}, []), readings, i, baselines)
    {
      var present: set<Key> := {};
      percents := [];
      ghost var start := Pass(baselines, {}, []);
      for i := 0 to |readings|
        invariant TakeAll(start, readings[..i]) == Some(Pass(baselines, present, percents))
      {
        var r := readings[i];
        assert readings[..i + 1][..i] == readings[..i];
        if !r.valid {
          StopsHere(start, readings, i);
          assert FailedAt(start, readings, i, baselines);
          return false, percents;
        }
        present := present + {r.key};
        var percent := Some(0.0);
        if !r.gpu { percent := Rate(r); }
        if percent.None? || !r.written {
          StopsHere(start, readings, i);
          assert FailedAt(start, readings, i, baselines);
          return false, percents;
        }
        percents := percents + [percent.value];
      }
      assert readings[..|readings|] == readings;
      DropMissing(present);
      ok := true;
    }

    static lemma {:induction false} StopsHere(p: Pass, rs: seq<Reading>, i: nat)
      requires i < |rs| && TakeAll(p, rs[..i + 1]).None?
      ensures TakeAll(p, rs).None?
      decreases |rs|
    {
      if i + 1 < |rs| {
        assert rs[..|rs| - 1][..i + 1] == rs[..i + 1];
        StopsHere(p, rs[..|rs| - 1], i);
      } else {
        assert rs[..i + 1] == rs;
      }
    }
  }
}
