/** The coverage index of a task's samples (pkg/monitor/artifacts.go:164-202). */
module Coverage {
  import opened Common

  const MaxCoverageEntries := 32

  type Key = string

  datatype Sample = Sample(key: Key, name: string, second: nat)

  datatype Entry = Entry(name: string, count: nat, first: nat, last: nat)

  /** What the file system and the encoder answer: the length of the encoded line, and whether
      the write succeeds. */
  datatype Outcome = Outcome(encoded: Option<nat>, written: bool)

  /** The tally of samples: per key its count, its first and its latest. */
  function Tally(log: seq<Sample>): map<Key, Entry> {
    if log == [] then map[]
    else
      var t, s := Tally(log[..|log| - 1]), log[|log| - 1];
      t[s.key := if s.key in t then t[s.key].(count := t[s.key].count + 1, last := s.second) else Entry(s.name, 1, s.second, s.second)]
  }

  lemma TallySnoc(log: seq<Sample>, s: Sample)
    ensures Tally(log + [s]) ==
            var t := Tally(log);
            t[s.key := if s.key in t then t[s.key].(count := t[s.key].count + 1, last := s.second) else Entry(s.name, 1, s.second, s.second)]
  {
    assert (log + [s])[..|log|] == log;
  }

  class TaskArtifact {
    var closed: bool
    var sequence: nat
    var bytesWritten: nat
    var coverage: map<Key, Entry>
    ghost var log: seq<Sample>

    /** The index is the tally of exactly the samples written, and all bounds hold. */
    ghost predicate Valid(maxSamples: nat, maxFileBytes: nat) reads this {
      && sequence == |log| <= maxSamples && bytesWritten <= maxFileBytes
      && coverage == Tally(log) && |coverage| <= MaxCoverageEntries
    }

    constructor (maxSamples: nat, maxFileBytes: nat)
      ensures Valid(maxSamples, maxFileBytes) && !closed && log == [] && bytesWritten == 0
    {
      closed, sequence, bytesWritten, coverage, log := false, 0, 0, map[], [];
    }

    method AppendSample(s: Sample, maxSamples: nat, maxFileBytes: nat, outcome: Outcome) returns (ok: bool)
      requires Valid(maxSamples, maxFileBytes)
      modifies this
      ensures Valid(maxSamples, maxFileBytes) && closed == old(closed)
      ensures ok <==> !closed && old(sequence) < maxSamples
                      && (s.key in old(coverage) || |old(coverage)| < 32)
                      && outcome.encoded.Some? && old(bytesWritten) + outcome.encoded.value + 1 <= maxFileBytes && outcome.written
      ensures log == if ok then old(log) + [s] else old(log)
      ensures bytesWritten == old(bytesWritten) + if ok then outcome.encoded.value + 1 else 0
    {
      if closed { return false; }
      if sequence >= maxSamples { return false; }
      if s.key !in coverage && |coverage| >= MaxCoverageEntries { return false; }
      if outcome.encoded.None? { return false; }
      var length := outcome.encoded.value + 1;
      if bytesWritten + length > maxFileBytes { return false; }
      if !outcome.written { return false; }
      TallySnoc(log, s);
      sequence, bytesWritten, log := sequence + 1, bytesWritten + length, log + [s];
      if s.key !in coverage {
        assert coverage[s.key := Entry(s.name, 0, s.second, 0)].Keys == coverage.Keys + {s.key};
        coverage := coverage[s.key := Entry(s.name, 0, s.second, 0)];
      } else {
        assert coverage[s.key := coverage[s.key]] == coverage;
      }
      var entry := coverage[s.key];
      assert coverage.Keys == coverage[s.key := entry.(count := entry.count + 1, last := s.second)].Keys;
      coverage := coverage[s.key := entry.(count := entry.count + 1, last := s.second)];
      ok := true;
    }
  }

  // ----- what the tally says -----

  predicate NoRepeats(ks: seq<Key>) { forall i, j :: 0 <= i < j < |ks| ==> ks[i] != ks[j] }

  function CountSum(ks: seq<Key>, t: map<Key, Entry>): nat {
    if ks == [] then 0 else CountSum(ks[..|ks| - 1], t) + if ks[|ks| - 1] in t then t[ks[|ks| - 1]].count else 0
  }

  lemma {:induction false} CountSumUpdate(ks: seq<Key>, t: map<Key, Entry>, k: Key, e: Entry)
    requires NoRepeats(ks) && e.count == 1 + if k in t then t[k].count else 0
    ensures CountSum(ks, t[k := e]) == CountSum(ks, t) + if k in ks then 1 else 0
  {
    if ks != [] {
      var before, last := ks[..|ks| - 1], ks[|ks| - 1];
      CountSumUpdate(before, t, k, e);
      assert ks == before + [last];
      assert last !in before;
    }
  }

  /** However the index lists its entries, their counts sum to the number of samples written. */
  lemma {:induction false} CountsSumToSequence(log: seq<Sample>, ks: seq<Key>)
    requires NoRepeats(ks) && forall k :: k in Tally(log) ==> k in ks
    ensures CountSum(ks, Tally(log)) == |log|
  {
    if log == [] {
      ZeroSum(ks);
    } else {
      var before, s := log[..|log| - 1], log[|log| - 1];
      CountsSumToSequence(before, ks);
      CountSumUpdate(ks, Tally(before), s.key, Tally(log)[s.key]);
      assert s.key in Tally(log);
    }
  }

  lemma {:induction false} ZeroSum(ks: seq<Key>)
    ensures CountSum(ks, map[]) == 0
  {
    if ks != [] { ZeroSum(ks[..|ks| - 1]); }
  }

  function CountOf(log: seq<Sample>, k: Key): nat {
    if log == [] then 0 else CountOf(log[..|log| - 1], k) + if log[|log| - 1].key == k then 1 else 0
  }

  /** Every entry has the exact count of its key, and the first and last second it was sampled. */
  lemma {:induction false} TallyIsExact(log: seq<Sample>, k: Key)
    ensures k in Tally(log) <==> CountOf(log, k) > 0
    ensures k in Tally(log) ==> Tally(log)[k].count == CountOf(log, k)
    ensures k in Tally(log) ==>
              exists i, j :: 0 <= i <= j < |log| && log[i].key == k == log[j].key && Tally(log)[k].name == log[i].name
                             && Tally(log)[k].first == log[i].second && Tally(log)[k].last == log[j].second
                             && OnlyBetween(log, k, i, j)
  {
    if log != [] {
      var before, s := log[..|log| - 1], log[|log| - 1];
      TallyIsExact(before, k);
      assert forall i :: 0 <= i < |before| ==> log[i] == before[i];
      if k in Tally(before) {
        var i, j :| 0 <= i <= j < |before| && before[i].key == k == before[j].key && Tally(before)[k].name == before[i].name
                    && Tally(before)[k].first == before[i].second && Tally(before)[k].last == before[j].second
                    && OnlyBetween(before, k, i, j);
        assert log[i] == before[i] && log[j] == before[j];
        assert OnlyBetween(log, k, i, if s.key == k then |log| - 1 else j);
      } else if s.key == k {
        NoneCounted(before, k);
        assert OnlyBetween(log, k, |log| - 1, |log| - 1);
      }
    }
  }

  /** The count of a key is the number of its samples. */
  lemma {:induction false} CountIsHowMany(log: seq<Sample>, k: Key)
    ensures CountOf(log, k) == |set i | 0 <= i < |log| && log[i].key == k|
  {
    if log != [] {
      var n := |log| - 1;
      CountIsHowMany(log[..n], k);
      var fewer := set i | 0 <= i < n && log[..n][i].key == k;
      assert (set i | 0 <= i < |log| && log[i].key == k) == fewer + (if log[n].key == k then {n} else {});
      assert n !in fewer;
    }
  }

  predicate OnlyBetween(log: seq<Sample>, k: Key, i: int, j: int) {
    forall t :: 0 <= t < |log| && log[t].key == k ==> i <= t <= j
  }

  lemma {:induction false} NoneCounted(log: seq<Sample>, k: Key)
    requires CountOf(log, k) == 0
    ensures forall t :: 0 <= t < |log| ==> log[t].key != k
  {
    if log != [] {
      NoneCounted(log[..|log| - 1], k);
      assert forall t :: 0 <= t < |log| - 1 ==> log[..|log| - 1][t] == log[t];
    }
  }
}
