/** Execution IDs of task occurrences (internal/app/execution.go:37-43) and the checks benchmarks
    apply to them (pkg/benchmark/terminalbench/terminalbench.go:474-513). */
module OccurrenceId {
  import opened Common

  const MaxUint64: nat := 0xFFFF_FFFF_FFFF_FFFF

  // ----- decimal numbers -----

  predicate Digit(c: char) { '0' <= c <= '9' }

  predicate AllDigits(s: string) { forall i :: 0 <= i < |s| ==> Digit(s[i]) }

  function DigitOf(d: nat): (c: char)
    requires d < 10
    ensures Digit(c) && c as int - '0' as int == d
  {
    ('0' as int + d) as char
  }

  function Decimal(n: nat): (s: string)
    ensures s != [] && AllDigits(s)
  {
    if n < 10 then [DigitOf(n)] else Decimal(n / 10) + [DigitOf(n % 10)]
  }

  /** The verb %03d for a number that is not negative. */
  function Padded(n: nat): (s: string)
    ensures AllDigits(s) && |s| >= 3
  {
    var d := Decimal(n);
    if |d| == 1 then ['0', '0'] + d else if |d| == 2 then ['0'] + d else d
  }

  function Value(s: string): nat
    requires AllDigits(s)
  {
    if s == [] then 0 else 10 * Value(s[..|s| - 1]) + (s[|s| - 1] as int - '0' as int)
  }

  function ParseUint(s: string): Option<nat> {
    if s == [] || !AllDigits(s) || Value(s) > MaxUint64 then None else Some(Value(s))
  }

  lemma {:induction false} ValueOfDecimal(n: nat)
    ensures Value(Decimal(n)) == n
  {
    if n >= 10 {
      ValueOfDecimal(n / 10);
      assert Decimal(n)[..|Decimal(n)| - 1] == Decimal(n / 10);
    }
  }

  lemma {:induction false} LeadingZero(s: string)
    requires AllDigits(s)
    ensures AllDigits(['0'] + s) && Value(['0'] + s) == Value(s)
  {
    var z := ['0'] + s;
    if s != [] {
      assert z[..|z| - 1] == ['0'] + s[..|s| - 1];
      LeadingZero(s[..|s| - 1]);
    } else {
      assert z[..0] == [] && z[0] == '0';
    }
  }

  lemma {:induction false} ValueOfPadded(n: nat)
    ensures Value(Padded(n)) == n
  {
    var d := Decimal(n);
    ValueOfDecimal(n);
    LeadingZero(d);
    LeadingZero(['0'] + d);
    assert ['0'] + (['0'] + d) == ['0', '0'] + d;
  }

  /** Without a leading zero, digits are the decimal form of their value. */
  lemma {:induction false} DecimalOfValue(s: string)
    requires s != [] && AllDigits(s) && (|s| == 1 || s[0] != '0')
    ensures Decimal(Value(s)) == s && (|s| > 1 ==> Value(s) >= 10)
  {
    var p := s[..|s| - 1];
    if |s| == 1 {
      assert p == [] && Value(s) == s[0] as int - '0' as int;
    } else {
      DecimalOfValue(p);
      if |p| == 1 { assert p[..0] == []; assert Value(p) >= 1; }
      assert Value(s) / 10 == Value(p);
      assert s == p + [s[|s| - 1]];
    }
  }

  lemma {:induction false} DecimalLength(n: nat, k: nat)
    requires k >= 1 && n < Pow10(k)
    ensures |Decimal(n)| <= k
  {
    if n >= 10 { DecimalLength(n / 10, k - 1); }
  }

  function Pow10(k: nat): nat { if k == 0 then 1 else 10 * Pow10(k - 1) }

  lemma PaddedLength(n: nat)
    requires n <= MaxUint64
    ensures |Padded(n)| <= 20
  {
    assert Pow10(10) == 10_000_000_000;
    assert Pow10(20) == 100_000_000_000_000_000_000;
    DecimalLength(n, 20);
  }

  // ----- the identifiers -----

  function ExecutionId(logical: string, index: nat): string { logical + "-" + Padded(index) }

  /** nextTaskOccurrence: the counter moves first, and stops at its largest value. */
  function NextOccurrence(logical: string, index: nat): Option<(nat, string)> {
    if index == MaxUint64 then None else Some((index + 1, ExecutionId(logical, index + 1)))
  }

  /** It fails at the largest index only; otherwise the new index can be read back from the ID. */
  lemma {:induction false} NextReadsBack(logical: string, index: nat)
    requires index <= MaxUint64
    ensures var r := NextOccurrence(logical, index);
            && (r.None? <==> index == MaxUint64)
            && (r.Some? ==> 0 < r.value.0 <= MaxUint64 && ReadIndex(r.value.1) == Some(r.value.0))
            && (r.Some? ==> r.value == (index + 1, logical + "-" + Padded(index + 1)))
  {
    if index < MaxUint64 { IndexReadsBack(logical, index + 1); }
  }

  predicate Letter(c: char) { 'a' <= c <= 'z' || 'A' <= c <= 'Z' || Digit(c) }

  predicate SafeIdentity(id: string) {
    id != [] && forall i :: 0 <= i < |id| ==> Letter(id[i]) || (i > 0 && id[i] in {'-', '_', '.'})
  }

  predicate SafeTaskId(id: string) { |id| <= 128 && SafeIdentity(id) }

  predicate SafeExecutionTaskId(logical: string, id: string) {
    && |id| <= 149 && SafeIdentity(id) && logical + "-" <= id
    && var suffix := id[|logical| + 1..];
       |suffix| >= 3 && var index := ParseUint(suffix); index.Some? && index.value > 0
  }

  // ----- reading the index back from the ID alone -----

  /** What follows the last '-'. */
  function Tail(id: string): (t: string)
    ensures |t| <= |id| && t == id[|id| - |t|..] && '-' !in t
    ensures |t| < |id| ==> id[|id| - |t| - 1] == '-'
  {
    if id == [] || id[|id| - 1] == '-' then [] else Tail(id[..|id| - 1]) + [id[|id| - 1]]
  }

  function ReadIndex(id: string): Option<nat> { ParseUint(Tail(id)) }

  lemma {:induction false} TailIs(head: string, t: string)
    requires '-' !in t
    ensures Tail(head + "-" + t) == t
  {
    var id := head + "-" + t;
    if t != [] {
      assert id[..|id| - 1] == head + "-" + t[..|t| - 1];
      assert id[|id| - 1] == t[|t| - 1] && t[|t| - 1] in t;
      TailIs(head, t[..|t| - 1]);
    } else {
      assert id[|id| - 1] == '-';
    }
  }

  lemma {:induction false} IndexReadsBack(logical: string, index: nat)
    requires index <= MaxUint64
    ensures ReadIndex(ExecutionId(logical, index)) == Some(index)
  {
    assert '-' !in Padded(index);
    TailIs(logical, Padded(index));
    ValueOfPadded(index);
  }

  lemma SameTail(a: string, b: string, t: string)
    requires a + t == b + t
    ensures a == b
  {
    assert |a + t| == |a| + |t| && |b + t| == |b| + |t|;
    assert a == (a + t)[..|a|] && b == (b + t)[..|a|];
  }

  /** IDs with different indices differ, whatever their logical IDs; with equal ones, the
      logical IDs decide. So the ID determines the occurrence. */
  lemma {:induction false} IdsAreDistinct(a: string, i: nat, b: string, j: nat)
    requires i <= MaxUint64 && j <= MaxUint64
    ensures ExecutionId(a, i) == ExecutionId(b, j) <==> a == b && i == j
  {
    IndexReadsBack(a, i);
    IndexReadsBack(b, j);
    if ExecutionId(a, i) == ExecutionId(b, j) {
      SameTail(a + "-", b + "-", Padded(i));
      SameTail(a, b, "-");
    }
  }

  lemma {:induction false} GeneratedIsAccepted(logical: string, index: nat)
    requires SafeTaskId(logical) && 0 < index <= MaxUint64
    ensures SafeExecutionTaskId(logical, ExecutionId(logical, index))
    ensures |ExecutionId(logical, index)| <= 149
  {
    var id := ExecutionId(logical, index);
    PaddedLength(index);
    ValueOfPadded(index);
    assert id[|logical| + 1..] == Padded(index);
    forall i | 0 <= i < |id| ensures Letter(id[i]) || (i > 0 && id[i] in {'-', '_', '.'}) {
      if i < |logical| { assert id[i] == logical[i]; }
      else if i > |logical| { assert id[i] == Padded(index)[i - |logical| - 1]; }
    }
  }

  /** The check accepts more than is generated: exactly the IDs whose index is written without a
      needless leading zero are generated ones. */
  lemma {:induction false} AcceptedIsGenerated(logical: string, id: string)
    requires SafeExecutionTaskId(logical, id)
    ensures var suffix := id[|logical| + 1..];
            (exists index :: 0 < index <= MaxUint64 && id == ExecutionId(logical, index)) <==> |suffix| == 3 || suffix[0] != '0'
  {
    var suffix := id[|logical| + 1..];
    var v := Value(suffix);
    assert id == logical + "-" + suffix;
    if exists index :: 0 < index <= MaxUint64 && id == ExecutionId(logical, index) {
      var index :| 0 < index <= MaxUint64 && id == ExecutionId(logical, index);
      assert suffix == Padded(index);
      if |suffix| > 3 { NoLeadingZero(index); }
    }
    if |suffix| == 3 || suffix[0] != '0' {
      PaddedOfValue(suffix);
      assert id == ExecutionId(logical, v);
    }
  }

  /** An accepted ID that is never generated: its index has a needless zero in front. */
  lemma AcceptedNotGenerated()
    ensures SafeTaskId("a") && SafeExecutionTaskId("a", "a-0001")
    ensures !exists index :: 0 < index <= MaxUint64 && "a-0001" == ExecutionId("a", index)
  {
    var id := "a-0001";
    assert id[2..] == "0001";
    assert Value("0001") == 1 by {
      assert "0001"[..3] == "000" && "000"[..2] == "00" && "00"[..1] == "0" && "0"[..0] == [];
      assert Value("000") == 0;
    }
    AcceptedIsGenerated("a", id);
  }

  lemma {:induction false} NoLeadingZero(n: nat)
    ensures |Decimal(n)| > 1 ==> Decimal(n)[0] != '0'
    ensures n > 0 ==> Decimal(n)[0] != '0'
  {
    if n >= 10 { NoLeadingZero(n / 10); }
  }

  lemma PaddedOfValue(s: string)
    requires |s| >= 3 && AllDigits(s) && (|s| == 3 || s[0] != '0')
    ensures Padded(Value(s)) == s
  {
    if s[0] != '0' {
      DecimalOfValue(s);
    } else {
      assert s == ['0'] + s[1..];
      LeadingZero(s[1..]);
      if s[1] != '0' {
        DecimalOfValue(s[1..]);
      } else {
        assert s[1..] == ['0'] + s[2..];
        LeadingZero(s[2..]);
        DecimalOfValue(s[2..]);
      }
    }
  }

  // ----- what the checks let through -----

  /** A digit or letter, by its code. */
  predicate Alphanumeric(c: char) { 48 <= c as int <= 57 || 65 <= c as int <= 90 || 97 <= c as int <= 122 }

  /** A safe identity is one or more characters of this alphabet, the first a letter or digit; so it names
      a single file and neither the current nor the parent directory. */
  lemma SafeExactly(id: string)
    ensures SafeIdentity(id) <==>
              id != "" && Alphanumeric(id[0]) && forall i :: 0 <= i < |id| ==> Alphanumeric(id[i]) || id[i] == '-' || id[i] == '_' || id[i] == '.'
    ensures SafeIdentity(id) ==> '/' !in id && '\\' !in id && '\0' !in id && id != "." && id != ".."
  {
    forall i | 0 <= i < |id| ensures Letter(id[i]) <==> Alphanumeric(id[i]) { }
  }

  /** The execution-ID check accepts exactly the logical ID, a hyphen and three or more digits of a positive
      64-bit number, safe and within 149 characters together. */
  lemma AcceptedExactly(logical: string, id: string)
    ensures SafeExecutionTaskId(logical, id) <==>
              SafeIdentity(id) && |id| <= 149
              && exists digits: string :: id == logical + "-" + digits && |digits| >= 3 && AllDigits(digits) && 1 <= Value(digits) <= 0xFFFF_FFFF_FFFF_FFFF
  {
    if logical + "-" <= id { assert id == logical + "-" + id[|logical| + 1..]; }
    if exists digits: string :: id == logical + "-" + digits && |digits| >= 3 && AllDigits(digits) && 1 <= Value(digits) <= 0xFFFF_FFFF_FFFF_FFFF {
      var digits: string :| id == logical + "-" + digits && |digits| >= 3 && AllDigits(digits) && 1 <= Value(digits) <= 0xFFFF_FFFF_FFFF_FFFF;
      assert id[|logical| + 1..] == digits;
    }
  }
}
