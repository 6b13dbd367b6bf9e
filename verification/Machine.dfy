/** Fixed-width unsigned arithmetic as the firmware uses it, and the Option type. */
module Machine {

  datatype Option<+T> = None | Some(value: T) {
    predicate IsFailure() { None? }

    function PropagateFailure<U>(): Option<U>
      requires None?
    {
      None
    }

    function Extract(): T
      requires Some?
    {
      value
    }
  }

  const U32_SPAN: int := 0x1_0000_0000
  const U32_MAX: int := 0xFFFF_FFFF

  type u8 = x: int | 0 <= x < 0x100
  type u32 = x: int | 0 <= x < 0x1_0000_0000

  /** `u32::wrapping_sub` */
  function WrappingSub(a: u32, b: u32): u32 {
    if a >= b then a - b else a - b + U32_SPAN
  }

  /** `u32::wrapping_add` */
  function WrappingAdd(a: u32, b: u32): u32 {
    if a + b < U32_SPAN then a + b else a + b - U32_SPAN
  }

  /** `u32::saturating_add` */
  function SaturatingAdd(a: u32, b: u32): u32 {
    if a + b < U32_SPAN then a + b else U32_MAX
  }

  /** `u32::saturating_mul` */
  function SaturatingMul(a: u32, b: u32): u32 {
    if a * b < U32_SPAN then a * b else U32_MAX
  }

  function Min(a: int, b: int): int { if a <= b then a else b }

  function Max(a: int, b: int): int { if a >= b then a else b }

  /** The 32-bit reading of an unbounded millisecond clock. */
  function Clock(t: nat): u32 { t % U32_SPAN }

  /** Differences of 32-bit readings are exact for instants closer than a full turn. */
  lemma ClockDifference(earlier: nat, later: nat)
    requires earlier <= later < earlier + U32_SPAN
    ensures WrappingSub(Clock(later), Clock(earlier)) == later - earlier
  {
    var q, q' := earlier / U32_SPAN, later / U32_SPAN;
    assert earlier == q * U32_SPAN + Clock(earlier) && later == q' * U32_SPAN + Clock(later);
    assert q' == q || q' == q + 1;
  }

  /** Advancing a 32-bit reading is reading the advanced clock. */
  lemma ClockAdvance(t: nat, d: u32)
    ensures WrappingAdd(Clock(t), d) == Clock(t + d)
  {
    var q, q' := t / U32_SPAN, (t + d) / U32_SPAN;
    assert t == q * U32_SPAN + Clock(t) && t + d == q' * U32_SPAN + Clock(t + d);
    assert q' == q || q' == q + 1;
  }

  /** No element occurs twice. */
  ghost predicate Distinct<T>(s: seq<T>) {
    forall i, j :: 0 <= i < j < |s| ==> s[i] != s[j]
  }

  /** The values of a sequence. */
  ghost function Values<T>(s: seq<T>): set<T> { set x | x in s }

  /** A sequence without repeats has as many values as elements. */
  lemma {:induction false} DistinctCardinality<T>(s: seq<T>)
    requires Distinct(s)
    ensures |Values(s)| == |s|
  {
    if s == [] {
    } else {
      var n := |s| - 1;
      DistinctCardinality(s[..n]);
      assert Values(s) == Values(s[..n]) + {s[n]};
    }
  }

  lemma SubsetSize<T>(a: set<T>, b: set<T>)
    requires a <= b
    ensures |a| <= |b| && (a != b ==> |a| < |b|)
  {
    assert b == a + (b - a);
  }

  /** Where a value first occurs. */
  function Find(ids: seq<u32>, id: u32): (r: Option<nat>)
    ensures r.Some? ==> r.value < |ids| && ids[r.value] == id && id !in ids[..r.value]
    ensures r.None? <==> id !in ids
  {
    if ids == [] then None
    else if ids[0] == id then Some(0)
    else
      var rest := Find(ids[1..], id);
      if rest.None? then None else Some(rest.value + 1)
  }

  /** Removal that moves the last element into the gap. */
  function SwapRemove<T>(s: seq<T>, index: nat): seq<T>
    requires index < |s|
  {
    var last := |s| - 1;
    s[index := s[last]][..last]
  }

  lemma SwapRemoveDistinct<T>(s: seq<T>, index: nat)
    requires Distinct(s) && index < |s|
    ensures Distinct(SwapRemove(s, index))
    ensures Values(SwapRemove(s, index)) == Values(s) - {s[index]}
  {
    var r := SwapRemove(s, index);
    forall x ensures x in Values(r) <==> x in Values(s) - {s[index]} {
      if x in r {
        var j :| 0 <= j < |r| && r[j] == x;
        assert x == s[if j == index then |s| - 1 else j];
      }
      if x in Values(s) - {s[index]} {
        var j :| 0 <= j < |s| && s[j] == x;
        assert x == r[if j == |s| - 1 then index else j];
      }
    }
  }

  lemma NoValues<T>(s: seq<T>)
    ensures s == [] <==> Values(s) == {}
  {
    if s != [] {
      assert s[0] in Values(s);
    }
  }

  lemma {:induction false} FindIs(s: seq<u32>, id: u32, k: nat)
    requires k < |s| && s[k] == id && id !in s[..k]
    ensures Find(s, id) == Some(k)
  {
    if k > 0 {
      assert s[0] == s[..k][0];
      assert s[1..][..k - 1] == s[..k][1..];
      FindIs(s[1..], id, k - 1);
    }
  }

  lemma {:induction false} FindAppend(a: seq<u32>, b: seq<u32>, id: u32)
    ensures Find(a + b, id) == if id in a then Find(a, id)
                               else if id in b then Some(|a| + Find(b, id).value) else None
  {
    if a == [] {
      assert a + b == b;
    } else {
      assert (a + b)[0] == a[0] && (a + b)[1..] == a[1..] + b;
      assert id in a <==> id == a[0] || id in a[1..];
      FindAppend(a[1..], b, id);
    }
  }

  /** Little-endian bytes. */
  function Le32(n: u32): (r: seq<u8>)
    ensures |r| == 4
  {
    [n % 0x100, n / 0x100 % 0x100, n / 0x1_0000 % 0x100, n / 0x100_0000]
  }

  function FromLe32(b: seq<u8>): u32
    requires |b| == 4
  {
    b[0] as int + 0x100 * b[1] as int + 0x1_0000 * b[2] as int + 0x100_0000 * b[3] as int
  }

  lemma LeRoundTrip(n: u32)
    ensures FromLe32(Le32(n)) == n
  {
    var q := n / 0x100;
    assert n == 0x100 * q + n % 0x100;
    assert n / 0x1_0000 == q / 0x100 && n / 0x100_0000 == q / 0x1_0000;
    assert q == 0x100 * (q / 0x100) + q % 0x100;
    assert q / 0x100 == 0x100 * (q / 0x1_0000) + q / 0x100 % 0x100;
  }

  /** Multiplication keeps an order. */
  lemma Product(x: nat, y: nat, z: nat)
    requires x <= y
    ensures x * z <= y * z
  {
    assert y * z == x * z + (y - x) * z;
    assert (y - x) * z >= 0;
  }

  /** Numbers less than a turn apart have different remainders. */
  lemma RemaindersDiffer(j: int, k: int, n: nat)
    requires 0 < n && j < k < j + n
    ensures j % n != k % n
  {
    var p, q := j / n, k / n;
    assert j == p * n + j % n && k == q * n + k % n;
    assert (q - p) * n == q * n - p * n;
    NoMultipleBetween(q - p, n);
  }

  lemma NoMultipleBetween(d: int, n: nat)
    ensures d * n <= 0 || d * n >= n
  {
    if d > 0 { Product(1, d, n); } else { assert (-d) * n >= 0; }
  }

  /** The same value `n` times. */
  function Repeat<T>(x: T, n: nat): (s: seq<T>)
    ensures |s| == n
  {
    seq(n, _ => x)
  }

  function Zeros(n: nat): (r: seq<u8>)
    ensures |r| == n
  {
    Repeat(0, n)
  }
}
