/** Small shared vocabulary: an optional value, the fixed-width unsigned
    arithmetic the C++ code relies on, and the "later key overwrites" map
    fold used by every parser that fills a std::map / std::unordered_map. */
module Common {

  datatype Option<+T> = None | Some(value: T)

  /** 2^32: natural_t (unsigned int) arithmetic wraps modulo this. */
  const U32: int := 0x1_0000_0000
  /** 2^64: unsigned long long / uint64_t / ULONGLONG arithmetic wraps modulo this. */
  const U64: int := 0x1_0000_0000_0000_0000
  const Int32Min: int := -0x8000_0000
  const Int32Max: int := 0x7FFF_FFFF
  const Int64Min: int := -0x8000_0000_0000_0000
  const Int64Max: int := 0x7FFF_FFFF_FFFF_FFFF

  type u32 = x: int | 0 <= x < U32
  type u64 = x: int | 0 <= x < U64

  /** Unsigned 32-bit subtraction: wraps around instead of going negative. */
  function Sub32(a: u32, b: u32): (r: u32)
    ensures a >= b ==> r == a - b
    ensures a < b ==> r == a - b + U32
  {
    (a - b) % U32
  }

  /** Unsigned 64-bit subtraction. */
  function Sub64(a: u64, b: u64): (r: u64)
    ensures a >= b ==> r == a - b
    ensures a < b ==> r == a - b + U64
  {
    (a - b) % U64
  }

  /** Unsigned 64-bit addition. */
  function Add64(a: u64, b: u64): (r: u64)
    ensures a + b < U64 ==> r == a + b
    ensures a + b >= U64 ==> r == a + b - U64
  {
    (a + b) % U64
  }

  /** Unsigned 64-bit multiplication. */
  function Mul64(a: u64, b: u64): (r: u64)
    ensures a * b < U64 ==> r == a * b
    ensures r % U64 == (a * b) % U64
  {
    var p := a * b;
    Reduce64(p);
    p % U64
  }

  /** Reduction modulo 2^64 lands in range, is idempotent, and leaves
      in-range values alone. */
  lemma Reduce64(p: int)
    requires p >= 0
    ensures 0 <= p % U64 < U64 && (p % U64) % U64 == p % U64
    ensures p < U64 ==> p % U64 == p
  {
  }

  /** What `stream >> int` stores when the digits do not fit: the nearest
      representable 32-bit value. */
  function ClampInt32(v: int): (r: int)
    ensures Int32Min <= r <= Int32Max
    ensures Int32Min <= v <= Int32Max ==> r == v
    ensures v > Int32Max ==> r == Int32Max
    ensures v < Int32Min ==> r == Int32Min
  {
    if v > Int32Max then Int32Max else if v < Int32Min then Int32Min else v
  }

  /** The same for `stream >> long` on a 64-bit target. */
  function ClampInt64(v: int): (r: int)
    ensures Int64Min <= r <= Int64Max
    ensures Int64Min <= v <= Int64Max ==> r == v
    ensures v > Int64Max ==> r == Int64Max
    ensures v < Int64Min ==> r == Int64Min
  {
    if v > Int64Max then Int64Max else if v < Int64Min then Int64Min else v
  }

  /** `x / y` for a positive `y`, as the progress bars compute their
      fill: the quotient times `y` gives back `x`, and it lies in [0, 1]
      exactly when `x` lies in [0, y]. */
  function Fraction(x: real, y: real): (f: real)
    requires y > 0.0
    ensures f * y == x
    ensures f >= 0.0 <==> x >= 0.0
    ensures f <= 1.0 <==> x <= y
  {
    FractionBounds(x, y);
    x / y
  }

  lemma FractionBounds(x: real, y: real)
    requires y > 0.0
    ensures (x / y) * y == x
    ensures x / y >= 0.0 <==> x >= 0.0
    ensures x / y <= 1.0 <==> x <= y
  {
    var f := x / y;
    assert f * y == x;
    assert (1.0 - f) * y == y - x;
    if f < 0.0 { assert f * y < 0.0; }
    if f > 1.0 { assert (f - 1.0) * y > 0.0; }
  }

  /** The map left behind by `m[k] = v` executed for every pair in order,
      starting from an empty map. */
  function MapOf<K, V>(ps: seq<(K, V)>): (m: map<K, V>)
    ensures m.Keys == set i | 0 <= i < |ps| :: ps[i].0
  {
    if |ps| == 0 then map[]
    else MapOf(ps[..|ps| - 1])[ps[|ps| - 1].0 := ps[|ps| - 1].1]
  }

  /** Every key of the map is the key of some pair. */
  lemma MapOfKey<K, V>(ps: seq<(K, V)>, k: K) returns (j: nat)
    requires k in MapOf(ps)
    ensures j < |ps| && ps[j].0 == k
  {
    j :| 0 <= j < |ps| && ps[j].0 == k;
  }

  /** The value stored under a key is the one from its LAST occurrence. */
  lemma {:induction false} MapOfLastWins<K, V>(ps: seq<(K, V)>, i: nat)
    requires i < |ps|
    requires forall j :: i < j < |ps| ==> ps[j].0 != ps[i].0
    ensures ps[i].0 in MapOf(ps) && MapOf(ps)[ps[i].0] == ps[i].1
  {
    if i < |ps| - 1 {
      MapOfLastWins(ps[..|ps| - 1], i);
    }
  }

  /** Index of the first element satisfying `p`: the shape of every
      "return the first candidate that matches" loop. */
  function FirstIndex<T>(xs: seq<T>, p: T -> bool): (r: Option<nat>)
    ensures r.None? <==> forall k :: 0 <= k < |xs| ==> !p(xs[k])
    ensures r.Some? ==>
              (r.value < |xs| && p(xs[r.value]) && forall k :: 0 <= k < r.value ==> !p(xs[k]))
  {
    if |xs| == 0 then None
    else if p(xs[0]) then Some(0)
    else
      var r := FirstIndex(xs[1..], p);
      assert forall k :: 1 <= k < |xs| ==> xs[k] == xs[1..][k - 1];
      if r.None? then None else Some(r.value + 1)
  }

  /** std::unordered_map::operator[] on a missing key inserts and yields 0. */
  function GetOrZero<K>(m: map<K, int>, k: K): (r: int)
    ensures k in m ==> r == m[k]
    ensures k !in m ==> r == 0
  {
    if k in m then m[k] else 0
  }
}
