/** The prime-counting workload: trial division, the remote search with its growing result array,
    and the partition of a range over cores. */
module Primes {
  import opened Bytes

  ghost predicate Prime(n: int) {
    n >= 2 && forall d :: 2 <= d < n ==> n % d != 0
  }

  /** `is_prime`. The C loop runs while `i <= sqrt(n)`; for `n` below 2^31 the double-precision root
      is exact enough that this is `i * i <= n`. */
  method IsPrime(n: int) returns (b: bool)
    requires -INT_MAX - 1 <= n <= INT_MAX
    ensures b <==> Prime(n)
  {
    if n < 2 { return false; }
    if n == 2 { return true; }
    if n % 2 == 0 { return false; }
    var i := 3;
    while i * i <= n
      invariant 3 <= i && i % 2 == 1
      invariant forall d :: 2 <= d < i ==> n % d != 0
      decreases n - i
    {
      Square(i);
      if n % i == 0 {
        return false;
      }
      EvenDivisor(n, i + 1);
      i := i + 2;
    }
    SmallDivisor(n, i);
    return true;
  }

  lemma Square(i: int)
    requires i >= 3
    ensures i < i * i
  {
  }

  /** An odd number has no even divisor. */
  lemma EvenDivisor(n: int, d: int)
    requires n % 2 == 1 && d > 0 && d % 2 == 0
    ensures n % d != 0
  {
    var q, h := n / d, d / 2;
    Twice(q, h);
    assert n == q * (2 * h) + n % d;
  }

  lemma Twice(q: int, h: int)
    ensures q * (2 * h) == 2 * (q * h)
  {
  }

  /** A number with a proper divisor has one that does not exceed its square root. */
  lemma SmallDivisor(n: int, i: int)
    requires 2 < n < i * i && i >= 2 && forall d :: 2 <= d < i ==> n % d != 0
    ensures Prime(n)
  {
    forall d | 2 <= d < n ensures n % d != 0 {
      if n % d == 0 {
        var q := n / d;
        assert n == q * d;
        if d >= i {
          if q >= i {
            Products(q, d, i);
          }
          assert q < i;
          assert q >= 2;
          Cofactor(n, q, d);
        }
        assert false;
      }
    }
  }

  lemma Products(q: int, d: int, i: int)
    requires q >= i >= 0 && d >= i
    ensures q * d >= i * i
  {
    assert q * d >= i * d;
    assert i * d >= i * i;
  }

  lemma Cofactor(n: int, q: int, d: int)
    requires q > 0 && n == q * d
    ensures n % q == 0
  {
    DivModUnique(n, q, d, 0);
  }

  // ----- Lists of primes

  /** The primes of a closed range, in increasing order. */
  ghost function PrimesIn(lo: int, hi: int): (ps: seq<nat>)
    decreases hi - lo
  {
    if hi < lo then []
    else PrimesIn(lo, hi - 1) + if Prime(hi) then [hi] else []
  }

  /** It contains exactly the primes of the range, each once, in increasing order. */
  lemma {:induction false} PrimesInSpec(lo: int, hi: int)
    ensures forall x :: x in PrimesIn(lo, hi) <==> lo <= x <= hi && Prime(x)
    ensures Increasing(PrimesIn(lo, hi))
    ensures |PrimesIn(lo, hi)| <= if hi < lo then 0 else hi - lo + 1
    decreases hi - lo
  {
    hide Prime;
    if hi >= lo {
      PrimesInSpec(lo, hi - 1);
      var before := PrimesIn(lo, hi - 1);
      assert forall i :: 0 <= i < |before| ==> before[i] in before;
    }
  }

  lemma {:induction false} PrimesInSplit(lo: int, mid: int, hi: int)
    requires lo - 1 <= mid <= hi
    ensures PrimesIn(lo, hi) == PrimesIn(lo, mid) + PrimesIn(mid + 1, hi)
    decreases hi - mid
  {
    hide Prime;
    if mid < hi {
      PrimesInSplit(lo, mid, hi - 1);
      var last := if Prime(hi) then [hi] else [];
      Assoc(PrimesIn(lo, mid), PrimesIn(mid + 1, hi - 1), last);
    }
  }

  // ----- The remote search

  const U31 := 0x8000_0000

  /** What an `unsigned int` becomes when it is passed as an `int`. */
  function AsInt(u: nat): int
    requires u < U32
  {
    if u < U31 then u else u - U32
  }

  function Min(a: int, b: int): int { if a < b then a else b }

  /** The primes that the remote search reports for its arguments. */
  ghost function Found(rangeStart: nat, rangeEnd: nat): seq<nat> {
    PrimesIn(rangeStart % U32, Min(rangeEnd % U32, U31 - 1))
  }

  /** An array with its length in front. */
  function Counted(xs: seq<nat>): seq<nat> {
    [|xs|] + xs
  }

  /** `realloc` of an array. */
  method Realloc(a: array<int>, len: nat) returns (b: array<int>)
    ensures fresh(b) && b.Length == len
    ensures forall i :: 0 <= i < len && i < a.Length ==> b[i] == a[i]
  {
    b := new int[len];
    var i := 0;
    while i < len && i < a.Length
      invariant 0 <= i <= len && i <= a.Length
      invariant forall k :: 0 <= k < i ==> b[k] == a[k]
    {
      b[i] := a[i];
      i := i + 1;
    }
  }

  /** The value of the `unsigned int` loop counter at the j-th test of the loop condition. */
  function At(start: nat, j: nat): nat {
    (start + j) % U32
  }

  /** `find_primes`, followed for at most `tests` further tests of its loop condition. It has ended by
      then exactly if the counter has passed the upper bound; then the first cell is the count and the
      others are the primes it reports, in order. The bounds are truncated to 32 bits. */
  method FindPrimes(rangeStart: nat, rangeEnd: nat, tests: nat) returns (ended: bool, cells: array<int>)
    ensures ended <==> exists j: nat :: j <= tests && At(rangeStart % U32, j) > rangeEnd % U32
    ensures ended ==> cells[..] == Counted(Found(rangeStart, rangeEnd))
    ensures ended ==> cells.Length > 0 && cells[0] == cells.Length - 1 && cells[1..] == Found(rangeStart, rangeEnd)
  {
    hide Prime, PrimesIn, At;
    var start, end := rangeStart % U32, rangeEnd % U32;
    var capacity: nat := 16;
    cells := new int[capacity + 1];
    cells[0] := 0;
    ghost var ps: seq<nat> := [];
    NoPrimes(start, Min(start - 1, U31 - 1));
    FirstTest(start);
    var n, i := 0, start;
    while i <= end
      invariant n <= tests && i == At(start, n) < U32
      invariant forall j: nat :: j < n ==> At(start, j) <= end
      invariant end < U32 - 1 ==> start <= i && (i <= end + 1 || i == start)
      invariant end < U32 - 1 ==> ps == PrimesIn(start, Min(i - 1, U31 - 1))
      invariant fresh(cells) && Holds(cells, capacity, ps)
      decreases tests - n
    {
      if n == tests {
        assert forall j: nat :: j <= tests ==> At(start, j) <= end;
        return false, cells;
      }
      var found := IsPrime(AsInt(i));
      if end < U32 - 1 {
        Extend(start, i, found);
      }
      if found {
        cells, capacity := Record(cells, capacity, i, ps);
        ps := ps + [i];
      }
      NextTest(start, n);
      n := n + 1;
      i := (i + 1) % U32;
    }
    assert At(start, n) > end;
    if end < start {
      NoPrimes(start, Min(end, U31 - 1));
      NoPrimes(start, Min(i - 1, U31 - 1));
    } else {
      assert Min(i - 1, U31 - 1) == Min(end, U31 - 1);
    }
    capacity := cells[0];
    ghost var before := cells;
    cells := Realloc(cells, capacity + 1);
    assert cells[1..] == before[1..|ps| + 1];
    assert cells[..] == [cells[0]] + cells[1..];
    return true, cells;
  }

  /** The array has room for `capacity` numbers and the count, and holds `ps` so far. */
  ghost predicate Holds(cells: array<int>, capacity: nat, ps: seq<nat>)
    reads cells
  {
    cells.Length == capacity + 1 && |ps| < capacity && cells[0] == |ps| && cells[1..|ps| + 1] == ps
  }

  /** One find: count it, grow the array if need be, and store it. */
  method Record(cells: array<int>, capacity: nat, i: nat, ghost ps: seq<nat>)
    returns (grown: array<int>, room: nat)
    requires Holds(cells, capacity, ps)
    modifies cells
    ensures Holds(grown, room, ps + [i]) && (grown == cells || fresh(grown))
  {
    grown, room := cells, capacity;
    grown[0] := grown[0] + 1;
    var count := grown[0];
    if count >= room {
      room := room + 16;
      grown := Realloc(grown, room + 1);
      assert grown[1..|ps| + 1] == cells[1..|ps| + 1];
    }
    grown[count] := i;
    assert grown[1..|ps| + 1] == ps;
    assert grown[1..|ps| + 2] == grown[1..|ps| + 1] + [grown[|ps| + 1]];
  }

  lemma FirstTest(start: nat)
    requires start < U32
    ensures At(start, 0) == start
  {
  }

  lemma NextTest(start: nat, j: nat)
    ensures At(start, j + 1) == (At(start, j) + 1) % U32
  {
  }

  /** The loop of `find_primes` ends if and only if the upper bound, as an `unsigned int`, is not the
      largest one: the counter never exceeds 2^32 - 1, and it reaches everything up to that. */
  lemma LoopEnds(rangeStart: nat, rangeEnd: nat)
    ensures (exists j: nat :: At(rangeStart % U32, j) > rangeEnd % U32) <==> rangeEnd % U32 != U32 - 1
  {
    var start := rangeStart % U32;
    if rangeEnd % U32 != U32 - 1 {
      var j: nat := U32 - 1 - start;
      assert At(start, j) == U32 - 1;
    }
  }

  function Max(a: int, b: int): int { if a < b then b else a }

  lemma NoPrimes(lo: int, hi: int)
    requires hi < lo
    ensures PrimesIn(lo, hi) == []
  {
  }

  /** One more candidate. */
  lemma Extend(start: nat, i: nat, found: bool)
    requires start <= i < U32 && (found <==> Prime(AsInt(i)))
    ensures PrimesIn(start, Min(i, U31 - 1)) == PrimesIn(start, Min(i - 1, U31 - 1)) + if found then [i] else []
  {
  }

  // ----- What the search misses

  ghost predicate Increasing(a: seq<nat>) {
    forall i, j :: 0 <= i < j < |a| ==> a[i] < a[j]
  }

  /** Two increasing lists with the same elements are the same list. */
  lemma {:induction false} SameIncreasing(a: seq<nat>, b: seq<nat>)
    requires Increasing(a) && Increasing(b) && forall x :: x in a <==> x in b
    ensures a == b
  {
    BothEmpty(a, b);
    if a != [] {
      SameFirst(a, b);
      SameRest(a, b);
      SameIncreasing(a[1..], b[1..]);
      assert a == [a[0]] + a[1..] && b == [b[0]] + b[1..];
    }
  }

  lemma BothEmpty(a: seq<nat>, b: seq<nat>)
    requires forall x :: x in a <==> x in b
    ensures a == [] <==> b == []
  {
    if a != [] { assert a[0] in a; }
    if b != [] { assert b[0] in b; }
  }

  lemma SameFirst(a: seq<nat>, b: seq<nat>)
    requires Increasing(a) && Increasing(b) && a != [] && b != [] && forall x :: x in a <==> x in b
    ensures a[0] == b[0]
  {
    assert a[0] in b && b[0] in a;
  }

  lemma SameRest(a: seq<nat>, b: seq<nat>)
    requires Increasing(a) && Increasing(b) && a != [] && b != [] && a[0] == b[0]
    requires forall x :: x in a <==> x in b
    ensures Increasing(a[1..]) && Increasing(b[1..]) && forall x :: x in a[1..] <==> x in b[1..]
  {
    RestOf(a);
    RestOf(b);
  }

  lemma RestOf(a: seq<nat>)
    requires Increasing(a) && a != []
    ensures Increasing(a[1..]) && forall x :: x in a[1..] <==> x in a && x != a[0]
  {
    assert a == [a[0]] + a[1..];
  }

  /** Some prime of the range is 2^31 or more, so that `is_prime` is asked about a negative number, or is
      beyond the truncated upper bound. */
  ghost predicate Lost(lo: nat, hi: nat) {
    exists x :: lo <= x <= hi && Prime(x) && (x >= U31 || x > hi % U32)
  }

  /** The lower bound does not fit into 32 bits, and some prime lies in the range that is searched instead. */
  ghost predicate Stray(lo: nat, hi: nat) {
    lo >= U32 && exists x :: lo % U32 <= x <= Min(hi % U32, U31 - 1) && Prime(x)
  }

  /** For all bounds, the search reports exactly the primes of its range if and only if none of them is lost
      and none that it reports is astray. */
  lemma FoundExactly(lo: nat, hi: nat)
    ensures Found(lo, hi) == PrimesIn(lo, hi) <==> !Lost(lo, hi) && !Stray(lo, hi)
  {
    FoundIn(lo, hi);
    hide Prime, PrimesIn, Found;
    PrimesInSpec(lo, hi);
    if x :| lo <= x <= hi && Prime(x) && (x >= U31 || x > hi % U32) {
      assert x in PrimesIn(lo, hi) && x !in Found(lo, hi);
    } else if Stray(lo, hi) {
      var x :| lo % U32 <= x <= Min(hi % U32, U31 - 1) && Prime(x);
      assert x in Found(lo, hi) && x !in PrimesIn(lo, hi);
    } else {
      forall x ensures x in Found(lo, hi) <==> x in PrimesIn(lo, hi) {
      }
      SameIncreasing(Found(lo, hi), PrimesIn(lo, hi));
    }
  }

  lemma FoundIn(lo: nat, hi: nat)
    ensures Increasing(Found(lo, hi))
    ensures forall x :: x in Found(lo, hi) <==> lo % U32 <= x <= Min(hi % U32, U31 - 1) && Prime(x)
  {
    hide PrimesIn, Prime;
    PrimesInSpec(lo % U32, Min(hi % U32, U31 - 1));
  }

  /** For 32-bit bounds, if and only if none of the primes is 2^31 or more. */
  lemma FoundIn32Bits(lo: nat, hi: nat)
    requires lo < U32 && hi < U32
    ensures Found(lo, hi) == PrimesIn(lo, hi) <==> !exists x :: Max(lo, U31) <= x <= hi && Prime(x)
  {
    hide Prime, PrimesIn, Found;
    FoundExactly(lo, hi);
    if x :| Max(lo, U31) <= x <= hi && Prime(x) {
      assert lo <= x <= hi && Prime(x) && x >= U31;
    }
  }

  /** In particular for bounds that are not negative as `int`. */
  lemma FoundIsPrimes(lo: nat, hi: nat)
    requires lo < U32 && hi <= INT_MAX
    ensures Found(lo, hi) == PrimesIn(lo, hi)
  {
    hide PrimesIn, Prime, Found;
    FoundExactly(lo, hi);
  }

  /** Bounds beyond 32 bits are truncated, so the search looks in another range. */
  lemma Truncated(lo: nat, hi: nat)
    ensures Found(lo + U32, hi + U32) == Found(lo, hi)
  {
    hide PrimesIn;
    assert (lo + U32) % U32 == lo % U32 && (hi + U32) % U32 == hi % U32;
  }

  lemma TruncationFails()
    ensures Found(U32 + 2, U32 + 3) == [2, 3] != PrimesIn(U32 + 2, U32 + 3)
  {
    Truncated(2, 3);
    assert PrimesIn(2, 1) == [] && PrimesIn(2, 2) == [2] && PrimesIn(2, 3) == [2, 3];
    PrimesInSpec(U32 + 2, U32 + 3);
    assert 2 !in PrimesIn(U32 + 2, U32 + 3);
    assert 2 in [2, 3];
  }

  // ----- The partition over cores

  /** Range `k` of `total`, as the client assigns it. */
  function RangeSize(first: int, last: int, total: int): int
    requires total > 0
  {
    (last - first) / total
  }

  function Start(first: int, last: int, total: int, k: int): int
    requires total > 0
  {
    first + k * RangeSize(first, last, total)
  }

  function End(first: int, last: int, total: int, k: int): int
    requires total > 0
  {
    if k == total - 1 then last else Start(first, last, total, k) + RangeSize(first, last, total) - 1
  }

  /** The ranges tile the whole: they start at `first`, each begins where the previous one ended, and
      none reaches beyond `last`. */
  lemma Tiles(first: int, last: int, total: int, k: int)
    requires 1 <= first <= last && 0 <= k < total
    ensures Start(first, last, total, 0) == first && End(first, last, total, total - 1) == last
    ensures k + 1 < total ==> Start(first, last, total, k + 1) == End(first, last, total, k) + 1
    ensures first <= Start(first, last, total, k) <= End(first, last, total, k) + 1
    ensures 0 <= End(first, last, total, k) <= last
  {
    var size := RangeSize(first, last, total);
    assert 0 <= size && size * total <= last - first;
    assert k * size >= 0;
    assert (k + 1) * size == k * size + size;
    Multiples(k, total, size);
  }

  /** All ranges but the last have the same size, the greatest that fits `total` times into the distance from
      `first` to `last`; the last range takes what is left. */
  lemma RangeSizes(first: int, last: int, total: int, k: int)
    requires 1 <= first <= last && 0 <= k < total
    ensures var size := End(first, last, total, k) - Start(first, last, total, k) + 1;
            if k < total - 1 then size * total <= last - first < (size + 1) * total
            else forall s :: s * total <= last - first < (s + 1) * total ==> size == last - first + 1 - (total - 1) * s
  {
    var size := RangeSize(first, last, total);
    assert size * total <= last - first < size * total + total;
    assert (size + 1) * total == size * total + total;
    forall s | s * total <= last - first < (s + 1) * total ensures s == size {
      SameSize(s, size, total, last - first);
    }
  }

  lemma SameSize(s: int, t: int, total: int, d: int)
    requires total > 0 && s * total <= d < (s + 1) * total && t * total <= d < (t + 1) * total
    ensures s == t
  {
    DivModUnique(d, total, s, d - s * total);
    DivModUnique(d, total, t, d - t * total);
  }

  lemma Multiples(k: int, total: int, size: int)
    requires 0 <= k < total && size >= 0
    ensures 0 <= k * size && (k + 1) * size <= total * size
  {
    assert (total - (k + 1)) * size >= 0;
    assert total * size == (k + 1) * size + (total - (k + 1)) * size;
  }

  /** Every number of the closed range belongs to exactly one of the per-core ranges, also when there
      are more cores than numbers. */
  lemma Partition(first: int, last: int, total: int, x: int)
    requires 1 <= first <= last && total > 0
    ensures first <= x <= last <==> exists k :: InRange(first, last, total, k, x)
    ensures forall k, m :: InRange(first, last, total, k, x) && InRange(first, last, total, m, x) ==> k == m
  {
    if first <= x <= last {
      var k := FindRange(first, last, total, x);
    }
    forall k | InRange(first, last, total, k, x) ensures first <= x <= last {
      Tiles(first, last, total, k);
    }
    forall k, m | InRange(first, last, total, k, x) && InRange(first, last, total, m, x) ensures k == m {
      if k < m {
        Ordered(first, last, total, k, m);
      } else if m < k {
        Ordered(first, last, total, m, k);
      }
    }
  }

  predicate InRange(first: int, last: int, total: int, k: int, x: int)
    requires total > 0
  {
    0 <= k < total && Start(first, last, total, k) <= x <= End(first, last, total, k)
  }

  lemma {:induction false} Ordered(first: int, last: int, total: int, k: int, m: int)
    requires 1 <= first <= last && 0 <= k < m < total
    ensures End(first, last, total, k) < Start(first, last, total, m)
    decreases m - k
  {
    Tiles(first, last, total, k);
    if k + 1 < m {
      Tiles(first, last, total, k + 1);
      Ordered(first, last, total, k + 1, m);
    }
  }

  lemma FindRange(first: int, last: int, total: int, x: int) returns (k: int)
    requires 1 <= first <= last && total > 0 && first <= x <= last
    ensures InRange(first, last, total, k, x)
  {
    k := 0;
    Tiles(first, last, total, 0);
    while x > End(first, last, total, k)
      invariant 0 <= k < total && Start(first, last, total, k) <= x
      decreases total - k
    {
      Tiles(first, last, total, k);
      k := k + 1;
      Tiles(first, last, total, k);
    }
  }

  /** Number of primes in the first `k` ranges together. */
  ghost function CountUpTo(first: int, last: int, total: int, k: nat): nat
    requires total > 0
  {
    if k == 0 then 0
    else
      CountUpTo(first, last, total, k - 1)
      + |PrimesIn(Start(first, last, total, k - 1), End(first, last, total, k - 1))|
  }

  /** Summing the counts of the ranges counts the primes of the whole range. */
  lemma {:induction false} CountsAddUp(first: int, last: int, total: int, k: nat)
    requires 1 <= first <= last && 0 < k <= total
    ensures CountUpTo(first, last, total, k) == |PrimesIn(first, End(first, last, total, k - 1))|
  {
    hide PrimesIn, Start, End;
    Tiles(first, last, total, k - 1);
    if k == 1 {
      assert CountUpTo(first, last, total, 0) == 0;
    } else {
      CountsAddUp(first, last, total, k - 1);
      Tiles(first, last, total, k - 2);
      PrimesInSplit(first, End(first, last, total, k - 2), End(first, last, total, k - 1));
    }
  }
}
