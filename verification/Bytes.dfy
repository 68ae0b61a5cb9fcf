/** Fixed-width little-endian integers, as the packed protocol structs lay them out. */
module Bytes {

  type Byte = x: int | 0 <= x < 256

  datatype Option<+T> = None | Some(value: T)

  const U16: int := 0x1_0000
  const U32: int := 0x1_0000_0000
  const U64: int := 0x1_0000_0000_0000_0000
  const INT_MAX: int := 0x7fff_ffff

  /** What a C `int` becomes when it is stored in a `uint32_t` field. */
  function ToU32(n: int): (u: nat)
    ensures u < U32
    ensures 0 <= n < U32 ==> u == n
    ensures -U32 <= n < 0 ==> u == n + U32
  {
    n % U32
  }

  function Pow256(k: nat): (p: nat)
    ensures p > 0
  {
    if k == 0 then 1 else 256 * Pow256(k - 1)
  }

  lemma Widths()
    ensures Pow256(1) == 256 && Pow256(2) == U16 && Pow256(4) == U32 && Pow256(8) == U64
  {
    assert Pow256(3) == 256 * Pow256(2);
    assert Pow256(5) == 256 * Pow256(4);
    assert Pow256(6) == 256 * Pow256(5);
    assert Pow256(7) == 256 * Pow256(6);
  }

  /** The `k` low-order bytes of `n`, least significant first. */
  function LE(n: nat, k: nat): (s: seq<Byte>)
    ensures |s| == k
    decreases k
  {
    if k == 0 then [] else [n % 256] + LE(n / 256, k - 1)
  }

  function UnLE(s: seq<Byte>): (n: nat)
    ensures n < Pow256(|s|)
  {
    if s == [] then 0 else s[0] + 256 * UnLE(s[1..])
  }

  /** Reading back a stored integer gives it modulo the width of the field. */
  lemma {:induction false} UnLeOfLe(n: nat, k: nat)
    ensures UnLE(LE(n, k)) == n % Pow256(k)
    decreases k
  {
    if k > 0 {
      UnLeOfLe(n / 256, k - 1);
      var p := Pow256(k - 1);
      assert LE(n, k)[1..] == LE(n / 256, k - 1);
      ModSplit(n, p);
    }
  }

  lemma ModSplit(n: nat, p: nat)
    requires p > 0
    ensures n % 256 + 256 * ((n / 256) % p) == n % (256 * p)
  {
    var q, r := n / 256, n % 256;
    var m := q % p;
    assert q == (q / p) * p + m;
    assert n == (q / p) * (256 * p) + (r + 256 * m) by {
      assert n == 256 * q + r;
      assert 256 * ((q / p) * p) == (q / p) * (256 * p);
    }
    assert 0 <= r + 256 * m < 256 * p;
    DivModUnique(n, 256 * p, q / p, r + 256 * m);
  }

  lemma DivModUnique(n: int, d: int, q: int, r: int)
    requires d > 0 && n == q * d + r && 0 <= r < d
    ensures n / d == q && n % d == r
  {
    var k := n / d - q;
    assert n == (n / d) * d + n % d;
    assert k * d == (n / d) * d - q * d;
    if k >= 1 {
      Multiple(k, d);
      assert false;
    } else if k <= -1 {
      Multiple(-k, d);
      assert false;
    }
  }

  lemma Multiple(k: int, d: int)
    requires k >= 1 && d > 0
    ensures k * d >= d
    ensures (-k) * d == -(k * d)
  {
    assert k * d == (k - 1) * d + d;
  }

  /** Every byte string is the encoding of the integer it spells. */
  lemma {:induction false} LeOfUnLe(s: seq<Byte>)
    ensures LE(UnLE(s), |s|) == s
  {
    if s != [] {
      LeOfUnLe(s[1..]);
      var n := UnLE(s);
      DivModUnique(n, 256, UnLE(s[1..]), s[0]);
      assert s == [s[0]] + s[1..];
    }
  }

  /** Byte `i` of a stored integer. */
  lemma {:induction false} LeByte(n: nat, k: nat, i: nat)
    requires i < k
    ensures LE(n, k)[i] == (n / Pow256(i)) % 256
    decreases k
  {
    if i > 0 {
      LeByte(n / 256, k - 1, i - 1);
      DivDiv(n, Pow256(i - 1));
    }
  }

  lemma DivDiv(n: nat, p: nat)
    requires p > 0
    ensures n / 256 / p == n / (256 * p)
  {
    var q, r := n / 256, n % 256;
    var m := q % p;
    assert q == (q / p) * p + m && n == 256 * q + r;
    assert 256 * ((q / p) * p) == (q / p) * (256 * p);
    DivModUnique(n, 256 * p, q / p, 256 * m + r);
  }

  /** The `width` bytes of `s` at offset `at` are the unsigned integer `n`, least significant byte first. */
  ghost predicate FieldAt(s: seq<Byte>, at: nat, width: nat, n: nat) {
    at + width <= |s| && forall i :: 0 <= i < width ==> s[at + i] == (n / Pow256(i)) % 256
  }

  lemma FieldIs(s: seq<Byte>, at: nat, width: nat, n: nat)
    requires at + width <= |s| && s[at..at + width] == LE(n, width)
    ensures FieldAt(s, at, width, n)
  {
    hide LE, Pow256;
    forall i | 0 <= i < width ensures s[at + i] == (n / Pow256(i)) % 256 {
      LeByte(n, width, i);
      assert s[at..at + width][i] == s[at + i];
    }
  }

  lemma FieldRoundTrip(n: nat, k: nat)
    requires n < Pow256(k)
    ensures UnLE(LE(n, k)) == n
  {
    UnLeOfLe(n, k);
  }

  /** Read-back of the widths that occur in the protocol. */
  lemma Fields(n: nat)
    ensures n < 256 ==> UnLE(LE(n, 1)) == n
    ensures n < U16 ==> UnLE(LE(n, 2)) == n
    ensures n < U32 ==> UnLE(LE(n, 4)) == n
    ensures n < U64 ==> UnLE(LE(n, 8)) == n
  {
    Widths();
    if n < 256 { FieldRoundTrip(n, 1); }
    if n < U16 { FieldRoundTrip(n, 2); }
    if n < U32 { FieldRoundTrip(n, 4); }
    if n < U64 { FieldRoundTrip(n, 8); }
  }

  lemma Assoc<T>(a: seq<T>, b: seq<T>, c: seq<T>)
    ensures (a + b) + c == a + (b + c)
  {
  }

  /** Parts laid end to end. */
  function Flatten<T>(parts: seq<seq<T>>): seq<T> {
    if parts == [] then [] else parts[0] + Flatten(parts[1..])
  }

  lemma {:induction false} FlattenSnoc<T>(parts: seq<seq<T>>, last: seq<T>)
    ensures Flatten(parts + [last]) == Flatten(parts) + last
  {
    if parts == [] {
      assert parts + [last] == [last];
      assert Flatten([last]) == last + Flatten([]);
    } else {
      FlattenSnoc(parts[1..], last);
      assert (parts + [last])[1..] == parts[1..] + [last];
    }
  }
}
