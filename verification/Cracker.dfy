/** The hash-cracking workload: numbering of fixed-length strings, and the search through a range of
    numbers. The hash itself is a parameter. */
module Cracker {
  import opened Bytes
  import opened Primes

  const CHARSET: string := "abcdefghijklmnopqrstuvwxyz0123456789"
  const BASE := 36
  const MAX_LEN := 6

  /** The position of a character in the charset; `BASE` if it is not there. */
  function Digit(c: char): (d: nat)
    ensures d <= BASE
  {
    if 'a' <= c <= 'z' then c as int - 'a' as int
    else if '0' <= c <= '9' then 26 + (c as int - '0' as int)
    else BASE
  }

  function Letter(d: nat): char
    requires d < BASE
  {
    if d < 26 then ('a' as int + d) as char else ('0' as int + (d - 26)) as char
  }

  lemma CharsetLetters()
    ensures |CHARSET| == BASE
    ensures forall d :: 0 <= d < BASE ==> CHARSET[d] == Letter(d)
  {
    assert CHARSET == [
      Letter(0), Letter(1), Letter(2), Letter(3), Letter(4), Letter(5), Letter(6), Letter(7), Letter(8),
      Letter(9), Letter(10), Letter(11), Letter(12), Letter(13), Letter(14), Letter(15), Letter(16),
      Letter(17), Letter(18), Letter(19), Letter(20), Letter(21), Letter(22), Letter(23), Letter(24),
      Letter(25), Letter(26), Letter(27), Letter(28), Letter(29), Letter(30), Letter(31), Letter(32),
      Letter(33), Letter(34), Letter(35)];
  }

  function Pow(k: nat): (p: nat)
    ensures p > 0
  {
    if k == 0 then 1 else BASE * Pow(k - 1)
  }

  /** The `length` low-order base-36 digits of `index`, most significant first. */
  function Numeral(index: nat, length: nat): (s: string)
    ensures |s| == length
    decreases length
  {
    if length == 0 then "" else Numeral(index / BASE, length - 1) + [Letter(index % BASE)]
  }

  /** `index_to_string`: fills `out` from the end towards the front. */
  method IndexToString(index: nat, out: array<char>, length: nat)
    requires length < out.Length
    modifies out
    ensures out[..length] == Numeral(index, length) && out[length] == '\0'
    ensures out[length + 1..] == old(out[length + 1..])
    ensures forall j :: 0 <= j < length ==>
              out[length - 1 - j] == "abcdefghijklmnopqrstuvwxyz0123456789"[(index / Pow(j)) % 36]
  {
    CharsetLetters();
    var rest: nat := index;
    var i := length;
    while i > 0
      invariant 0 <= i <= length
      invariant Numeral(index, length) == Numeral(rest, i) + out[i..length]
      invariant out[length..] == old(out[length..])
    {
      i := i - 1;
      ghost var tail := out[i + 1..length];
      out[i] := CHARSET[rest % BASE];
      assert out[i..length] == [Letter(rest % BASE)] + tail;
      Assoc(Numeral(rest / BASE, i), [Letter(rest % BASE)], tail);
      rest := rest / BASE;
    }
    assert Numeral(rest, 0) + out[..length] == out[..length];
    out[length] := '\0';
    forall j | 0 <= j < length ensures out[length - 1 - j] == CHARSET[(index / Pow(j)) % 36] {
      NumeralDigit(index, length, j);
      assert out[length - 1 - j] == out[..length][length - 1 - j];
    }
  }

  /** The character at each position, counted from the end, without recursion over the string. */
  lemma {:induction false} NumeralDigit(index: nat, length: nat, j: nat)
    requires j < length
    ensures Numeral(index, length)[length - 1 - j] == "abcdefghijklmnopqrstuvwxyz0123456789"[(index / Pow(j)) % 36]
    decreases length
  {
    CharsetLetters();
    if j > 0 {
      NumeralDigit(index / BASE, length - 1, j - 1);
      DivTwice(index, Pow(j - 1));
    }
  }

  lemma DivTwice(n: nat, p: nat)
    requires p > 0
    ensures n / BASE / p == n / (BASE * p)
  {
    var q, r := n / BASE, n % BASE;
    var k, m := q / p, q % p;
    assert q == k * p + m;
    Distribute(k, p, m);
    DivModUnique(n, BASE * p, k, BASE * m + r);
  }

  // ----- Numerals are in bijection with numbers below 36^length

  predicate InCharset(s: string) {
    forall c :: c in s ==> Digit(c) < BASE
  }

  function Value(s: string): nat
    decreases |s|
  {
    if s == "" then 0 else BASE * Value(s[..|s| - 1]) + Digit(s[|s| - 1])
  }

  lemma LetterDigit(d: nat)
    requires d < BASE
    ensures Digit(Letter(d)) == d
  {
  }

  lemma DigitLetter(c: char)
    requires Digit(c) < BASE
    ensures Letter(Digit(c)) == c
  {
  }

  /** Reading a numeral back gives the number modulo 36^length. */
  lemma {:induction false} ValueOfNumeral(index: nat, length: nat)
    ensures InCharset(Numeral(index, length))
    ensures Value(Numeral(index, length)) == index % Pow(length)
    decreases length
  {
    if length > 0 {
      var q, d := index / BASE, index % BASE;
      ValueOfNumeral(q, length - 1);
      LetterDigit(d);
      var s := Numeral(index, length);
      assert s[..length - 1] == Numeral(q, length - 1);
      LastDigit(index, Pow(length - 1));
    }
  }

  lemma LastDigit(n: nat, p: nat)
    requires p > 0
    ensures BASE * ((n / BASE) % p) + n % BASE == n % (BASE * p)
  {
    var q, r := n / BASE, n % BASE;
    var k, m := q / p, q % p;
    assert q == k * p + m;
    Distribute(k, p, m);
    assert n == k * (BASE * p) + (BASE * m + r);
    DivModUnique(n, BASE * p, k, BASE * m + r);
  }

  lemma Distribute(k: int, p: int, m: int)
    ensures BASE * (k * p + m) == k * (BASE * p) + BASE * m
  {
  }

  /** Every charset string is the numeral of its value. */
  lemma {:induction false} NumeralOfValue(s: string)
    requires InCharset(s)
    ensures Value(s) < Pow(|s|) && Numeral(Value(s), |s|) == s
    decreases |s|
  {
    if s != "" {
      var front, c := s[..|s| - 1], s[|s| - 1];
      assert c in s && forall x :: x in front ==> x in s;
      NumeralOfValue(front);
      DigitLetter(c);
      DivModUnique(Value(s), BASE, Value(front), Digit(c));
      assert s == front + [c];
    }
  }

  /** Two indices give the same string exactly when they agree modulo 36^length. */
  lemma SameNumeral(i: nat, j: nat, length: nat)
    ensures Numeral(i, length) == Numeral(j, length) <==> i % Pow(length) == j % Pow(length)
  {
    ValueOfNumeral(i, length);
    ValueOfNumeral(j, length);
    NumeralOfValue(Numeral(i, length));
    NumeralOfValue(Numeral(j, length));
  }

  // ----- The search

  type Hash = string -> seq<Byte>

  predicate Matches(h: Hash, target: seq<Byte>, index: nat) {
    h(Numeral(index, MAX_LEN)) == target
  }

  ghost predicate FirstMatch(h: Hash, target: seq<Byte>, start: nat, end: nat, i: nat) {
    start <= i < end && Matches(h, target, i) && forall j :: start <= j < i ==> !Matches(h, target, j)
  }

  /** `crack_thread`: tries the numbers from `start` up to, but not including, `end`. It returns the
      first candidate that matches, or else the last one tried; with nothing to try it returns
      whatever the candidate buffer held. */
  method CrackThread(h: Hash, target: seq<Byte>, start: nat, end: nat, candidate: array<char>)
    returns (found: string)
    requires end < U64 && candidate.Length == MAX_LEN + 1
    modifies candidate
    ensures start >= end ==> found == old(candidate[..MAX_LEN])
    ensures start < end && (forall i :: start <= i < end ==> !Matches(h, target, i)) ==>
              found == Numeral(end - 1, MAX_LEN)
    ensures forall i :: FirstMatch(h, target, start, end, i) ==> found == Numeral(i, MAX_LEN)
    ensures start < end ==> (h(found) == target <==> exists i :: start <= i < end && Matches(h, target, i))
  {
    hide Numeral;
    var idx := start;
    while idx < end
      invariant start <= idx && (if start < end then idx <= end else idx == start)
      invariant forall j :: start <= j < idx ==> !Matches(h, target, j)
      invariant candidate[..MAX_LEN] == if idx == start then old(candidate[..MAX_LEN]) else Numeral(idx - 1, MAX_LEN)
    {
      IndexToString(idx, candidate, MAX_LEN);
      var hash := h(candidate[..MAX_LEN]);
      if hash == target {
        assert Matches(h, target, idx);
        break;
      }
      idx := idx + 1;
    }
    found := candidate[..MAX_LEN];
    assert start < end <= idx ==> !Matches(h, target, end - 1);
  }

  /** Every preimage among the length-6 charset strings matches at its value. So a search over any range with
      that number in it finds a preimage (`CrackThread`). */
  lemma SearchIsComplete(h: Hash, target: seq<Byte>, s: string)
    requires InCharset(s) && |s| == MAX_LEN && h(s) == target
    ensures Value(s) < Pow(MAX_LEN) && Matches(h, target, Value(s))
  {
    NumeralOfValue(s);
  }

  // ----- How the client hands out ranges

  /** A thread that is handed the closed range of chunk `k` treats its end as exclusive. */
  predicate Tries(first: int, last: int, total: int, k: int, x: int)
    requires total > 0
  {
    0 <= k < total && Start(first, last, total, k) <= x < End(first, last, total, k)
  }

  /** So the threads together do not try every index: an index of the range is tried by some thread if
      and only if it is not the last one of a chunk. */
  lemma ChunkEndsAreSkipped(first: int, last: int, total: int, x: int)
    requires 1 <= first <= last && total > 0 && first <= x <= last
    ensures (exists k :: Tries(first, last, total, k, x))
       <==> (forall k :: 0 <= k < total ==> x != End(first, last, total, k))
  {
    hide Start, End;
    Partition(first, last, total, x);
    var m :| InRange(first, last, total, m, x);
    forall k | 0 <= k < total && x == End(first, last, total, k) ensures k == m {
      EndsInside(first, last, total, k);
      assert InRange(first, last, total, k, x);
    }
    forall k | Tries(first, last, total, k, x) ensures k == m {
      assert InRange(first, last, total, k, x);
    }
    if x != End(first, last, total, m) {
      assert Tries(first, last, total, m, x);
    }
  }

  lemma EndsInside(first: int, last: int, total: int, k: int)
    requires 1 <= first <= last && 0 <= k < total && End(first, last, total, k) >= first
    ensures Start(first, last, total, k) <= End(first, last, total, k)
  {
    Tiles(first, last, total, k);
    if RangeSize(first, last, total) == 0 {
      assert Start(first, last, total, k) == first;
    }
  }

  /** In particular the last index of all is never tried. */
  lemma LastIndexIsSkipped(first: int, last: int, total: int)
    requires 1 <= first <= last && total > 0
    ensures !exists k :: Tries(first, last, total, k, last)
  {
    ChunkEndsAreSkipped(first, last, total, last);
    assert last == End(first, last, total, total - 1);
  }
}
