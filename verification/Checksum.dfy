/** The rotate-xor checksum of shared objects. */
module Checksum {
  import opened Bytes

  type Word = bv64

  function Rotate1(x: Word): Word {
    (x << 1) | (x >> 63)
  }

  function Xor(x: Word, y: Word): Word {
    x ^ y
  }

  function Widen(b: bv8): Word {
    b as Word
  }

  /** One byte into the running sum. */
  function Absorb(sum: Word, b: bv8): Word {
    Xor(Rotate1(sum), Widen(b))
  }

  /** The two assignments of the inner loop. */
  method AbsorbByte(sum: Word, b: bv8) returns (next: Word)
    ensures next == Absorb(sum, b)
  {
    next := (sum << 1) | (sum >> 63);
    next := next ^ (b as Word);
  }

  function Fold(sum: Word, bytes: seq<bv8>): Word
    decreases |bytes|
  {
    if bytes == [] then sum else Absorb(Fold(sum, bytes[..|bytes| - 1]), bytes[|bytes| - 1])
  }

  const BUFFER := 4096

  /** `dic_checksum`. `Missing` is a file that cannot be opened; otherwise the file arrives in reads of
      any non-zero size up to the buffer's. The sum depends on the bytes only, not on the reads. */
  method Compute(file: File) returns (sum: Word)
    requires file.Opened? ==> forall r :: r in file.parts ==> 0 < |r| <= BUFFER
    ensures sum == if file.Missing? then 0 else Fold(0, Flatten(file.parts))
  {
    hide Absorb, Fold, Flatten;
    if file.Missing? { return 0; }
    Nothing();
    sum := 0;
    var buf := new bv8[BUFFER];
    var k := 0;
    assert file.parts[..0] == [];
    while k < |file.parts|
      invariant 0 <= k <= |file.parts|
      invariant sum == Fold(0, Flatten(file.parts[..k]))
    {
      var r := file.parts[k];
      assert r in file.parts;
      OnePart(file.parts, k);
      Fread(buf, r);
      ghost var before := sum;
      var i := 0;
      NoByte(before, r);
      while i < |r|
        invariant 0 <= i <= |r| && buf[..|r|] == r
        invariant sum == Fold(before, r[..i])
      {
        OneByte(before, r, i);
        assert buf[i] == buf[..|r|][i] == r[i];
        sum := AbsorbByte(sum, buf[i]);
        i := i + 1;
      }
      assert r[..i] == r;
      FoldAppend(0, Flatten(file.parts[..k]), r);
      k := k + 1;
    }
    assert file.parts[..k] == file.parts;
  }

  lemma Nothing()
    ensures Fold(0, Flatten([])) == 0
  {
  }

  lemma OnePart(parts: seq<seq<bv8>>, k: nat)
    requires k < |parts|
    ensures Flatten(parts[..k + 1]) == Flatten(parts[..k]) + parts[k]
  {
    FlattenSnoc(parts[..k], parts[k]);
    assert parts[..k + 1] == parts[..k] + [parts[k]];
  }

  lemma NoByte(sum: Word, r: seq<bv8>)
    ensures Fold(sum, r[..0]) == sum
  {
  }

  lemma OneByte(sum: Word, r: seq<bv8>, i: nat)
    requires i < |r|
    ensures Fold(sum, r[..i + 1]) == Absorb(Fold(sum, r[..i]), r[i])
  {
    hide Absorb;
    assert r[..i + 1][..i] == r[..i];
  }

  datatype File = Missing | Opened(parts: seq<seq<bv8>>)

  /** `fread` into the reused buffer. */
  method Fread(buf: array<bv8>, r: seq<bv8>)
    requires |r| <= buf.Length
    modifies buf
    ensures buf[..|r|] == r
  {
    var i := 0;
    while i < |r|
      invariant 0 <= i <= |r| && buf[..i] == r[..i]
    {
      buf[i] := r[i];
      i := i + 1;
    }
  }

  // ----- What it computes

  /** `x` rotated left by `k` bits. */
  function Rotate(x: Word, k: nat): Word {
    if k == 0 then x else Rotate1(Rotate(x, k - 1))
  }

  /** The xor of every byte, rotated left by its distance from the end modulo the word size. */
  function Spread(bytes: seq<bv8>): Word
    decreases |bytes|
  {
    if bytes == [] then 0
    else Xor(Rotate(Widen(bytes[0]), (|bytes| - 1) % 64), Spread(bytes[1..]))
  }

  lemma Rotate1Xor(x: Word, y: Word)
    ensures Rotate1(Xor(x, y)) == Xor(Rotate1(x), Rotate1(y))
  {
  }

  lemma Rotate1Injective(x: Word, y: Word)
    requires Rotate1(x) == Rotate1(y)
    ensures x == y
  {
  }

  lemma {:induction false} RotateXor(x: Word, y: Word, k: nat)
    ensures Rotate(Xor(x, y), k) == Xor(Rotate(x, k), Rotate(y, k))
  {
    hide Xor, Rotate1;
    if k > 0 {
      RotateXor(x, y, k - 1);
      Rotate1Xor(Rotate(x, k - 1), Rotate(y, k - 1));
    }
  }

  lemma {:induction false} RotateInjective(x: Word, y: Word, k: nat)
    requires Rotate(x, k) == Rotate(y, k)
    ensures x == y
  {
    hide Rotate1;
    if k > 0 {
      Rotate1Injective(Rotate(x, k - 1), Rotate(y, k - 1));
      RotateInjective(x, y, k - 1);
    }
  }

  lemma {:induction false} RotateAdd(x: Word, a: nat, b: nat)
    ensures Rotate(Rotate(x, a), b) == Rotate(x, a + b)
    decreases b
  {
    hide Rotate1;
    if b > 0 {
      RotateAdd(x, a, b - 1);
    }
  }

  lemma Turn2(x: Word)
    ensures Rotate(x, 2) == (x << 2) | (x >> 62)
  {
    assert Rotate(x, 1) == Rotate1(Rotate(x, 0));
  }

  lemma Turn4(x: Word)
    ensures Rotate(x, 4) == (x << 4) | (x >> 60)
  {
    hide Rotate;
    Turn2(x);
    Turn2(Rotate(x, 2));
    RotateAdd(x, 2, 2);
  }

  lemma Turn8(x: Word)
    ensures Rotate(x, 8) == (x << 8) | (x >> 56)
  {
    hide Rotate;
    Turn4(x);
    Turn4(Rotate(x, 4));
    RotateAdd(x, 4, 4);
  }

  lemma Turn16(x: Word)
    ensures Rotate(x, 16) == (x << 16) | (x >> 48)
  {
    hide Rotate;
    Turn8(x);
    Turn8(Rotate(x, 8));
    RotateAdd(x, 8, 8);
  }

  lemma Turn32(x: Word)
    ensures Rotate(x, 32) == (x << 32) | (x >> 32)
  {
    hide Rotate;
    Turn16(x);
    Turn16(Rotate(x, 16));
    RotateAdd(x, 16, 16);
  }

  /** A full turn is the identity. */
  lemma FullTurn(x: Word)
    ensures Rotate(x, 64) == x
  {
    hide Rotate;
    Turn32(x);
    Turn32(Rotate(x, 32));
    RotateAdd(x, 32, 32);
  }

  lemma {:induction false} RotateMod(x: Word, k: nat)
    ensures Rotate(x, k) == Rotate(x, k % 64)
    decreases k
  {
    hide Rotate;
    if k >= 64 {
      RotateAdd(x, 64, k - 64);
      FullTurn(x);
      RotateMod(x, k - 64);
    }
  }

  lemma {:induction false} FoldAppend(sum: Word, a: seq<bv8>, b: seq<bv8>)
    ensures Fold(sum, a + b) == Fold(Fold(sum, a), b)
    decreases |b|
  {
    hide Absorb;
    if b == [] {
      assert a + b == a;
    } else {
      var front := b[..|b| - 1];
      FoldAppend(sum, a, front);
      assert (a + b)[..|a + b| - 1] == a + front;
    }
  }

  lemma RotateNone(x: Word)
    ensures Rotate(x, 0) == x && Xor(x, 0) == x && Xor(0, x) == x
  {
  }

  lemma RotateOnce(x: Word)
    ensures Rotate(x, 1) == Rotate1(x)
  {
  }

  /** In the arithmetic of 64-bit words: twice the word, plus the bit that is carried out of it. */
  lemma RotateDoubles(x: Word)
    ensures Rotate(x, 1) == 2 * x + x / 0x8000_0000_0000_0000
    ensures x / 0x8000_0000_0000_0000 == if x < 0x8000_0000_0000_0000 then 0 else 1
  {
    RotateOnce(x);
  }

  /** So that is what a byte is added to, bit by bit. */
  lemma AbsorbDoubles(sum: Word, b: bv8)
    ensures Absorb(sum, b) == (2 * sum + sum / 0x8000_0000_0000_0000) ^ (b as Word)
  {
    hide Rotate, Rotate1;
    RotateOnce(sum);
    RotateDoubles(sum);
  }

  lemma WidenValue(b: bv8)
    ensures Widen(b) as int == b as int
  {
  }

  lemma AbsorbFirst(b: bv8)
    ensures Absorb(0, b) == Widen(b)
  {
  }

  /** The checksum of a single byte is that byte as a number. */
  lemma FirstByte(b: bv8)
    ensures Fold(0, [b]) as int == b as int
  {
    hide Absorb, Widen;
    assert [b][..0] == [] && Fold(0, []) == 0;
    AbsorbFirst(b);
    WidenValue(b);
  }

  lemma XorAssoc(a: Word, b: Word, c: Word)
    ensures Xor(Xor(a, b), c) == Xor(a, Xor(b, c))
  {
  }

  /** Closed form: the initial sum rotated by the length, xor every byte rotated left by its distance
      from the end modulo 64. */
  lemma {:induction false} FoldIsSpread(sum: Word, bytes: seq<bv8>)
    ensures Fold(sum, bytes) == Xor(Rotate(sum, |bytes|), Spread(bytes))
    decreases |bytes|
  {
    hide Rotate1, Rotate, Xor, Widen;
    if bytes == [] {
      RotateNone(sum);
    } else {
      var b, rest, n := bytes[0], bytes[1..], |bytes|;
      var w, next := Widen(b), Absorb(sum, b);
      assert Fold(sum, bytes) == Fold(next, rest) by {
        FoldAppend(sum, [b], rest);
        assert [b] + rest == bytes;
        assert Fold(sum, [b]) == next;
      }
      FoldIsSpread(next, rest);
      RotateXor(Rotate1(sum), w, n - 1);
      RotateOnce(sum);
      RotateAdd(sum, 1, n - 1);
      RotateMod(w, n - 1);
      XorAssoc(Rotate(sum, n), Rotate(w, n - 1), Spread(rest));
    }
  }

  /** The checksum of a file. */
  lemma ChecksumIsSpread(bytes: seq<bv8>)
    ensures Fold(0, bytes) == Spread(bytes)
  {
    hide Fold, Spread;
    FoldIsSpread(0, bytes);
    RotateZero(|bytes|);
  }

  lemma {:induction false} RotateZero(k: nat)
    ensures Rotate(0, k) == 0
  {
    if k > 0 {
      RotateZero(k - 1);
    }
  }

  lemma AbsorbInjective(s: Word, t: Word, b: bv8)
    requires Absorb(s, b) == Absorb(t, b)
    ensures s == t
  {
    Rotate1Injective(s, t);
  }

  lemma {:induction false} FoldInjective(s: Word, t: Word, bytes: seq<bv8>)
    requires Fold(s, bytes) == Fold(t, bytes)
    ensures s == t
    decreases |bytes|
  {
    hide Absorb;
    if bytes != [] {
      var front := bytes[..|bytes| - 1];
      AbsorbInjective(Fold(s, front), Fold(t, front), bytes[|bytes| - 1]);
      FoldInjective(s, t, front);
    }
  }

  lemma BytesDiffer(s: Word, x: bv8, y: bv8)
    requires Absorb(s, x) == Absorb(s, y)
    ensures x == y
  {
  }

  /** Files of equal length that differ in exactly one byte have different checksums. */
  lemma OneByteMatters(a: seq<bv8>, b: seq<bv8>, k: nat)
    requires |a| == |b| && k < |a| && a[k] != b[k]
    requires forall i :: 0 <= i < |a| && i != k ==> a[i] == b[i]
    ensures Fold(0, a) != Fold(0, b)
  {
    hide Absorb;
    var front, back := a[..k], a[k + 1..];
    var s := Fold(0, front);
    assert a == front + [a[k]] + back && b == front + [b[k]] + back;
    FoldAppend(0, front + [a[k]], back);
    FoldAppend(0, front + [b[k]], back);
    FoldAppend(0, front, [a[k]]);
    FoldAppend(0, front, [b[k]]);
    assert Fold(s, [a[k]]) == Absorb(s, a[k]) && Fold(s, [b[k]]) == Absorb(s, b[k]);
    if Fold(0, a) == Fold(0, b) {
      FoldInjective(Absorb(s, a[k]), Absorb(s, b[k]), back);
      BytesDiffer(s, a[k], b[k]);
    }
  }
}
