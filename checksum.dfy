/** The two-accumulator check of the serial protocol (esc32OutChecksum and
    esc32InChecksum): for each byte, A += byte, then B += A, both in
    `unsigned char` arithmetic, i.e. modulo 256 (not 255 as in Fletcher-16). */
module Checksum {
  import opened Bytes

  datatype Check = Check(a: Byte, b: Byte)

  const Zero := Check(0, 0)

  /** One accumulation step for byte `c`. */
  function Step(s: Check, c: Byte): (r: Check)
    ensures (r.a - s.a - c) % 0x100 == 0
    ensures (r.b - s.b - r.a) % 0x100 == 0
  {
    var a := (s.a + c) % 0x100;
    Check(a, (s.b + a) % 0x100)
  }

  /** The accumulators after feeding `bytes` in order, starting from `s`. */
  function Fold(s: Check, bytes: seq<Byte>): Check
    decreases |bytes|
  {
    if bytes == [] then s else Step(Fold(s, bytes[..|bytes| - 1]), bytes[|bytes| - 1])
  }

  /** The check bytes of `bytes` when both accumulators start at zero. */
  function Of(bytes: seq<Byte>): Check
  {
    Fold(Zero, bytes)
  }

  /** Sum of the bytes b0 + b1 + ... + bk. */
  function Sum(bytes: seq<Byte>): int
  {
    if bytes == [] then 0 else bytes[0] + Sum(bytes[1..])
  }

  /** Weighted sum (k+1)*b0 + k*b1 + ... + 1*bk. */
  function WeightedSum(bytes: seq<Byte>): int
  {
    if bytes == [] then 0 else |bytes| * bytes[0] + WeightedSum(bytes[1..])
  }

  lemma {:induction false} SumSnoc(bytes: seq<Byte>, c: Byte)
    ensures Sum(bytes + [c]) == Sum(bytes) + c
  {
    if bytes != [] {
      assert (bytes + [c])[1..] == bytes[1..] + [c];
      SumSnoc(bytes[1..], c);
    }
  }

  lemma {:induction false} WeightedSumSnoc(bytes: seq<Byte>, c: Byte)
    ensures WeightedSum(bytes + [c]) == WeightedSum(bytes) + Sum(bytes) + c
  {
    if bytes != [] {
      assert (bytes + [c])[1..] == bytes[1..] + [c];
      WeightedSumSnoc(bytes[1..], c);
    }
  }

  lemma {:induction false} SumAppend(x: seq<Byte>, y: seq<Byte>)
    ensures Sum(x + y) == Sum(x) + Sum(y)
  {
    if x == [] {
      assert x + y == y;
    } else {
      assert (x + y)[1..] == x[1..] + y;
      SumAppend(x[1..], y);
    }
  }

  lemma ModAddLeft(x: int, y: int)
    ensures (x % 0x100 + y) % 0x100 == (x + y) % 0x100
  {
    var q := x / 0x100;
    assert x == 0x100 * q + x % 0x100;
    assert x + y == 0x100 * q + (x % 0x100 + y);
  }

  /** A step from accumulators given modulo 256. */
  lemma StepMod(sum: int, weighted: int, c: Byte)
    ensures Step(Check(sum % 0x100, weighted % 0x100), c) ==
      Check((sum + c) % 0x100, (weighted + sum + c) % 0x100)
  {
    ModAddLeft(sum, c);
    var a := (sum + c) % 0x100;
    ModAddLeft(weighted, a);
    ModAddLeft(sum + c, weighted);
  }

  /** Closed form: starting from zero, A is the byte sum and B the weighted
      sum, each modulo 256. */
  lemma {:induction false} ClosedForm(bytes: seq<Byte>)
    ensures Of(bytes) == Check(Sum(bytes) % 0x100, WeightedSum(bytes) % 0x100)
    decreases |bytes|
  {
    if bytes != [] {
      var init, c := bytes[..|bytes| - 1], bytes[|bytes| - 1];
      assert bytes == init + [c];
      ClosedForm(init);
      SumSnoc(init, c);
      WeightedSumSnoc(init, c);
      StepMod(Sum(init), WeightedSum(init), c);
    }
  }

  /** Feeding `x` then `y` is feeding `x + y`. */
  lemma {:induction false} FoldAppend(s: Check, x: seq<Byte>, y: seq<Byte>)
    ensures Fold(s, x + y) == Fold(Fold(s, x), y)
    decreases |y|
  {
    if y == [] {
      assert x + y == x;
    } else {
      var init, c := y[..|y| - 1], y[|y| - 1];
      assert x + y == (x + init) + [c];
      assert (x + y)[..|x + y| - 1] == x + init;
      FoldAppend(s, x, init);
    }
  }

  lemma FoldSnoc(s: Check, x: seq<Byte>, c: Byte)
    ensures Fold(s, x + [c]) == Step(Fold(s, x), c)
  {
    assert (x + [c])[..|x|] == x;
  }

  /** The sum split around byte `k`. */
  lemma SumAround(x: seq<Byte>, k: nat)
    requires k < |x|
    ensures Sum(x) == Sum(x[..k]) + x[k] + Sum(x[k + 1..])
  {
    assert x == (x[..k] + [x[k]]) + x[k + 1..];
    SumAppend(x[..k] + [x[k]], x[k + 1..]);
    SumAppend(x[..k], [x[k]]);
    assert Sum([x[k]]) == x[k] by { assert [x[k]][1..] == []; }
  }

  /** Integers less than 256 apart but not equal differ modulo 256. */
  lemma ModDiffers(u: int, v: int)
    requires u != v && -0x100 < u - v < 0x100
    ensures u % 0x100 != v % 0x100
  {
    var qu, qv := u / 0x100, v / 0x100;
    assert u == 0x100 * qu + u % 0x100;
    assert v == 0x100 * qv + v % 0x100;
  }

  /** Two equal-length inputs that differ in exactly one byte have different
      A accumulators: every single-byte corruption is detected. */
  lemma SingleByteChangeDetected(x: seq<Byte>, y: seq<Byte>, k: nat)
    requires |x| == |y| && k < |x|
    requires x[k] != y[k]
    requires forall i :: 0 <= i < |x| && i != k ==> x[i] == y[i]
    ensures Of(x).a != Of(y).a
  {
    assert x[..k] == y[..k];
    assert x[k + 1..] == y[k + 1..];
    SumAround(x, k);
    SumAround(y, k);
    ModDiffers(Sum(x), Sum(y));
    ClosedForm(x);
    ClosedForm(y);
  }
}
