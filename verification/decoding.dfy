/** The final decode of `identify`: the last eight interpolated flanks,
    reversed, become the bits of the identifier (the last flank is bit 0). */
module Decoding {
  import opened Signal

  function Pow2(n: nat): (p: nat)
    ensures p > 0
  {
    if n == 0 then 1 else 2 * Pow2(n - 1)
  }

  /** Bit `i` of a natural number. */
  function Bit(x: nat, i: nat): nat
  {
    if i == 0 then x % 2 else Bit(x / 2, i - 1)
  }

  /** `takeLast(n)`. */
  function TakeLast(s: seq<Flank>, n: nat): (r: seq<Flank>)
    ensures |r| == if |s| < n then |s| else n
    ensures forall i :: 0 <= i < |r| ==> r[i] == s[|s| - |r| + i]
  {
    if |s| < n then s else s[|s| - n..]
  }

  /** `reversed()`. */
  function Reverse(s: seq<Flank>): (r: seq<Flank>)
    ensures |r| == |s|
    ensures forall i :: 0 <= i < |r| ==> r[i] == s[|s| - 1 - i]
    decreases |s|
  {
    if s == [] then [] else Reverse(s[1..]) + [s[0]]
  }

  /** A High flank is a 1 bit, every other flank a 0 bit. */
  function BitOf(f: Flank): nat
  {
    if f.kind == High then 1 else 0
  }

  /** The number whose bit `i` is the bit of `bits[i]`. */
  function LittleEndian(bits: seq<Flank>): (v: nat)
    ensures v < Pow2(|bits|)
    decreases |bits|
  {
    if bits == [] then 0 else BitOf(bits[0]) + 2 * LittleEndian(bits[1..])
  }

  /** The identifier assigned on success. */
  function Identifier(interpolated: seq<Flank>): (id: nat)
    ensures id < 256
  {
    var bits := Reverse(TakeLast(interpolated, 8));
    assert Pow2(|bits|) <= Pow2(8) by { Pow2Monotone(|bits|, 8); }
    LittleEndian(bits)
  }

  lemma {:induction false} Pow2Monotone(a: nat, b: nat)
    requires a <= b
    ensures Pow2(a) <= Pow2(b)
    decreases b
  {
    if a < b {
      Pow2Monotone(a, b - 1);
    }
  }

  /** Bit `i` of the little-endian value is the bit of `bits[i]`, and 0
      beyond the last flank. */
  lemma {:induction false} LittleEndianBits(bits: seq<Flank>, i: nat)
    ensures Bit(LittleEndian(bits), i) == if i < |bits| then BitOf(bits[i]) else 0
    decreases |bits|
  {
    if bits == [] {
      ZeroBits(i);
    } else if i > 0 {
      var v := LittleEndian(bits);
      assert v / 2 == LittleEndian(bits[1..]);
      LittleEndianBits(bits[1..], i - 1);
    }
  }

  lemma {:induction false} ZeroBits(i: nat)
    ensures Bit(0, i) == 0
  {
    if i > 0 {
      ZeroBits(i - 1);
    }
  }

  /** Bit `i` of the identifier is 1 exactly when the `i`-th flank from the
      end of the interpolated list (the last flank being number 0) exists
      among the last eight and is High. */
  lemma IdentifierBits(interpolated: seq<Flank>, i: nat)
    ensures Bit(Identifier(interpolated), i) == 1 <==>
      i < 8 && i < |interpolated| && interpolated[|interpolated| - 1 - i].kind == High
  {
    var bits := Reverse(TakeLast(interpolated, 8));
    var v := Identifier(interpolated);
    assert v == LittleEndian(bits);
    LittleEndianBits(bits, i);
    assert Bit(v, i) == if i < |bits| then BitOf(bits[i]) else 0;
    if i < |bits| {
      assert bits[i] == interpolated[|interpolated| - 1 - i];
    }
  }

  /** Appending a flank sets the next higher bit. */
  lemma {:induction false} LittleEndianAppend(bits: seq<Flank>, f: Flank)
    ensures LittleEndian(bits + [f]) == LittleEndian(bits) + (if f.kind == High then Pow2(|bits|) else 0)
    decreases |bits|
  {
    if bits == [] {
      assert [f][1..] == [];
    } else {
      assert (bits + [f])[1..] == bits[1..] + [f];
      LittleEndianAppend(bits[1..], f);
    }
  }

  /** The source's loop: `forEachIndexed` over the reversed flanks, setting
      bit `index` with `1 shl index or id` for every High flank. The bit is
      still clear when it is set, so the `or` adds `2^index`. */
  method SetBits(bits: seq<Flank>) returns (id: nat)
    ensures id == LittleEndian(bits)
  {
    id := 0;
    var index := 0;
    while index < |bits|
      invariant 0 <= index <= |bits|
      invariant id == LittleEndian(bits[..index])
    {
      var prefix := bits[..index];
      var f := bits[index];
      LittleEndianAppend(prefix, f);
      assert bits[..index + 1] == prefix + [f];
      if f.kind == High {
        id := id + Pow2(index);
      }
      index := index + 1;
    }
    assert bits[..index] == bits;
  }

  /** The decode of `identify`, as the source computes it. */
  method DecodeIdentifier(interpolated: seq<Flank>) returns (id: nat)
    ensures id == Identifier(interpolated)
  {
    id := SetBits(Reverse(TakeLast(interpolated, 8)));
  }

  /** The payload `0b10110010` sent most significant bit first decodes to
      178. */
  lemma Decodes178()
    ensures Identifier([Flank(High, 0), Flank(Low, 1), Flank(High, 2), Flank(High, 3),
                        Flank(Low, 4), Flank(Low, 5), Flank(High, 6), Flank(Low, 7)]) == 178
  {
    var s := [Flank(High, 0), Flank(Low, 1), Flank(High, 2), Flank(High, 3),
              Flank(Low, 4), Flank(Low, 5), Flank(High, 6), Flank(Low, 7)];
    var bits := Reverse(TakeLast(s, 8));
    assert bits == [s[7], s[6], s[5], s[4], s[3], s[2], s[1], s[0]];
  }
}
