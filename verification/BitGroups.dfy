/**
 `convertBits` (src/mrc20.js): regrouping digits of one width into digits of another with a
 32-bit accumulator that wraps around.
 */
module BitGroups {
  import opened JsBits

  // ---------- the reference: one string of bits, cut anew ----------

  function BitString(data: seq<nat>, width: nat): seq<bool> {
    if data == [] then [] else BitString(data[..|data| - 1], width) + Bits(data[|data| - 1], width)
  }

  /** The digits of width `to` of a bit string; a last short group is padded with zeros or dropped. */
  function Regroup(b: seq<bool>, to: nat, pad: bool): seq<nat>
    requires to > 0
  {
    if |b| >= to then [Value(b[..to])] + Regroup(b[to..], to, pad)
    else if pad && b != [] then [Value(b + Zeros(to - |b|))]
    else []
  }

  /** A length made of whole groups. */
  predicate Multiple(n: nat, to: nat)
    requires to > 0
  {
    n == 0 || (n >= to && Multiple(n - to, to))
  }

  lemma BitStringSnoc(data: seq<nat>, v: nat, width: nat)
    ensures BitString(data + [v], width) == BitString(data, width) + Bits(v, width)
  {
    assert (data + [v])[..|data + [v]| - 1] == data;
  }

  lemma BitsAssoc(a: seq<bool>, b: seq<bool>, c: seq<bool>)
    ensures a + b + c == a + (b + c)
  {
  }

  lemma {:induction false} BitStringCons(v: nat, data: seq<nat>, width: nat)
    ensures BitString([v] + data, width) == Bits(v, width) + BitString(data, width)
  {
    if data == [] {
      assert [v] + data == [] + [v];
      BitStringSnoc([], v, width);
    } else {
      var front, last := data[..|data| - 1], data[|data| - 1];
      assert [v] + data == ([v] + front) + [last];
      BitStringSnoc([v] + front, last, width);
      BitStringCons(v, front, width);
      BitsAssoc(Bits(v, width), BitString(front, width), Bits(last, width));
    }
  }

  /** Cutting a bit string after whole groups cuts the digits there. */
  lemma {:induction false} RegroupConcat(x: seq<bool>, y: seq<bool>, to: nat, pad: bool)
    requires to > 0 && Multiple(|x|, to)
    ensures Regroup(x + y, to, pad) == Regroup(x, to, pad) + Regroup(y, to, pad)
  {
    if x == [] {
      assert x + y == y;
    } else {
      assert (x + y)[..to] == x[..to] && (x + y)[to..] == x[to..] + y;
      RegroupConcat(x[to..], y, to, pad);
    }
  }

  lemma {:induction false} WholeGroupsIgnorePad(x: seq<bool>, to: nat)
    requires to > 0 && Multiple(|x|, to)
    ensures Regroup(x, to, true) == Regroup(x, to, false)
  {
    if x != [] {
      WholeGroupsIgnorePad(x[to..], to);
    }
  }

  /** Every digit of a regrouping fits its width. */
  lemma {:induction false} RegroupBound(b: seq<bool>, to: nat, pad: bool)
    requires to > 0
    ensures forall i :: 0 <= i < |Regroup(b, to, pad)| ==> Regroup(b, to, pad)[i] < Pow2(to)
    decreases |b|
  {
    if |b| >= to {
      ValueBound(b[..to]);
      RegroupBound(b[to..], to, pad);
    } else {
      ValueBound(b + Zeros(to - |b|));
    }
  }

  // ---------- the loop ----------

  /** The padded last digit, read from the low end of the accumulator. */
  lemma PaddedDigit(x: seq<bool>, t: seq<bool>, to: nat)
    requires |t| < to
    ensures Value(x + t) * Pow2(to - |t|) % Pow2(to) == Value(t + Zeros(to - |t|))
  {
    var z := Zeros(to - |t|);
    ValueOfZeros(to - |t|);
    ValueConcat(x + t, z);
    ValueConcat(t, z);
    ValueConcat(x, t + z);
    assert x + (t + z) == x + t + z;
    ValueBound(t + z);
    DivMod(Value(x), Pow2(to), Value(t + z));
  }

  lemma GroupDigit(x: seq<bool>, g: seq<bool>, t: seq<bool>)
    requires 0 < |g| <= 31 && |t| + |g| <= 32
    ensures And(Sar(ToInt32(Value(x + g + t)), |t|), Pow2(|g|) - 1) == Value(g)
  {
    ValueConcat(x + g, t);
    ValueConcat(x, g);
    ValueBound(t);
    ValueBound(g);
    DigitOfWrapped(Value(x), Value(g), Value(t), |t|, |g|);
  }

  /** One turn of the inner loop: x is cut already, and the first `to` bits of p are cut next. */
  lemma NextDigit(x: seq<bool>, p: seq<bool>, to: nat, acc: int, bits: nat, maxv: int)
    requires 0 < to <= 31 && Multiple(|x|, to) && to <= |p| <= 32
    requires acc == ToInt32(Value(x + p)) && bits == |p| - to && maxv == Pow2(to) - 1
    ensures x + p == x + p[..to] + p[to..] && Multiple(|x + p[..to]|, to)
    ensures And(Sar(acc, bits), maxv) >= 0
    ensures Regroup(x + p[..to], to, false) == Regroup(x, to, false) + [And(Sar(acc, bits), maxv)]
  {
    var g, t := p[..to], p[to..];
    assert x + p == x + g + t;
    GroupDigit(x, g, t);
    RegroupConcat(x, g, to, false);
    assert g[..to] == g;
  }

  /** The padded digit after the loop. */
  lemma LastDigit(x: seq<bool>, p: seq<bool>, to: nat, acc: int, bits: nat, maxv: int)
    requires 0 < to <= 31 && Multiple(|x|, to) && 0 < |p| < to
    requires acc == ToInt32(Value(x + p)) && bits == |p| && maxv == Pow2(to) - 1
    ensures And(Shl(acc, to - bits), maxv) >= 0
    ensures Regroup(x + p, to, true) == Regroup(x, to, false) + [And(Shl(acc, to - bits), maxv)]
  {
    PaddedDigit(x, p, to);
    ShlWrapped(Value(x + p), to - |p|);
    LowBitsOfWrapped(Value(x + p) * Pow2(to - |p|), to);
    RegroupConcat(x, p, to, true);
    WholeGroupsIgnorePad(x, to);
  }

  lemma LowBitsOfWrapped(x: int, to: nat)
    requires to <= 31
    ensures And(ToInt32(x), Pow2(to) - 1) == x % Pow2(to)
  {
    var j := ToInt32IsCongruent(x);
    WordSplits(0, to);
    SameDigit(x, ToInt32(x), j, 1, Pow2(to), Pow2(32 - to));
    AndLow(ToInt32(x), to);
  }

  lemma ShiftInBits(w: seq<bool>, from: nat, v: nat)
    requires from <= 32 && v < Pow2(from)
    ensures Or(Shl(ToInt32(Value(w)), from), v) == ToInt32(Value(w + Bits(v, from)))
  {
    ValueConcat(w, Bits(v, from));
    ValueOfBits(v, from);
    ShiftInWrapped(Value(w), from, v);
  }

  lemma ShiftInDigit(x: seq<bool>, p: seq<bool>, from: nat, v: nat)
    requires from <= 32 && v < Pow2(from)
    ensures x + p + Bits(v, from) == x + (p + Bits(v, from))
    ensures Or(Shl(ToInt32(Value(x + p)), from), v) == ToInt32(Value(x + (p + Bits(v, from))))
  {
    assert x + p + Bits(v, from) == x + (p + Bits(v, from));
    ShiftInBits(x + p, from, v);
  }

  /**
   `convertBits(data, from, to, pad)`. The accumulator wraps at 32 bits, and still the digits are
   those of the whole bit string cut anew.
   */
  method ConvertBits(data: seq<nat>, from: nat, to: nat, pad: bool) returns (ret: seq<nat>)
    requires 0 < from && 0 < to && from + to <= 32
    requires forall i :: 0 <= i < |data| ==> data[i] < Pow2(from)
    ensures ret == Regroup(BitString(data, from), to, pad)
  {
    var acc, bits: nat := 0, 0;
    ret := [];
    var maxv := Pow2(to) - 1;
    ghost var cut: seq<bool>, pending: seq<bool> := [], [];
    for i := 0 to |data|
      invariant |pending| == bits < to && Multiple(|cut|, to)
      invariant BitString(data[..i], from) == cut + pending
      invariant acc == ToInt32(Value(cut + pending))
      invariant ret == Regroup(cut, to, false)
    {
      var v := data[i];
      assert data[..i + 1] == data[..i] + [v];
      ShiftInDigit(cut, pending, from, v);
      BitStringSnoc(data[..i], v, from);
      acc := Or(Shl(acc, from), v);
      bits := bits + from;
      pending := pending + Bits(v, from);
      while bits >= to
        invariant |pending| == bits < to + from && Multiple(|cut|, to)
        invariant BitString(data[..i + 1], from) == cut + pending
        invariant acc == ToInt32(Value(cut + pending))
        invariant ret == Regroup(cut, to, false)
      {
        bits := bits - to;
        NextDigit(cut, pending, to, acc, bits, maxv);
        ret := ret + [And(Sar(acc, bits), maxv)];
        cut, pending := cut + pending[..to], pending[to..];
      }
    }
    assert data[..|data|] == data;
    if pad && bits > 0 {
      LastDigit(cut, pending, to, acc, bits, maxv);
      ret := ret + [And(Shl(acc, to - bits), maxv)];
    } else {
      RegroupConcat(cut, pending, to, pad);
      WholeGroupsIgnorePad(cut, to);
    }
  }

  // ---------- regrouping there and back ----------

  /** The digits of width `to` spell the bits again, followed by fewer than `to` zeros. */
  lemma {:induction false} RegroupKeepsBits(b: seq<bool>, to: nat) returns (zeros: nat)
    requires to > 0
    ensures zeros < to
    ensures BitString(Regroup(b, to, true), to) == b + Zeros(zeros)
    decreases |b|
  {
    if |b| >= to {
      var g, t := b[..to], b[to..];
      zeros := RegroupKeepsBits(t, to);
      BitStringCons(Value(g), Regroup(t, to, true), to);
      BitsOfValue(g);
      assert b == g + t;
      assert (g + t) + Zeros(zeros) == g + (t + Zeros(zeros));
    } else if b != [] {
      zeros := to - |b|;
      var padded := b + Zeros(zeros);
      assert Regroup(b, to, true) == [] + [Value(padded)];
      BitStringSnoc([], Value(padded), to);
      BitsOfValue(padded);
    } else {
      zeros := 0;
    }
  }

  lemma {:induction false} RegroupOfBits(data: seq<nat>, width: nat, extra: seq<bool>)
    requires |extra| < width && forall i :: 0 <= i < |data| ==> data[i] < Pow2(width)
    ensures Regroup(BitString(data, width) + extra, width, false) == data
  {
    if data == [] {
      assert BitString(data, width) + extra == extra;
    } else {
      assert data == [data[0]] + data[1..];
      BitStringCons(data[0], data[1..], width);
      ValueOfBits(data[0], width);
      RegroupOfBits(data[1..], width, extra);
      RegroupHead(Bits(data[0], width), BitString(data[1..], width), extra);
    }
  }

  lemma RegroupHead(g: seq<bool>, b: seq<bool>, extra: seq<bool>)
    requires g != []
    ensures Regroup(g + b + extra, |g|, false) == [Value(g)] + Regroup(b + extra, |g|, false)
  {
    var s := g + b + extra;
    assert s[..|g|] == g && s[|g|..] == b + extra;
  }

  /**
   Regrouping with padding to a width no larger and back without padding returns the data: the
   8-to-5 grouping of an address program and its decoding.
   */
  lemma RegroupRoundTrip(data: seq<nat>, from: nat, to: nat)
    requires 0 < to <= from && forall i :: 0 <= i < |data| ==> data[i] < Pow2(from)
    ensures Regroup(BitString(Regroup(BitString(data, from), to, true), to), from, false) == data
  {
    var zeros := RegroupKeepsBits(BitString(data, from), to);
    RegroupOfBits(data, from, Zeros(zeros));
  }

  // ---------- the digits as numbers ----------

  /** The number with these digits in this base, most significant first. */
  function Number(digits: seq<nat>, base: nat): nat {
    if digits == [] then 0 else Number(digits[..|digits| - 1], base) * base + digits[|digits| - 1]
  }

  lemma {:induction false} BitStringSize(data: seq<nat>, width: nat)
    ensures |BitString(data, width)| == |data| * width
  {
    if data != [] {
      BitStringSize(data[..|data| - 1], width);
    }
  }

  lemma {:induction false} BitsNumber(data: seq<nat>, width: nat, base: nat)
    requires base == Pow2(width) && forall i :: 0 <= i < |data| ==> data[i] < base
    ensures Value(BitString(data, width)) == Number(data, base)
  {
    if data != [] {
      var n := |data| - 1;
      BitsNumber(data[..n], width, base);
      ValueConcat(BitString(data[..n], width), Bits(data[n], width));
      ValueOfBits(data[n], width);
    }
  }

  lemma NumberOfBits(data: seq<nat>, width: nat)
    requires forall i :: 0 <= i < |data| ==> data[i] < Pow2(width)
    ensures Value(BitString(data, width)) == Number(data, Pow2(width))
    ensures |BitString(data, width)| == |data| * width
  {
    BitStringSize(data, width);
    BitsNumber(data, width, Pow2(width));
  }

  /** Regrouping with padding multiplies the number by a power of two that fills the last digit. */
  lemma PaddedNumber(data: seq<nat>, from: nat, to: nat) returns (zeros: nat)
    requires to > 0 && forall i :: 0 <= i < |data| ==> data[i] < Pow2(from)
    ensures zeros < to
    ensures |Regroup(BitString(data, from), to, true)| * to == |data| * from + zeros
    ensures Number(Regroup(BitString(data, from), to, true), Pow2(to)) == Number(data, Pow2(from)) * Pow2(zeros)
  {
    var b := BitString(data, from);
    zeros := RegroupKeepsBits(b, to);
    RegroupBound(b, to, true);
    NumberOfBits(data, from);
    NumberOfBits(Regroup(b, to, true), to);
    ValueConcat(b, Zeros(zeros));
    ValueOfZeros(zeros);
  }

  lemma {:induction false} RegroupCuts(b: seq<bool>, to: nat) returns (rest: seq<bool>)
    requires to > 0
    ensures |rest| < to && b == BitString(Regroup(b, to, false), to) + rest
    decreases |b|
  {
    if |b| >= to {
      var g, t := b[..to], b[to..];
      rest := RegroupCuts(t, to);
      BitStringCons(Value(g), Regroup(t, to, false), to);
      BitsOfValue(g);
      BitsAssoc(g, BitString(Regroup(t, to, false), to), rest);
      assert b == g + t;
    } else {
      rest := b;
    }
  }

  /** Regrouping without padding divides the number by a power of two and drops the remainder. */
  lemma CutNumber(data: seq<nat>, from: nat, to: nat) returns (rest: nat, low: nat)
    requires to > 0 && forall i :: 0 <= i < |data| ==> data[i] < Pow2(from)
    ensures rest < to && low < Pow2(rest)
    ensures |Regroup(BitString(data, from), to, false)| * to + rest == |data| * from
    ensures Number(data, Pow2(from)) == Number(Regroup(BitString(data, from), to, false), Pow2(to)) * Pow2(rest) + low
  {
    var b := BitString(data, from);
    var t := RegroupCuts(b, to);
    rest, low := |t|, Value(t);
    ValueBound(t);
    RegroupBound(b, to, false);
    NumberOfBits(data, from);
    NumberOfBits(Regroup(b, to, false), to);
    ValueConcat(BitString(Regroup(b, to, false), to), t);
  }
}
