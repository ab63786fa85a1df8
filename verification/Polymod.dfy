/**
 The Bech32 checksum register (`polymod` in src/mrc20.js) as a string of 30 bits, and the two laws
 of its step: different registers stay different, and a change of up to six symbols changes the
 register by exactly the changed bits. Exclusive or then works place by place.
 */
module Polymod {
  import opened JsBits
  import opened BitGroups

  const GEN: seq<nat> := [0x3b6a57b2, 0x26508e6d, 0x1ea119fa, 0x3d4233dd, 0x2a1462b3]

  /** What the five bits shifted out mix in, through the first n generators. */
  function Mix(top: seq<bool>, n: nat): (r: seq<bool>)
    requires |top| == 5 && n <= 5
    ensures |r| == 30
  {
    if n == 0 then Zeros(30)
    else if top[5 - n] then Xor(Mix(top, n - 1), Bits(GEN[n - 1], 30))
    else Mix(top, n - 1)
  }

  function Step(s: seq<bool>, v: seq<bool>): (r: seq<bool>)
    requires |s| == 30 && |v| == 5
    ensures |r| == 30
  {
    Xor(s[5..] + v, Mix(s[..5], 5))
  }

  predicate Symbols(values: seq<nat>) {
    forall i :: 0 <= i < |values| ==> values[i] < 32
  }

  function Fold(s: seq<bool>, values: seq<nat>): (r: seq<bool>)
    requires |s| == 30
    ensures |r| == 30
  {
    if values == [] then s
    else Step(Fold(s, values[..|values| - 1]), Bits(values[|values| - 1], 5))
  }

  lemma FoldSnoc(s: seq<bool>, values: seq<nat>, v: nat)
    requires |s| == 30
    ensures Fold(s, values + [v]) == Step(Fold(s, values), Bits(v, 5))
  {
    assert (values + [v])[..|values|] == values;
  }

  lemma {:induction false} FoldConcat(s: seq<bool>, a: seq<nat>, b: seq<nat>)
    requires |s| == 30
    ensures Fold(s, a + b) == Fold(Fold(s, a), b)
  {
    if b == [] {
      assert a + b == a;
    } else {
      var n := |b| - 1;
      FoldConcat(s, a, b[..n]);
      assert a + b == (a + b[..n]) + [b[n]];
      FoldSnoc(s, a + b[..n], b[n]);
    }
  }

  // ---------- different registers stay different ----------

  /** Bit k of v, counted from the low end. */
  predicate Nth(v: nat, k: nat) {
    if k == 0 then v % 2 == 1 else Nth(v / 2, k - 1)
  }

  lemma {:induction false} BitAt(v: nat, n: nat, k: nat)
    requires k < n
    ensures Bits(v, n)[n - 1 - k] == Nth(v, k)
  {
    if k > 0 {
      BitAt(v / 2, n - 1, k - 1);
    }
  }

  /** Bit j of the low five bits of generator i, high bit first. */
  predicate Tail(i: nat, j: nat)
    requires i < 5 && j < 5
  {
    if i == 0 then j == 0 || j == 3
    else if i == 1 then j == 1 || j == 2 || j == 4
    else if i == 2 then j == 0 || j == 1 || j == 3
    else if i == 3 then j != 3
    else j == 0 || j == 3 || j == 4
  }

  lemma GeneratorTail(i: nat, j: nat)
    requires i < 5 && j < 5
    ensures Bits(GEN[i], 30)[25 + j] == Tail(i, j)
  {
    BitAt(GEN[i], 30, 4 - j);
    LowTail(i, GEN[i], j);
  }

  lemma LowTail(i: nat, v: nat, j: nat)
    requires i < 5 && j < 5 && v == GEN[i]
    ensures Nth(v, 4 - j) == Tail(i, j)
  {
    var a, b, c, d := v / 2, v / 2 / 2, v / 2 / 2 / 2, v / 2 / 2 / 2 / 2;
    assert Nth(v, 0) == (v % 2 == 1) && Nth(v, 1) == (a % 2 == 1);
    assert Nth(a, 1) == (b % 2 == 1) && Nth(a, 2) == Nth(b, 1) == (c % 2 == 1);
    assert Nth(a, 3) == Nth(b, 2) == Nth(c, 1) == (d % 2 == 1);
  }

  /** Bit j of the low five bits after n generators. */
  predicate Low(t: seq<bool>, n: nat, j: nat)
    requires |t| == 5 && n <= 5 && j < 5
  {
    n > 0 && (Low(t, n - 1, j) != (t[5 - n] && Tail(n - 1, j)))
  }

  lemma {:induction false} MixLow(t: seq<bool>, n: nat, j: nat)
    requires |t| == 5 && n <= 5 && j < 5
    ensures Mix(t, n)[25 + j] == Low(t, n, j)
  {
    if n > 0 {
      MixLow(t, n - 1, j);
      GeneratorTail(n - 1, j);
    }
  }

  lemma LowSpelled(t: seq<bool>)
    requires |t| == 5
    ensures Low(t, 5, 0) == (((t[4] != t[2]) != t[1]) != t[0])
    ensures Low(t, 5, 1) == ((t[3] != t[2]) != t[1])
    ensures Low(t, 5, 2) == (t[3] != t[1])
    ensures Low(t, 5, 3) == ((t[4] != t[2]) != t[0])
    ensures Low(t, 5, 4) == ((t[3] != t[1]) != t[0])
  {
    forall j | 0 <= j < 5
      ensures Low(t, 2, j) == ((t[4] && Tail(0, j)) != (t[3] && Tail(1, j)))
      ensures Low(t, 4, j) == ((Low(t, 2, j) != (t[2] && Tail(2, j))) != (t[1] && Tail(3, j)))
      ensures Low(t, 5, j) == (Low(t, 4, j) != (t[0] && Tail(4, j)))
    {
      assert Low(t, 1, j) == (t[4] && Tail(0, j));
      assert Low(t, 3, j) == (Low(t, 2, j) != (t[2] && Tail(2, j)));
    }
  }

  /** The low five bits mixed in tell apart the five bits shifted out. */
  lemma MixTellsApart(a: seq<bool>, b: seq<bool>)
    requires |a| == |b| == 5
    requires forall j :: 25 <= j < 30 ==> Mix(a, 5)[j] == Mix(b, 5)[j]
    ensures a == b
  {
    LowSpelled(a);
    LowSpelled(b);
    forall j | 0 <= j < 5 ensures Low(a, 5, j) == Low(b, 5, j) {
      MixLow(a, 5, j);
      MixLow(b, 5, j);
    }
  }

  /** No two registers step to the same one on the same symbol. */
  lemma StepInjective(s: seq<bool>, t: seq<bool>, v: seq<bool>)
    requires |s| == |t| == 30 && |v| == 5 && Step(s, v) == Step(t, v)
    ensures s == t
  {
    var x, y := s[5..] + v, t[5..] + v;
    forall j | 25 <= j < 30 ensures Mix(s[..5], 5)[j] == Mix(t[..5], 5)[j] {
      assert Step(s, v)[j] == (x[j] != Mix(s[..5], 5)[j]) && Step(t, v)[j] == (y[j] != Mix(t[..5], 5)[j]);
    }
    MixTellsApart(s[..5], t[..5]);
    forall j | 5 <= j < 30 ensures s[j] == t[j] {
      assert Step(s, v)[j - 5] == (x[j - 5] != Mix(s[..5], 5)[j - 5]);
      assert Step(t, v)[j - 5] == (y[j - 5] != Mix(t[..5], 5)[j - 5]);
    }
    forall j | 0 <= j < 5 ensures s[j] == t[j] {
      assert s[..5][j] == t[..5][j];
    }
  }

  lemma {:induction false} FoldInjective(s: seq<bool>, t: seq<bool>, values: seq<nat>)
    requires |s| == |t| == 30 && Fold(s, values) == Fold(t, values)
    ensures s == t
  {
    if values != [] {
      var n := |values| - 1;
      StepInjective(Fold(s, values[..n]), Fold(t, values[..n]), Bits(values[n], 5));
      FoldInjective(s, t, values[..n]);
    }
  }

  // ---------- a change of up to six symbols ----------

  /** A difference that leaves the top five bits alone moves up; the symbols' difference joins it. */
  lemma StepDelta(s: seq<bool>, e: seq<bool>, u: seq<bool>, v: seq<bool>)
    requires |s| == |e| == 30 && |u| == |v| == 5 && forall j :: 0 <= j < 5 ==> !e[j]
    ensures Step(Xor(s, e), v) == Xor(Step(s, u), e[5..] + Xor(u, v))
  {
    assert Xor(s, e)[..5] == s[..5];
  }

  lemma DeltaSnoc(s: seq<bool>, t: seq<bool>, p: seq<bool>, q: seq<bool>, u: seq<bool>, v: seq<bool>, k: nat)
    requires |s| == |t| == 30 && |p| == |q| && k + 5 + |p| == 30 && |u| == |v| == 5
    requires t == Xor(s, Zeros(k + 5) + Xor(p, q))
    ensures Step(t, v) == Xor(Step(s, u), Zeros(k) + Xor(p + u, q + v))
  {
    StepDelta(s, Zeros(k + 5) + Xor(p, q), u, v);
  }

  /** Changing up to six symbols changes the register by exactly the changed bits. */
  lemma {:induction false} FoldDelta(s: seq<bool>, a: seq<nat>, b: seq<nat>)
    requires |s| == 30 && |a| == |b| <= 6
    ensures |BitString(a, 5)| == |BitString(b, 5)| == 5 * |a|
    ensures Fold(s, b) == Xor(Fold(s, a), Zeros(30 - 5 * |a|) + Xor(BitString(a, 5), BitString(b, 5)))
  {
    if a == [] {
      assert b == [];
    } else {
      var n := |a| - 1;
      var p, q, u, v := BitString(a[..n], 5), BitString(b[..n], 5), Bits(a[n], 5), Bits(b[n], 5);
      var k := 25 - 5 * n;
      FoldDelta(s, a[..n], b[..n]);
      assert 30 - 5 * |a[..n]| == k + 5 && 30 - 5 * |a| == k;
      DeltaSnoc(Fold(s, a[..n]), Fold(s, b[..n]), p, q, u, v, k);
    }
  }

  lemma {:induction false} BitStringInjective(a: seq<nat>, b: seq<nat>)
    requires |a| == |b| && Symbols(a) && Symbols(b) && BitString(a, 5) == BitString(b, 5)
    ensures a == b
  {
    if a != [] {
      var n := |a| - 1;
      var x, y := Bits(a[n], 5), Bits(b[n], 5);
      var p, q := BitString(a[..n], 5), BitString(b[..n], 5);
      assert |p + x| == |q + y|;
      assert (p + x)[|p|..] == x && (q + y)[|q|..] == y;
      assert (p + x)[..|p|] == p && (q + y)[..|q|] == q;
      BitStringInjective(a[..n], b[..n]);
      assert Pow2(5) == 32;
      ValueOfBits(a[n], 5);
      ValueOfBits(b[n], 5);
      assert a == a[..n] + [a[n]] && b == b[..n] + [b[n]];
    }
  }

  /** From one register, up to six symbols that lead to the same register are the same symbols. */
  lemma ShortWordsDiffer(c: seq<bool>, a: seq<nat>, b: seq<nat>)
    requires |c| == 30 && |a| == |b| <= 6 && Symbols(a) && Symbols(b) && Fold(c, a) == Fold(c, b)
    ensures a == b
  {
    FoldDelta(c, a, b);
    NoDelta(Fold(c, a), 30 - 5 * |a|, BitString(a, 5), BitString(b, 5));
    BitStringInjective(a, b);
  }

  /** Changing symbols within a window of six changes the register, whatever comes after. */
  lemma WindowChangesRegister(s: seq<bool>, before: seq<nat>, a: seq<nat>, b: seq<nat>, after: seq<nat>)
    requires |s| == 30 && |a| == |b| <= 6 && Symbols(a) && Symbols(b) && a != b
    ensures Fold(s, before + a + after) != Fold(s, before + b + after)
  {
    var c := Fold(s, before);
    FoldConcat(s, before, a);
    FoldConcat(s, before, b);
    FoldConcat(s, before + a, after);
    FoldConcat(s, before + b, after);
    if Fold(s, before + a + after) == Fold(s, before + b + after) {
      FoldInjective(Fold(c, a), Fold(c, b), after);
      ShortWordsDiffer(c, a, b);
    }
  }

  lemma NoDelta(s: seq<bool>, k: nat, p: seq<bool>, q: seq<bool>)
    requires |p| == |q| && k + |p| == |s| && s == Xor(s, Zeros(k) + Xor(p, q))
    ensures p == q
  {
    var d := Zeros(k) + Xor(p, q);
    forall j | 0 <= j < |p| ensures p[j] == q[j] {
      assert Xor(s, d)[k + j] == (s[k + j] != d[k + j]);
      assert d[k + j] == Xor(p, q)[j];
    }
  }
}
