/**
 Published addresses pin the constants of Bech32m: the generators, the target and the letters.
 */
module Bech32mVectors {
  import opened JsBits
  import opened BitGroups
  import opened Polymod
  import opened OrderedMap
  import opened Bech32m

  /** The register as six symbols. */
  datatype Register = Register(a: bv5, b: bv5, c: bv5, d: bv5, e: bv5, f: bv5)

  /** The generators of BIP-173 as symbols. */
  function Generator(i: nat): Register
    requires i < 5
  {
    if i == 0 then Register(29, 22, 20, 21, 29, 18)
    else if i == 1 then Register(19, 5, 1, 3, 19, 13)
    else if i == 2 then Register(15, 10, 2, 6, 15, 26)
    else if i == 3 then Register(30, 20, 4, 12, 30, 29)
    else Register(21, 1, 8, 24, 21, 19)
  }

  predicate On(x: bv5, i: nat)
    requires i < 5
  {
    x & (if i == 0 then 1 else if i == 1 then 2 else if i == 2 then 4 else if i == 3 then 8 else 16) != 0
  }

  function Added(r: Register, g: Register): Register {
    Register(r.a ^ g.a, r.b ^ g.b, r.c ^ g.c, r.d ^ g.d, r.e ^ g.e, r.f ^ g.f)
  }

  function Mixed(r: Register, top: bv5, n: nat): Register
    requires n <= 5
  {
    if n == 0 then r
    else if On(top, n - 1) then Added(Mixed(r, top, n - 1), Generator(n - 1))
    else Mixed(r, top, n - 1)
  }

  /** One symbol enters (section "Checksum" of BIP-173). */
  function Turn(r: Register, v: bv5): Register {
    Mixed(Register(r.b, r.c, r.d, r.e, r.f, v), r.a, 5)
  }

  function List(a: bool, b: bool, c: bool, d: bool, e: bool): (r: seq<bool>)
    ensures |r| == 5
  {
    [a, b, c, d, e]
  }

  function Five(x: bv5): (r: seq<bool>)
    ensures |r| == 5
  {
    List(x & 16 != 0, x & 8 != 0, x & 4 != 0, x & 2 != 0, x & 1 != 0)
  }

  function Thirty(r: Register): (b: seq<bool>)
    ensures |b| == 30
  {
    Five(r.a) + Five(r.b) + Five(r.c) + Five(r.d) + Five(r.e) + Five(r.f)
  }

  lemma BitwiseXor(x: bv5, y: bv5)
    ensures ((x ^ y) & 16 != 0) == ((x & 16 != 0) != (y & 16 != 0))
    ensures ((x ^ y) & 8 != 0) == ((x & 8 != 0) != (y & 8 != 0))
    ensures ((x ^ y) & 4 != 0) == ((x & 4 != 0) != (y & 4 != 0))
    ensures ((x ^ y) & 2 != 0) == ((x & 2 != 0) != (y & 2 != 0))
    ensures ((x ^ y) & 1 != 0) == ((x & 1 != 0) != (y & 1 != 0))
  {
  }

  lemma ListOf(s: seq<bool>)
    requires |s| == 5
    ensures s == List(s[0], s[1], s[2], s[3], s[4])
  {
  }

  lemma XorOfLists(a: bool, b: bool, c: bool, d: bool, e: bool, p: bool, q: bool, r: bool, s: bool, t: bool)
    ensures Xor(List(a, b, c, d, e), List(p, q, r, s, t)) == List(a != p, b != q, c != r, d != s, e != t)
  {
    var x := Xor(List(a, b, c, d, e), List(p, q, r, s, t));
    ListOf(x);
    assert x[0] == (a != p);
    assert x[1] == (b != q);
    assert x[2] == (c != r);
    assert x[3] == (d != s);
    assert x[4] == (e != t);
  }

  lemma FiveXor(x: bv5, y: bv5)
    ensures Xor(Five(x), Five(y)) == Five(x ^ y)
  {
    BitwiseXor(x, y);
    XorOfLists(x & 16 != 0, x & 8 != 0, x & 4 != 0, x & 2 != 0, x & 1 != 0,
               y & 16 != 0, y & 8 != 0, y & 4 != 0, y & 2 != 0, y & 1 != 0);
  }

  lemma XorConcat(a: seq<bool>, b: seq<bool>, x: seq<bool>, y: seq<bool>)
    requires |a| == |x| && |b| == |y|
    ensures Xor(a + b, x + y) == Xor(a, x) + Xor(b, y)
  {
  }

  lemma XorOfSix(a: seq<bool>, b: seq<bool>, c: seq<bool>, d: seq<bool>, e: seq<bool>, f: seq<bool>,
                 p: seq<bool>, q: seq<bool>, r: seq<bool>, s: seq<bool>, t: seq<bool>, u: seq<bool>)
    requires |a| == |b| == |c| == |d| == |e| == |f| == 5
    requires |p| == |q| == |r| == |s| == |t| == |u| == 5
    ensures Xor(a + b + c + d + e + f, p + q + r + s + t + u)
         == Xor(a, p) + Xor(b, q) + Xor(c, r) + Xor(d, s) + Xor(e, t) + Xor(f, u)
  {
    XorConcat(a, b, p, q);
    XorConcat(a + b, c, p + q, r);
    XorConcat(a + b + c, d, p + q + r, s);
    XorConcat(a + b + c + d, e, p + q + r + s, t);
    XorConcat(a + b + c + d + e, f, p + q + r + s + t, u);
  }

  lemma XorInSix(f: bv5 -> seq<bool>, r: Register, g: Register, s: Register)
    requires forall x :: |f(x)| == 5
    requires f(s.a) == Xor(f(r.a), f(g.a)) && f(s.b) == Xor(f(r.b), f(g.b)) && f(s.c) == Xor(f(r.c), f(g.c))
    requires f(s.d) == Xor(f(r.d), f(g.d)) && f(s.e) == Xor(f(r.e), f(g.e)) && f(s.f) == Xor(f(r.f), f(g.f))
    ensures f(s.a) + f(s.b) + f(s.c) + f(s.d) + f(s.e) + f(s.f)
         == Xor(f(r.a) + f(r.b) + f(r.c) + f(r.d) + f(r.e) + f(r.f),
                f(g.a) + f(g.b) + f(g.c) + f(g.d) + f(g.e) + f(g.f))
  {
    XorOfSix(f(r.a), f(r.b), f(r.c), f(r.d), f(r.e), f(r.f), f(g.a), f(g.b), f(g.c), f(g.d), f(g.e), f(g.f));
  }

  lemma ThirtyXor(r: Register, g: Register)
    ensures Thirty(Added(r, g)) == Xor(Thirty(r), Thirty(g))
  {
    FiveXor(r.a, g.a);
    FiveXor(r.b, g.b);
    FiveXor(r.c, g.c);
    FiveXor(r.d, g.d);
    FiveXor(r.e, g.e);
    FiveXor(r.f, g.f);
    XorInSix(Five, r, g, Added(r, g));
  }

  /** A number below 32 and the symbol with the same bits. */
  predicate Stands(n: nat, x: bv5) {
    && n < 32
    && (n / 16 % 2 == 1) == (x & 16 != 0)
    && (n / 8 % 2 == 1) == (x & 8 != 0)
    && (n / 4 % 2 == 1) == (x & 4 != 0)
    && (n / 2 % 2 == 1) == (x & 2 != 0)
    && (n % 2 == 1) == (x & 1 != 0)
  }

  lemma FiveBits(n: nat, b: seq<bool>)
    requires n < 32
    requires b == List(n / 16 % 2 == 1, n / 8 % 2 == 1, n / 4 % 2 == 1, n / 2 % 2 == 1, n % 2 == 1)
    ensures Bits(n, 5) == b
  {
    var x, y, z, w := n / 2, n / 2 / 2, n / 2 / 2 / 2, n / 2 / 2 / 2 / 2;
    assert Bits(w, 1) == [w % 2 == 1];
    assert Bits(z, 2) == Bits(w, 1) + [z % 2 == 1];
    assert Bits(y, 3) == Bits(z, 2) + [y % 2 == 1];
    assert Bits(x, 4) == Bits(y, 3) + [x % 2 == 1];
    assert Bits(n, 5) == Bits(x, 4) + [n % 2 == 1];
    assert w == n / 16 && z == n / 8 && y == n / 4;
  }

  lemma SymbolBits(n: nat, x: bv5)
    requires Stands(n, x)
    ensures Bits(n, 5) == Five(x)
  {
    FiveBits(n, Five(x));
  }

  lemma FiveValue(n: nat, x: bv5)
    requires Stands(n, x)
    ensures Value(Five(x)) == n
  {
    SymbolBits(n, x);
    assert Pow2(5) == 32;
    ValueOfBits(n, 5);
  }

  /** Six numbers and the register with the same bits. */
  predicate Spells6(r: Register, a: nat, b: nat, c: nat, d: nat, e: nat, f: nat) {
    Stands(a, r.a) && Stands(b, r.b) && Stands(c, r.c) && Stands(d, r.d) && Stands(e, r.e) && Stands(f, r.f)
  }

  lemma ThirtyValue(r: Register, a: nat, b: nat, c: nat, d: nat, e: nat, f: nat)
    requires Spells6(r, a, b, c, d, e, f)
    ensures Value(Thirty(r)) == ((((a * 32 + b) * 32 + c) * 32 + d) * 32 + e) * 32 + f
  {
    var u, v, w, x, y, z := Five(r.a), Five(r.b), Five(r.c), Five(r.d), Five(r.e), Five(r.f);
    assert Pow2(5) == 32;
    FiveValue(a, r.a);
    FiveValue(b, r.b);
    FiveValue(c, r.c);
    FiveValue(d, r.d);
    FiveValue(e, r.e);
    FiveValue(f, r.f);
    ValueConcat(u, v);
    ValueConcat(u + v, w);
    ValueConcat(u + v + w, x);
    ValueConcat(u + v + w + x, y);
    ValueConcat(u + v + w + x + y, z);
  }

  lemma GeneratorBits(i: nat, gen: nat, a: nat, b: nat, c: nat, d: nat, e: nat, f: nat)
    requires i < 5 && gen == GEN[i] && Spells6(Generator(i), a, b, c, d, e, f)
    requires gen == ((((a * 32 + b) * 32 + c) * 32 + d) * 32 + e) * 32 + f
    ensures Bits(GEN[i], 30) == Thirty(Generator(i))
  {
    ThirtyValue(Generator(i), a, b, c, d, e, f);
    BitsOfValue(Thirty(Generator(i)));
  }

  lemma Generator0(i: nat)
    requires i == 0
    ensures Bits(GEN[i], 30) == Thirty(Generator(i))
  {
    GeneratorBits(i, 0x3b6a57b2, 29, 22, 20, 21, 29, 18);
  }

  lemma Generator1(i: nat)
    requires i == 1
    ensures Bits(GEN[i], 30) == Thirty(Generator(i))
  {
    GeneratorBits(i, 0x26508e6d, 19, 5, 1, 3, 19, 13);
  }

  lemma Generator2(i: nat)
    requires i == 2
    ensures Bits(GEN[i], 30) == Thirty(Generator(i))
  {
    GeneratorBits(i, 0x1ea119fa, 15, 10, 2, 6, 15, 26);
  }

  lemma Generator3(i: nat)
    requires i == 3
    ensures Bits(GEN[i], 30) == Thirty(Generator(i))
  {
    GeneratorBits(i, 0x3d4233dd, 30, 20, 4, 12, 30, 29);
  }

  lemma Generator4(i: nat)
    requires i == 4
    ensures Bits(GEN[i], 30) == Thirty(Generator(i))
  {
    GeneratorBits(i, 0x2a1462b3, 21, 1, 8, 24, 21, 19);
  }

  lemma GeneratorIs(i: nat)
    requires i < 5
    ensures Bits(GEN[i], 30) == Thirty(Generator(i))
  {
    if i == 0 {
      Generator0(i);
    } else if i == 1 {
      Generator1(i);
    } else if i == 2 {
      Generator2(i);
    } else if i == 3 {
      Generator3(i);
    } else {
      Generator4(i);
    }
  }

  lemma XorAssoc(a: seq<bool>, b: seq<bool>, c: seq<bool>)
    requires |a| == |b| == |c|
    ensures Xor(a, Xor(b, c)) == Xor(Xor(a, b), c)
  {
  }

  lemma TopBit(x: bv5, i: nat)
    requires i < 5
    ensures Five(x)[4 - i] == On(x, i)
  {
  }

  lemma MixOne(m: Register, base: seq<bool>, before: seq<bool>, g: Register, gen: seq<bool>)
    requires |base| == |before| == |gen| == 30 && Thirty(m) == Xor(base, before) && gen == Thirty(g)
    ensures Thirty(Added(m, g)) == Xor(base, Xor(before, gen))
  {
    ThirtyXor(m, g);
    XorAssoc(base, before, gen);
  }

  lemma MixNone(base: seq<bool>)
    requires |base| == 30
    ensures Xor(base, Zeros(30)) == base
  {
  }

  lemma {:induction false} MixedIsMix(r: Register, x: bv5, top: seq<bool>, base: seq<bool>, n: nat)
    requires n <= 5 && |top| == 5 && base == Thirty(r) && forall i :: 0 <= i < 5 ==> top[4 - i] == On(x, i)
    ensures Thirty(Mixed(r, x, n)) == Xor(base, Mix(top, n))
  {
    if n == 0 {
      MixNone(base);
    } else {
      MixedIsMix(r, x, top, base, n - 1);
      assert top[4 - (n - 1)] == On(x, n - 1);
      if On(x, n - 1) {
        GeneratorIs(n - 1);
        MixOne(Mixed(r, x, n - 1), base, Mix(top, n - 1), Generator(n - 1), Bits(GEN[n - 1], 30));
      }
    }
  }

  lemma Shifted(r: Register, v: bv5)
    ensures Thirty(r)[..5] == Five(r.a)
    ensures Thirty(r)[5..] + Five(v) == Thirty(Register(r.b, r.c, r.d, r.e, r.f, v))
  {
  }

  lemma TurnIsStep(r: Register, n: nat, v: bv5)
    requires Stands(n, v)
    ensures Step(Thirty(r), Bits(n, 5)) == Thirty(Turn(r, v))
  {
    SymbolBits(n, v);
    Shifted(r, v);
    forall i | 0 <= i < 5 ensures Five(r.a)[4 - i] == On(r.a, i) {
      TopBit(r.a, i);
    }
    var next := Register(r.b, r.c, r.d, r.e, r.f, v);
    MixedIsMix(next, r.a, Five(r.a), Thirty(next), 5);
  }

  lemma Enters(s: seq<bool>, before: seq<nat>, n: nat, v: bv5, r: Register)
    requires |s| == 30 && Stands(n, v) && Fold(s, before) == Thirty(r)
    ensures Fold(s, before + [n]) == Thirty(Turn(r, v))
  {
    FoldSnoc(s, before, n);
    TurnIsStep(r, n, v);
  }

  lemma Three(k: nat, l: nat, m: nat, x: bv5, y: bv5, z: bv5, r0: Register, r1: Register, r2: Register, r3: Register)
    requires Stands(k, x) && Stands(l, y) && Stands(m, z)
    requires Turn(r0, x) == r1 && Turn(r1, y) == r2 && Turn(r2, z) == r3
    ensures Fold(Thirty(r0), [k] + [l] + [m]) == Thirty(r3)
  {
    assert Fold(Thirty(r0), []) == Thirty(r0) && [] + [k] == [k];
    Enters(Thirty(r0), [], k, x, r0);
    Enters(Thirty(r0), [k], l, y, r1);
    Enters(Thirty(r0), [k] + [l], m, z, r2);
  }

  lemma FirstTurns(r: Register, next: Register)
    requires r == Register(0, 0, 0, 0, 0, 1) && next == Register(0, 0, 1, 3, 0, 1)
    ensures Fold(Thirty(r), [3] + [0] + [1]) == Thirty(next)
  {
    Three(3, 0, 1, 3, 0, 1, r, Register(0, 0, 0, 0, 1, 3), Register(0, 0, 0, 1, 3, 0), next);
  }

  lemma NextTurns(r: Register, next: Register)
    requires r == Register(0, 0, 1, 3, 0, 1) && next == Register(30, 22, 21, 10, 29, 27)
    ensures Fold(Thirty(r), [31] + [0] + [9]) == Thirty(next)
  {
    Three(31, 0, 9, 31, 0, 9, r, Register(0, 1, 3, 0, 1, 31), Register(1, 3, 0, 1, 31, 0), next);
  }

  lemma LastTurns(r: Register, next: Register)
    requires r == Register(30, 22, 21, 10, 29, 27) && next == Register(21, 28, 16, 12, 5, 3)
    ensures Fold(Thirty(r), [19] + [17] + [29]) == Thirty(next)
  {
    var r1, r2 := Register(1, 15, 5, 12, 12, 10), Register(18, 19, 24, 25, 23, 3);
    assert Turn(r, 19) == r1;
    assert Turn(r1, 17) == r2;
    assert Turn(r2, 29) == next;
    Three(19, 17, 29, 19, 17, 29, r, r1, r2, next);
  }

  lemma StartIs(r: Register)
    requires r == Register(0, 0, 0, 0, 0, 1)
    ensures Start() == Thirty(r)
  {
  }

  lemma Passing(r: Register)
    requires r == Register(21, 28, 16, 12, 5, 3)
    ensures Value(Thirty(r)) == BECH32M
  {
    ThirtyValue(r, 21, 28, 16, 12, 5, 3);
  }

  lemma Chained(s: seq<bool>, a: seq<nat>, b: seq<nat>, c: seq<nat>)
    requires |s| == 30
    ensures Fold(s, a + b + c) == Fold(Fold(Fold(s, a), b), c)
  {
    FoldConcat(s, a, b);
    FoldConcat(s, a + b, c);
  }

  lemma NineSymbols(x: Register, y: Register, z: Register, last: Register)
    requires x == Register(0, 0, 0, 0, 0, 1) && y == Register(0, 0, 1, 3, 0, 1)
    requires z == Register(30, 22, 21, 10, 29, 27) && last == Register(21, 28, 16, 12, 5, 3)
    ensures Fold(Start(), [3] + [0] + [1] + ([31] + [0] + [9]) + ([19] + [17] + [29])) == Thirty(last)
  {
    StartIs(x);
    FirstTurns(x, y);
    NextTurns(y, z);
    LastTurns(z, last);
    Chained(Start(), [3] + [0] + [1], [31] + [0] + [9], [19] + [17] + [29]);
  }

  lemma NineAre(all: seq<nat>)
    requires |all| == 9 && all[0] == 3 && all[1] == 0 && all[2] == 1 && all[3] == 31 && all[4] == 0
    requires all[5] == 9 && all[6] == 19 && all[7] == 17 && all[8] == 29
    ensures all == [3] + [0] + [1] + ([31] + [0] + [9]) + ([19] + [17] + [29])
  {
  }

  lemma ShortTrace(all: seq<nat>, last: Register)
    requires all == [3] + [0] + [1] + ([31] + [0] + [9]) + ([19] + [17] + [29])
    requires last == Register(21, 28, 16, 12, 5, 3)
    ensures Value(Fold(Start(), all)) == BECH32M
  {
    NineSymbols(Register(0, 0, 0, 0, 0, 1), Register(0, 0, 1, 3, 0, 1), Register(30, 22, 21, 10, 29, 27), last);
    Passing(last);
  }

  lemma ShortLetters(text: string)
    requires text == "lqfn3a"
    ensures SymbolsOf(CHARSET, text) == Some([31, 0, 9, 19, 17, 29]) && '1' !in text
  {
    var values: seq<nat> := [31, 0, 9, 19, 17, 29];
    CharsetSpells(values);
    ShortSpelling(values, Letters(values), text);
  }

  lemma ShortSpelling(values: seq<nat>, spelled: string, text: string)
    requires |values| == 6 && values[0] == 31 && values[1] == 0 && values[2] == 9
    requires values[3] == 19 && values[4] == 17 && values[5] == 29
    requires Symbols(values) && spelled == Letters(values) && text == "lqfn3a"
    ensures spelled == text
  {
    assert spelled[0] == 'l' && spelled[1] == 'q' && spelled[2] == 'f';
    assert spelled[3] == 'n' && spelled[4] == '3' && spelled[5] == 'a';
  }

  lemma ShortPrefix(hrp: string, values: seq<nat>, all: seq<nat>)
    requires hrp == "a" && |values| == 6 && values[0] == 31 && values[1] == 0 && values[2] == 9
    requires values[3] == 19 && values[4] == 17 && values[5] == 29 && all == Expand(hrp) + values
    ensures Value(Fold(Start(), all)) == BECH32M
  {
    assert Expand(hrp) == [3, 0, 1];
    NineAre(all);
    ShortTrace(all, Register(21, 28, 16, 12, 5, 3));
  }

  /** The published "a1lqfn3a": the prefix "a" and nothing but a checksum. */
  lemma ShortAddress()
    ensures Accepts("a" + "1" + "lqfn3a")
  {
    var text, values: seq<nat> := "lqfn3a", [31, 0, 9, 19, 17, 29];
    ShortLetters(text);
    ReadAt("a", text);
    ShortPrefix("a", values, Expand("a") + values);
  }
}
