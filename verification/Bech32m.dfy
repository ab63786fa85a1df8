/**
 Bech32m addresses (src/mrc20.js; "Checksum" in BIP-173, "Bech32m" in BIP-350): every encoding passes,
 and changes within a window of six symbols are noticed.
 */
module Bech32m {
  import opened JsBits
  import opened BitGroups
  import opened Polymod
  import opened OrderedMap

  const BECH32M: nat := 0x2bc830a3
  const CHARSET: string := "qpzry9x8gf2tvdw0s3jn54khce6mua7l"

  // ---------- the specification ----------

  predicate Ascii(hrp: string) {
    forall i :: 0 <= i < |hrp| ==> hrp[i] < '\U{80}'
  }

  function HighBits(hrp: string): (r: seq<nat>)
    ensures |r| == |hrp|
  {
    seq(|hrp|, i requires 0 <= i < |hrp| => hrp[i] as nat / 32)
  }

  function LowBits(hrp: string): (r: seq<nat>)
    ensures |r| == |hrp|
  {
    seq(|hrp|, i requires 0 <= i < |hrp| => hrp[i] as nat % 32)
  }

  function Expand(hrp: string): seq<nat> {
    HighBits(hrp) + [0] + LowBits(hrp)
  }

  /** The register before the first symbol, holding the number 1. */
  function Start(): (s: seq<bool>)
    ensures |s| == 30
  {
    Zeros(29) + [true]
  }

  /** The Bech32m check of BIP-350 on a human-readable part and data symbols. */
  predicate Passes(hrp: string, data: seq<nat>) {
    Value(Fold(Start(), Expand(hrp) + data)) == BECH32M
  }

  /** The bits the six checksum symbols carry. */
  function CheckBits(hrp: string, values: seq<nat>): (r: seq<bool>)
    ensures |r| == 30
  {
    var f := Fold(Start(), Expand(hrp) + values + [0, 0, 0, 0, 0, 0]);
    Xor(f, Bits(BECH32M, |f|))
  }

  function Checksum(hrp: string, values: seq<nat>): seq<nat> {
    Regroup(CheckBits(hrp, values), 5, false)
  }

  lemma {:induction false} BitStringOfRegroup(b: seq<bool>, to: nat)
    requires to > 0 && Multiple(|b|, to)
    ensures BitString(Regroup(b, to, false), to) == b
  {
    if b != [] {
      BitStringOfRegroup(b[to..], to);
      BitStringCons(Value(b[..to]), Regroup(b[to..], to, false), to);
      BitsOfValue(b[..to]);
      assert b == b[..to] + b[to..];
    }
  }

  lemma SixGroups(b: seq<bool>)
    requires |b| == 30
    ensures Regroup(b, 5, false) ==
      [Value(b[..5]), Value(b[5..10]), Value(b[10..15]), Value(b[15..20]), Value(b[20..25]), Value(b[25..])]
    ensures Multiple(30, 5)
  {
    assert b[5..][..5] == b[5..10] && b[5..][5..] == b[10..];
    assert b[10..][..5] == b[10..15] && b[10..][5..] == b[15..];
    assert b[15..][..5] == b[15..20] && b[15..][5..] == b[20..];
    assert b[20..][..5] == b[20..25] && b[20..][5..] == b[25..];
    assert b[25..][..5] == b[25..] && b[25..][5..] == [];
    assert Regroup(b[25..], 5, false) == [Value(b[25..])];
    assert Regroup(b[20..], 5, false) == [Value(b[20..25])] + Regroup(b[25..], 5, false);
    assert Regroup(b[15..], 5, false) == [Value(b[15..20])] + Regroup(b[20..], 5, false);
    assert Regroup(b[10..], 5, false) == [Value(b[10..15])] + Regroup(b[15..], 5, false);
    assert Regroup(b[5..], 5, false) == [Value(b[5..10])] + Regroup(b[10..], 5, false);
    assert Multiple(5, 5) && Multiple(10, 5) && Multiple(15, 5) && Multiple(20, 5) && Multiple(25, 5);
  }

  /** Six symbols that spell the difference between a register and a target lead to the target. */
  lemma SixSymbolsReach(s: seq<bool>, zeros: seq<nat>, check: seq<nat>, target: seq<bool>)
    requires |s| == |target| == 30 && |zeros| == |check| == 6
    requires forall i :: 0 <= i < 6 ==> zeros[i] == 0
    requires BitString(check, 5) == Xor(Fold(s, zeros), target)
    ensures Fold(s, check) == target
  {
    FoldDelta(s, zeros, check);
    SixZeros(zeros);
    var f, d := Fold(s, zeros), Zeros(30 - 5 * |zeros|) + Xor(BitString(zeros, 5), BitString(check, 5));
    assert d == BitString(check, 5);
    assert Xor(f, Xor(f, target)) == target;
  }

  lemma ChecksumSymbols(hrp: string, values: seq<nat>)
    ensures |Checksum(hrp, values)| == 6 && Symbols(Checksum(hrp, values))
    ensures BitString(Checksum(hrp, values), 5) == CheckBits(hrp, values)
  {
    var m := CheckBits(hrp, values);
    SixGroups(m);
    RegroupBound(m, 5, false);
    assert Pow2(5) == 32;
    BitStringOfRegroup(m, 5);
  }

  lemma CheckReaches(front: seq<nat>, zeros: seq<nat>, check: seq<nat>, width: nat)
    requires width == 30 && |zeros| == |check| == 6 && forall i :: 0 <= i < 6 ==> zeros[i] == 0
    requires BitString(check, 5) == Xor(Fold(Start(), front + zeros), Bits(BECH32M, width))
    ensures Fold(Start(), front + check) == Bits(BECH32M, width)
  {
    FoldConcat(Start(), front, zeros);
    FoldConcat(Start(), front, check);
    SixSymbolsReach(Fold(Start(), front), zeros, check, Bits(BECH32M, width));
  }

  /** Appending the checksum makes the check pass. */
  lemma ChecksumPasses(hrp: string, values: seq<nat>)
    ensures |Checksum(hrp, values)| == 6 && Symbols(Checksum(hrp, values))
    ensures Passes(hrp, values + Checksum(hrp, values))
  {
    var check, e, width := Checksum(hrp, values), Expand(hrp), |CheckBits(hrp, values)|;
    assert e + values + check == e + (values + check);
    assert Value(Fold(Start(), e + values + check)) == BECH32M by {
      ChecksumSymbols(hrp, values);
      CheckReaches(e + values, [0, 0, 0, 0, 0, 0], check, width);
      TargetFits(width);
    }
    ChecksumSymbols(hrp, values);
  }

  lemma TargetFits(width: nat)
    requires width == 30
    ensures Value(Bits(BECH32M, width)) == BECH32M
  {
    WordIsPow2();
    assert Pow2(31) == 2 * Pow2(30) && Pow2(32) == 2 * Pow2(31);
    ValueOfBits(BECH32M, width);
  }

  lemma {:induction false} SixZeros(z: seq<nat>)
    requires forall i :: 0 <= i < |z| ==> z[i] == 0
    ensures forall j :: 0 <= j < |BitString(z, 5)| ==> !BitString(z, 5)[j]
  {
    if z != [] {
      SixZeros(z[..|z| - 1]);
      assert Bits(0, 5) == Zeros(5);
    }
  }

  lemma Assoc(e: seq<nat>, x: seq<nat>, a: seq<nat>, z: seq<nat>)
    ensures e + (x + a + z) == e + x + a + z
  {
  }

  /** Data symbols changed within a window of six neighbours are always noticed. */
  lemma WindowDetected(hrp: string, before: seq<nat>, a: seq<nat>, b: seq<nat>, after: seq<nat>)
    requires Passes(hrp, before + a + after)
    requires |a| == |b| <= 6 && Symbols(a) && Symbols(b) && a != b
    ensures !Passes(hrp, before + b + after)
  {
    var front := Expand(hrp) + before;
    WindowChangesRegister(Start(), front, a, b, after);
    Assoc(Expand(hrp), before, a, after);
    Assoc(Expand(hrp), before, b, after);
    ValueInjective(Fold(Start(), front + a + after), Fold(Start(), front + b + after));
  }

  lemma ValueInjective(a: seq<bool>, b: seq<bool>)
    requires |a| == |b| && a != b
    ensures Value(a) != Value(b)
  {
    BitsOfValue(a);
    BitsOfValue(b);
  }

  // ---------- the loops ----------

  lemma Powers()
    ensures Pow2(5) == 32 && Pow2(25) == 0x2000000 && Pow2(30) == 0x40000000
  {
    assert Pow2(5) == 32;
    Pow2Add(5, 5);
    Pow2Add(10, 10);
    Pow2Add(20, 5);
    Pow2Add(20, 10);
  }

  method HrpExpand(hrp: string) returns (r: seq<nat>)
    requires Ascii(hrp)
    ensures r == Expand(hrp)
  {
    r := [];
    Powers();
    for i := 0 to |hrp|
      invariant r == HighBits(hrp)[..i]
    {
      SarDivides(hrp[i] as int, 5);
      r := r + [Sar(hrp[i] as int, 5)];
    }
    r := r + [0];
    for i := 0 to |hrp|
      invariant r == HighBits(hrp) + [0] + LowBits(hrp)[..i]
    {
      AndLow(hrp[i] as int, 5);
      r := r + [And(hrp[i] as int, 31)];
    }
  }

  lemma TopBits(s: seq<bool>)
    requires |s| == 30
    ensures Sar(Value(s), 25) == Value(s[..5])
  {
    var hi, lo := s[..5], s[5..];
    assert s == hi + lo;
    ValueConcat(hi, lo);
    ValueBound(lo);
    SarDivides(Value(s), 25);
    DivMod(Value(hi), Pow2(25), Value(lo));
  }

  lemma LowBitsShifted(s: seq<bool>)
    requires |s| == 30
    ensures Shl(And(Value(s), 0x1ffffff), 5) == Value(s[5..] + Zeros(5))
  {
    var hi, lo := s[..5], s[5..];
    assert s == hi + lo;
    Powers();
    ValueConcat(hi, lo);
    ValueBound(lo);
    DivMod(Value(hi), Pow2(25), Value(lo));
    AndLow(Value(s), 25);
    assert And(Value(s), 0x1ffffff) == Value(lo);
    Small(Value(lo));
    ShlWrapped(Value(lo), 5);
    ValueConcat(lo, Zeros(5));
    ValueOfZeros(5);
    Small(Value(lo) * 32);
  }

  lemma XorRegisters(a: seq<bool>, b: seq<bool>)
    requires |a| == |b| == 30
    ensures XorInt(Value(a), Value(b)) == Value(Xor(a, b))
  {
    Powers();
    ValueBound(a);
    ValueBound(b);
    ValueBound(Xor(a, b));
    Small(Value(a));
    Small(Value(b));
    Small(Value(Xor(a, b)));
    XorOfValues(a, b);
  }

  lemma SymbolIn(s: seq<bool>, v: nat, bits: seq<bool>)
    requires |s| == 30 && v < 32 && bits == Bits(v, 5)
    ensures XorInt(Value(s[5..] + Zeros(5)), v) == Value(Xor(s[5..] + bits, Zeros(30)))
  {
    Powers();
    ValueConcat(Zeros(25), bits);
    ValueOfZeros(25);
    ValueOfBits(v, 5);
    XorRegisters(s[5..] + Zeros(5), Zeros(25) + bits);
    assert Xor(s[5..] + Zeros(5), Zeros(25) + bits) == Xor(s[5..] + bits, Zeros(30));
  }

  lemma TopBit(top: seq<bool>, i: nat)
    requires |top| == 5 && i < 5
    ensures (And(Sar(Value(top), i), 1) != 0) == top[4 - i]
  {
    var x, g, t := top[..4 - i], [top[4 - i]], top[5 - i..];
    assert top == x + g + t;
    GroupDigit(x, g, t);
    Powers();
    ValueBound(top);
    Small(Value(top));
    assert Pow2(1) == 2;
    assert Value(g) == if top[4 - i] then 1 else 0;
  }

  lemma GeneratorIn(base: seq<bool>, top: seq<bool>, i: nat, gen: nat, chk: int)
    requires |base| == 30 && |top| == 5 && i < 5 && gen == GEN[i]
    requires chk == Value(Xor(base, Mix(top, i)))
    ensures (if And(Sar(Value(top), i), 1) != 0 then XorInt(chk, gen) else chk) == Value(Xor(base, Mix(top, i + 1)))
  {
    TopBit(top, i);
    GeneratorFits(i, gen, 30);
    var g, m := Bits(gen, 30), Mix(top, i);
    XorRegisters(Xor(base, m), g);
    assert Xor(Xor(base, m), g) == Xor(base, Xor(m, g));
  }

  lemma GeneratorFits(i: nat, gen: nat, width: nat)
    requires i < 5 && gen == GEN[i] && width == 30
    ensures Value(Bits(gen, width)) == gen
  {
    Powers();
    ValueOfBits(gen, width);
  }

  lemma StartIsOne()
    ensures Value(Start()) == 1
  {
    ValueConcat(Zeros(29), [true]);
    ValueOfZeros(29);
  }

  /** `polymod(values)`: the loop over JavaScript integers computes the register's number. */
  method PolymodOf(values: seq<nat>) returns (chk: int)
    requires Symbols(values)
    ensures chk == Value(Fold(Start(), values))
  {
    chk := 1;
    StartIsOne();
    for i := 0 to |values|
      invariant chk == Value(Fold(Start(), values[..i]))
    {
      ghost var s := Fold(Start(), values[..i]);
      ghost var base, top := s[5..] + Bits(values[i], 5), s[..5];
      TopBits(s);
      LowBitsShifted(s);
      SymbolIn(s, values[i], Bits(values[i], 5));
      var b := Sar(chk, 25);
      chk := XorInt(Shl(And(chk, 0x1ffffff), 5), values[i]);
      for j := 0 to 5
        invariant chk == Value(Xor(base, Mix(top, j)))
      {
        GeneratorIn(base, top, j, GEN[j], chk);
        if And(Sar(b, j), 1) != 0 {
          chk := XorInt(chk, GEN[j]);
        }
      }
      assert values[..i + 1] == values[..i] + [values[i]];
      FoldSnoc(Start(), values[..i], values[i]);
    }
    assert values[..|values|] == values;
  }

  // ---------- addresses ----------

  function Letters(values: seq<nat>): (r: string)
    requires Symbols(values)
    ensures |r| == |values|
  {
    seq(|values|, i requires 0 <= i < |values| => CHARSET[values[i]])
  }

  /** The symbols of an address with this version and program, before the checksum. */
  function AddressSymbols(version: nat, program: seq<nat>): seq<nat> {
    [version] + Regroup(BitString(program, 8), 5, true)
  }

  predicate Bytes(program: seq<nat>) {
    forall i :: 0 <= i < |program| ==> program[i] < 256
  }

  lemma AddressSymbolsFit(version: nat, program: seq<nat>)
    requires version < 32
    ensures Symbols(AddressSymbols(version, program))
  {
    RegroupBound(BitString(program, 8), 5, true);
    assert Pow2(5) == 32;
  }

  lemma ExpandFits(hrp: string)
    requires Ascii(hrp)
    ensures Symbols(Expand(hrp))
  {
  }

  lemma ChecksumDigit(m: seq<bool>, i: nat)
    requires |m| == 30 && i < 6
    ensures And(Sar(Value(m), 5 * (5 - i)), 31) == Value(m[5 * i..5 * i + 5])
  {
    var x, g, t := m[..5 * i], m[5 * i..5 * i + 5], m[5 * i + 5..];
    assert m == x + g + t;
    GroupDigit(x, g, t);
    Powers();
    ValueBound(m);
    Small(Value(m));
  }

  /** `mod`, the number whose digits are the checksum. */
  method CheckNumber(hrp: string, values: seq<nat>) returns (mod: int)
    requires Ascii(hrp) && Symbols(values)
    ensures mod == Value(CheckBits(hrp, values))
  {
    var enc := HrpExpand(hrp);
    ExpandFits(hrp);
    enc := enc + values + [0, 0, 0, 0, 0, 0];
    mod := PolymodOf(enc);
    mod := XorInt(mod, BECH32M);
    ghost var f := Fold(Start(), enc);
    TargetFits(|f|);
    XorRegisters(f, Bits(BECH32M, |f|));
  }

  method ChecksumOf(hrp: string, values: seq<nat>) returns (checksum: seq<nat>)
    requires Ascii(hrp) && Symbols(values)
    ensures checksum == Checksum(hrp, values)
  {
    var mod := CheckNumber(hrp, values);
    ghost var m := CheckBits(hrp, values);
    checksum := [];
    for i := 0 to 6
      invariant |checksum| == i
      invariant forall k :: 0 <= k < i ==> checksum[k] == Value(m[5 * k..5 * k + 5])
    {
      ChecksumDigit(m, i);
      checksum := checksum + [And(Sar(mod, 5 * (5 - i)), 31)];
    }
    SixDigits(m, checksum);
  }

  lemma SixDigits(m: seq<bool>, digits: seq<nat>)
    requires |m| == 30 && |digits| == 6
    requires forall k :: 0 <= k < 6 ==> digits[k] == Value(m[5 * k..5 * k + 5])
    ensures digits == Regroup(m, 5, false)
  {
    SixGroups(m);
    assert digits[0] == Value(m[..5]) && digits[1] == Value(m[5..10]) && digits[2] == Value(m[10..15]);
    assert digits[3] == Value(m[15..20]) && digits[4] == Value(m[20..25]);
    assert m[25..30] == m[25..];
    assert digits[5] == Value(m[25..]);
  }

  method Spell(values: seq<nat>) returns (result: string)
    requires Symbols(values)
    ensures result == Letters(values)
  {
    result := [];
    for i := 0 to |values|
      invariant |result| == i && forall k :: 0 <= k < i ==> result[k] == Letters(values)[k]
    {
      result := result + [CHARSET[values[i]]];
    }
  }

  /** `bech32mEncode(hrp, version, program)` */
  method Bech32mEncode(hrp: string, version: nat, program: seq<nat>) returns (result: string)
    requires Ascii(hrp) && version < 32 && Bytes(program)
    ensures Symbols(AddressSymbols(version, program) + Checksum(hrp, AddressSymbols(version, program)))
    ensures result == hrp + "1" + Letters(AddressSymbols(version, program) + Checksum(hrp, AddressSymbols(version, program)))
    ensures ReadAddress(result) == Some(Address(hrp, version, program))
  {
    assert Pow2(8) == 256;
    var conv := ConvertBits(program, 8, 5, true);
    var values := [version] + conv;
    AddressSymbolsFit(version, program);
    var checksum := ChecksumOf(hrp, values);
    ChecksumSymbols(hrp, values);
    result := Spell(values + checksum);
    result := hrp + "1" + result;
    AddressReadsBack(hrp, version, program);
  }

  // ---------- reading addresses ----------

  function LastOne(s: string): (p: int)
    ensures -1 <= p < |s|
  {
    if s == [] then -1 else if s[|s| - 1] == '1' then |s| - 1 else LastOne(s[..|s| - 1])
  }

  function IndexFrom(letters: string, c: char, i: nat): (r: Option<nat>)
    requires i <= |letters|
    ensures r.Some? ==> i <= r.value < |letters| && letters[r.value] == c
    decreases |letters| - i
  {
    if i == |letters| then None else if letters[i] == c then Some(i) else IndexFrom(letters, c, i + 1)
  }

  function SymbolsOf(letters: string, s: string): (r: Option<seq<nat>>)
    ensures r.Some? ==> Spells(letters, r.value, s)
  {
    if s == [] then Some([])
    else
      var first, rest := IndexFrom(letters, s[0], 0), SymbolsOf(letters, s[1..]);
      if first.None? || rest.None? then None else Some([first.value] + rest.value)
  }

  ghost predicate Spells(letters: string, values: seq<nat>, s: string) {
    |values| == |s| && forall i :: 0 <= i < |s| ==> values[i] < |letters| && IndexFrom(letters, s[i], 0) == Some(values[i])
  }

  /** A reader of addresses: the part before the last '1', and symbols that pass the check. */
  predicate Accepts(s: string) {
    var p := LastOne(s);
    p >= 0 && SymbolsOf(CHARSET, s[p + 1..]).Some? && Passes(s[..p], SymbolsOf(CHARSET, s[p + 1..]).value)
  }

  datatype Address = Address(hrp: string, version: nat, program: seq<nat>)

  /** Reads an accepted address: the first symbol, and the bytes of the symbols before the six of the checksum. */
  function ReadAddress(s: string): (r: Option<Address>) {
    if !Accepts(s) then None
    else
      var p := LastOne(s);
      var symbols := SymbolsOf(CHARSET, s[p + 1..]).value;
      if |symbols| < 7 then None
      else Some(Address(s[..p], symbols[0], Regroup(BitString(symbols[1..|symbols| - 6], 5), 8, false)))
  }

  ghost predicate AllDiffer(letters: string) {
    forall i, j :: 0 <= i < j < |letters| ==> letters[i] != letters[j]
  }

  lemma {:induction false} IndexOfLetter(letters: string, v: nat, i: nat)
    requires AllDiffer(letters) && i <= v < |letters|
    ensures IndexFrom(letters, letters[v], i) == Some(v)
    decreases v - i
  {
    if i < v {
      IndexOfLetter(letters, v, i + 1);
    }
  }

  lemma {:induction false} SymbolsOfSpelled(letters: string, values: seq<nat>, s: string)
    requires Spells(letters, values, s)
    ensures SymbolsOf(letters, s) == Some(values)
  {
    if values != [] {
      SymbolsOfSpelled(letters, values[1..], s[1..]);
      assert values == [values[0]] + values[1..];
    }
  }

  /** Different strings, one after the other in the same place, read as different symbols. */
  lemma ReadApart(letters: string, before: string, a: string, b: string, rest: string)
    returns (v: seq<nat>, x: seq<nat>, y: seq<nat>, w: seq<nat>)
    requires a != b
    requires SymbolsOf(letters, before + a + rest).Some? && SymbolsOf(letters, before + b + rest).Some?
    requires |a| == |b|
    ensures x != y && Spells(letters, x, a) && Spells(letters, y, b)
    ensures SymbolsOf(letters, before + a + rest) == Some(v + x + w)
    ensures SymbolsOf(letters, before + b + rest) == Some(v + y + w)
  {
    var f, g := SymbolsOf(letters, before + a + rest).value, SymbolsOf(letters, before + b + rest).value;
    SplitSpelled(letters, f, before, a, rest);
    SplitSpelled(letters, g, before, b, rest);
    var m, n := |before|, |before| + |a|;
    v, x, y, w := f[..m], f[m..n], g[m..n], f[n..];
    SpelledOnce(letters, v, g[..m], before);
    SpelledOnce(letters, w, g[n..], rest);
    if x == y {
      SpellsOne(letters, x, a, b);
    }
  }

  lemma SplitSpelled(letters: string, f: seq<nat>, before: string, a: string, rest: string)
    requires Spells(letters, f, before + a + rest)
    ensures f == f[..|before|] + f[|before|..|before| + |a|] + f[|before| + |a|..]
    ensures Spells(letters, f[..|before|], before)
    ensures Spells(letters, f[|before|..|before| + |a|], a)
    ensures Spells(letters, f[|before| + |a|..], rest)
  {
    var s, m, n := before + a + rest, |before|, |before| + |a|;
    assert s[..m] == before && s[m..n] == a && s[n..] == rest;
  }

  lemma SpelledOnce(letters: string, x: seq<nat>, y: seq<nat>, s: string)
    requires Spells(letters, x, s) && Spells(letters, y, s)
    ensures x == y
  {
    forall i | 0 <= i < |x| ensures x[i] == y[i] {
      assert IndexFrom(letters, s[i], 0) == Some(x[i]);
    }
  }

  lemma SpellsOne(letters: string, x: seq<nat>, a: string, b: string)
    requires Spells(letters, x, a) && Spells(letters, x, b)
    ensures a == b
  {
    assert forall i :: 0 <= i < |a| ==> a[i] == letters[x[i]] == b[i];
  }

  /** The place of each letter in the table of BIP-173. */
  function Place(c: char): nat {
    match c
    case 'q' => 0 case 'p' => 1 case 'z' => 2 case 'r' => 3
    case 'y' => 4 case '9' => 5 case 'x' => 6 case '8' => 7
    case 'g' => 8 case 'f' => 9 case '2' => 10 case 't' => 11
    case 'v' => 12 case 'd' => 13 case 'w' => 14 case '0' => 15
    case 's' => 16 case '3' => 17 case 'j' => 18 case 'n' => 19
    case '5' => 20 case '4' => 21 case 'k' => 22 case 'h' => 23
    case 'c' => 24 case 'e' => 25 case '6' => 26 case 'm' => 27
    case 'u' => 28 case 'a' => 29 case '7' => 30 case 'l' => 31
    case _ => 32
  }

  lemma PlaceOf(i: nat)
    requires i < |CHARSET|
    ensures Place(CHARSET[i]) == i
  {
  }

  lemma CharsetDiffers()
    ensures AllDiffer(CHARSET)
  {
    forall i, j | 0 <= i < j < |CHARSET| ensures CHARSET[i] != CHARSET[j] {
      PlaceOf(i);
      PlaceOf(j);
    }
  }

  lemma {:induction false} LastOneConcat(f: string, d: string)
    requires '1' !in d
    ensures LastOne(f + d) == LastOne(f)
  {
    if d == [] {
      assert f + d == f;
    } else {
      assert (f + d)[..|f + d| - 1] == f + d[..|d| - 1];
      LastOneConcat(f, d[..|d| - 1]);
    }
  }

  lemma NoOneInCharset()
    ensures '1' !in CHARSET
  {
  }

  lemma NoOneSpelled(letters: string, values: seq<nat>, s: string)
    requires Spells(letters, values, s) && '1' !in letters
    ensures '1' !in s
  {
  }

  lemma CharsetSpells(values: seq<nat>)
    requires Symbols(values)
    ensures SymbolsOf(CHARSET, Letters(values)) == Some(values) && '1' !in Letters(values)
  {
    CharsetDiffers();
    NoOneInCharset();
    assert |CHARSET| == 32;
    forall i | 0 <= i < |values| ensures IndexFrom(CHARSET, Letters(values)[i], 0) == Some(values[i]) {
      IndexOfLetter(CHARSET, values[i], 0);
    }
    SymbolsOfSpelled(CHARSET, values, Letters(values));
    NoOneSpelled(CHARSET, values, Letters(values));
  }

  lemma ReadAt(hrp: string, text: string)
    requires '1' !in text
    ensures LastOne(hrp + "1" + text) == |hrp|
    ensures (hrp + "1" + text)[|hrp| + 1..] == text && (hrp + "1" + text)[..|hrp|] == hrp
  {
    LastOneConcat(hrp + "1", text);
  }

  /** Every address that `bech32mEncode` builds is accepted. */
  lemma EncodingAccepted(hrp: string, values: seq<nat>)
    requires Symbols(values)
    ensures Symbols(values + Checksum(hrp, values))
    ensures Accepts(hrp + "1" + Letters(values + Checksum(hrp, values)))
  {
    ChecksumPasses(hrp, values);
    var all := values + Checksum(hrp, values);
    CharsetSpells(all);
    ReadAt(hrp, Letters(all));
  }

  lemma AddressReadsBack(hrp: string, version: nat, program: seq<nat>)
    requires version < 32 && Bytes(program)
    ensures Symbols(AddressSymbols(version, program) + Checksum(hrp, AddressSymbols(version, program)))
    ensures ReadAddress(hrp + "1" + Letters(AddressSymbols(version, program) + Checksum(hrp, AddressSymbols(version, program))))
         == Some(Address(hrp, version, program))
  {
    var values := AddressSymbols(version, program);
    AddressSymbolsFit(version, program);
    ChecksumPasses(hrp, values);
    EncodingAccepted(hrp, values);
    var all := values + Checksum(hrp, values);
    CharsetSpells(all);
    ReadAt(hrp, Letters(all));
    assert all[1..|all| - 6] == Regroup(BitString(program, 8), 5, true);
    assert Pow2(8) == 256;
    RegroupRoundTrip(program, 8, 5);
  }

  /**
   What the reader reads, as numbers: the symbols before the checksum in base 32 are the program in base
   256, with fewer than eight bits after it.
   */
  lemma ReadsNumber(s: string) returns (symbols: seq<nat>, rest: nat, low: nat)
    requires ReadAddress(s).Some?
    ensures var a := ReadAddress(s).value; Spelt(a, symbols, s)
    ensures rest < 8 && low < Pow2(rest) && |ReadAddress(s).value.program| * 8 + rest == |symbols| * 5
    ensures Number(symbols, 32) == Number(ReadAddress(s).value.program, 256) * Pow2(rest) + low
  {
    var a, all, p := ReadParts(s);
    symbols := all[1..|all| - 6];
    rest, low := FiveToEight(all);
    SplitAt(CHARSET, a, all, p, s);
  }

  lemma ReadParts(s: string) returns (a: Address, all: seq<nat>, p: nat)
    requires ReadAddress(s).Some?
    ensures ReadAddress(s) == Some(a) && p < |s| && s[p] == '1' && '1' !in CHARSET
    ensures Spells(CHARSET, all, s[p + 1..]) && |all| >= 7 && Symbols(all)
    ensures a == Address(s[..p], all[0], Regroup(BitString(all[1..|all| - 6], 5), 8, false))
  {
    p := LastOne(s);
    all, a := SymbolsOf(CHARSET, s[p + 1..]).value, ReadAddress(s).value;
    LastIsOne(s);
    NoOneInCharset();
    assert |CHARSET| == 32;
  }

  /** An address is its prefix, a '1', the letters of the version and of the symbols, and six more letters. */
  ghost predicate Spelt(a: Address, symbols: seq<nat>, s: string) {
    && |s| == |a.hrp| + 1 + 1 + |symbols| + 6
    && s[..|a.hrp|] == a.hrp && s[|a.hrp|] == '1' && '1' !in s[|a.hrp| + 1..]
    && a.version == Place(s[|a.hrp| + 1]) < 32
    && forall i :: 0 <= i < |symbols| ==> symbols[i] == Place(s[|a.hrp| + 2 + i]) < 32
  }

  lemma FiveToEight(all: seq<nat>) returns (rest: nat, low: nat)
    requires |all| >= 7 && Symbols(all)
    ensures var symbols := all[1..|all| - 6]; var program := Regroup(BitString(symbols, 5), 8, false);
      && rest < 8 && low < Pow2(rest)
      && |program| * 8 + rest == |symbols| * 5
      && Number(symbols, 32) == Number(program, 256) * Pow2(rest) + low
  {
    assert Pow2(5) == 32 && Pow2(8) == 256;
    rest, low := CutNumber(all[1..|all| - 6], 5, 8);
  }

  lemma SplitAt(letters: string, a: Address, all: seq<nat>, p: nat, s: string)
    requires letters == CHARSET && p < |s| && s[p] == '1' && '1' !in letters
    requires Spells(letters, all, s[p + 1..]) && |all| >= 7
    requires a.hrp == s[..p] && a.version == all[0]
    ensures Spelt(a, all[1..|all| - 6], s)
  {
    NoOneSpelled(letters, all, s[p + 1..]);
    forall i | 0 <= i < |all| ensures all[i] == Place(s[p + 1 + i]) < 32 {
      PlaceOf(all[i]);
      assert s[p + 1..][i] == letters[all[i]];
    }
  }

  lemma {:induction false} LastIsOne(s: string)
    ensures LastOne(s) >= 0 ==> s[LastOne(s)] == '1'
  {
    if s != [] && s[|s| - 1] != '1' {
      LastIsOne(s[..|s| - 1]);
    }
  }

  lemma {:induction false} HasOne(s: string)
    requires '1' in s
    ensures LastOne(s) >= 0
  {
    if s[|s| - 1] != '1' {
      assert s == s[..|s| - 1] + [s[|s| - 1]];
      HasOne(s[..|s| - 1]);
    }
  }

  lemma CutAt(front: string, a: string, rest: string, p: nat)
    requires p < |front|
    ensures front + a + rest == front + (a + rest)
    ensures (front + a + rest)[..p] == front[..p]
    ensures (front + a + rest)[p + 1..] == front[p + 1..] + a + rest
  {
    var s := front + a + rest;
    forall i | 0 <= i < p ensures s[..p][i] == front[..p][i] {
    }
  }

  /** Changing characters of the data part within a window of six makes an accepted string refused. */
  lemma MistakeRefused(front: string, a: string, b: string, rest: string)
    requires Accepts(front + a + rest) && '1' in front && '1' !in a && '1' !in b && '1' !in rest
    requires |a| == |b| <= 6 && a != b
    ensures !Accepts(front + b + rest)
  {
    LastOneConcat(front, a + rest);
    LastOneConcat(front, b + rest);
    var p := LastOne(front);
    HasOne(front);
    var hrp, before := front[..p], front[p + 1..];
    CutAt(front, a, rest, p);
    CutAt(front, b, rest, p);
    if SymbolsOf(CHARSET, before + b + rest).Some? {
      assert |CHARSET| == 32;
      var v, x, y, w := ReadApart(CHARSET, before, a, b, rest);
      WindowDetected(hrp, v, x, y, w);
    }
  }
}
