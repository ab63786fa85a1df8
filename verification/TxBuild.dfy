/**
 The code that writes transaction bytes (src/token.js): byte writers on arrays by 32-bit shifts and
 masks, the reversal of transaction ids in place, hexadecimal text, and `buildTransaction` with its
 loops over inputs, outputs and witnesses, proved against the format and against a reader of it. Key
 handling and signing are an abstract function.
 */
module TxBuild {
  import opened JsBits
  import opened OrderedMap
  import opened TxWire

  // ---------- hexadecimal ----------

  function HexDigit(n: nat): char
    requires n < 16
  {
    if n < 10 then '0' + n as char else 'a' + (n - 10) as char
  }

  predicate IsHexDigit(c: char) {
    '0' <= c <= '9' || 'a' <= c <= 'f'
  }

  function DigitOf(c: char): (n: nat)
    requires IsHexDigit(c)
    ensures n < 16
  {
    if c <= '9' then c as int - '0' as int else c as int - 'a' as int + 10
  }

  function ToHex(b: Bytes): string {
    if b == [] then [] else [HexDigit(b[0] / 16), HexDigit(b[0] % 16)] + ToHex(b[1..])
  }

  predicate IsHex(s: string) {
    |s| % 2 == 0 && forall i :: 0 <= i < |s| ==> IsHexDigit(s[i])
  }

  function FromHex(s: string): (b: Bytes)
    requires IsHex(s)
    ensures |b| == |s| / 2
  {
    if s == [] then [] else [16 * DigitOf(s[0]) + DigitOf(s[1])] + FromHex(s[2..])
  }

  lemma {:induction false} HexRoundTrip(b: Bytes)
    ensures IsHex(ToHex(b)) && FromHex(ToHex(b)) == b
  {
    if b != [] {
      HexRoundTrip(b[1..]);
      assert ToHex(b)[2..] == ToHex(b[1..]);
    }
  }

  lemma {:induction false} TextRoundTrip(s: string)
    requires IsHex(s)
    ensures ToHex(FromHex(s)) == s
  {
    if s != [] {
      TextRoundTrip(s[2..]);
      var b := FromHex(s);
      assert b[1..] == FromHex(s[2..]);
      assert s == [s[0], s[1]] + s[2..];
    }
  }

  lemma {:induction false} FromHexAt(s: string, i: nat)
    requires IsHex(s) && i < |s| / 2
    ensures FromHex(s)[i] == 16 * DigitOf(s[2 * i]) + DigitOf(s[2 * i + 1])
  {
    if i > 0 {
      FromHexAt(s[2..], i - 1);
    }
  }

  // ---------- byte writers ----------

  lemma DivDiv(v: nat, p: nat)
    requires p > 0
    ensures v / (256 * p) == v / 256 / p
  {
    var q, r := v / 256 / p, v / 256 % p;
    assert v / 256 == q * p + r;
    assert 256 * (q * p) == q * (256 * p);
    DivMod(q, 256 * p, 256 * r + v % 256);
  }

  lemma {:induction false} Pow256Positive(i: nat)
    ensures Pow256(i) > 0
  {
    if i > 0 {
      Pow256Positive(i - 1);
    }
  }

  lemma {:induction false} LEAt(v: nat, n: nat, i: nat)
    requires i < n
    ensures Pow256(i) > 0 && LE(v, n)[i] == v / Pow256(i) % 256
  {
    Pow256Positive(i);
    if i > 0 {
      LEAt(v / 256, n - 1, i - 1);
      DivDiv(v, Pow256(i - 1));
    }
  }

  lemma Shifts()
    ensures Pow2(8) == Pow256(1) && Pow2(16) == Pow256(2) && Pow2(24) == Pow256(3)
  {
    assert Pow2(8) == 256 && Pow256(1) == 256;
    Pow2Add(8, 8);
    Pow2Add(16, 8);
    assert Pow256(3) == 256 * Pow256(2) && Pow256(2) == 256 * Pow256(1);
  }

  /** `(val >> k) & 0xff` */
  lemma ShiftedByte(val: nat, k: nat)
    requires k <= 24
    ensures And(Sar(ToInt32(val), k), 0xff) == val / Pow2(k) % 256
  {
    var p := Pow2(k);
    var w, lo := val / p, val % p;
    Split(val, p);
    var hi, d := w / 256, w % 256;
    assert Pow2(8) == 256;
    assert w == hi * 256 + d;
    WrappedDigit(val, hi, d, lo, k, p, 8, 256);
  }

  lemma Split(x: nat, p: int)
    requires p > 0
    ensures x / p >= 0 && 0 <= x % p < p && x == x / p * p + x % p
  {
  }

  lemma WrappedDigit(val: nat, hi: nat, d: nat, lo: nat, k: nat, p: nat, to: nat, t: nat)
    requires k <= 24 && p == Pow2(k) && to == 8 && t == Pow2(to) && val == (hi * t + d) * p + lo && d < t && lo < p
    ensures And(Sar(ToInt32(val), k), t - 1) == d
  {
    var exact := (hi * Pow2(to) + d) * Pow2(k) + lo;
    assert exact == val;
    DigitOfWrapped(hi, d, lo, k, to);
  }

  lemma LowByte(val: nat)
    ensures And(val, 0xff) == val % 256
  {
    assert Pow2(8) == 256;
    AndLow(val, 8);
  }

  lemma U32Bytes(val: nat)
    ensures LE(val, 4) ==
      [And(val, 0xff), And(Sar(ToInt32(val), 8), 0xff), And(Sar(ToInt32(val), 16), 0xff), And(Sar(ToInt32(val), 24), 0xff)]
  {
    Shifts();
    LowByte(val);
    ShiftedByte(val, 8);
    ShiftedByte(val, 16);
    ShiftedByte(val, 24);
    LEAt(val, 4, 1);
    LEAt(val, 4, 2);
    LEAt(val, 4, 3);
  }

  method WriteU32LE(val: nat) returns (b: array<Byte>)
    ensures fresh(b) && b[..] == LE(val, 4)
  {
    b := new Byte[4];
    U32Bytes(val);
    var r := LE(val, 4);
    assert r[0] == And(val, 0xff) && r[1] == And(Sar(ToInt32(val), 8), 0xff);
    assert r[2] == And(Sar(ToInt32(val), 16), 0xff) && r[3] == And(Sar(ToInt32(val), 24), 0xff);
    b[0], b[1] := And(val, 0xff), And(Sar(ToInt32(val), 8), 0xff);
    b[2], b[3] := And(Sar(ToInt32(val), 16), 0xff), And(Sar(ToInt32(val), 24), 0xff);
  }

  /** `Number((n >> BigInt(i * 8)) & 0xffn)` for each i, on exact integers. */
  method WriteU64LE(val: nat) returns (b: array<Byte>)
    ensures fresh(b) && b[..] == LE(val, 8)
  {
    b := new Byte[8];
    for i := 0 to 8
      invariant b[..i] == LE(val, 8)[..i]
    {
      LEAt(val, 8, i);
      b[i] := val / Pow256(i) % 256;
    }
  }

  method WriteVarInt(val: nat) returns (b: Option<array<Byte>>)
    ensures b.None? <==> val > 0xffff
    ensures b.Some? ==> fresh(b.value) && b.value[..] == VarInt(val)
  {
    if val < 0xfd {
      var one := new Byte[1];
      one[0] := val;
      return Some(one);
    }
    if val <= 0xffff {
      var three := new Byte[3];
      TwoBytes(val);
      var r := VarInt(val);
      assert r[1] == And(val, 0xff) && r[2] == And(Sar(ToInt32(val), 8), 0xff);
      three[0] := 0xfd;
      three[1] := And(val, 0xff);
      three[2] := And(Sar(ToInt32(val), 8), 0xff);
      return Some(three);
    }
    return None;
  }

  lemma TwoBytes(val: nat)
    requires 0xfd <= val
    ensures VarInt(val) == [0xfd, And(val, 0xff), And(Sar(ToInt32(val), 8), 0xff)]
  {
    Shifts();
    LowByte(val);
    ShiftedByte(val, 8);
    LEAt(val, 2, 1);
  }

  method HexToU8(hex: string) returns (bytes: array<Byte>)
    requires IsHex(hex)
    ensures fresh(bytes) && bytes[..] == FromHex(hex)
  {
    bytes := new Byte[|hex| / 2];
    for i := 0 to bytes.Length
      invariant bytes[..i] == FromHex(hex)[..i]
    {
      FromHexAt(hex, i);
      bytes[i] := 16 * DigitOf(hex[2 * i]) + DigitOf(hex[2 * i + 1]);
    }
  }

  function Reversed(b: Bytes): (r: Bytes)
    ensures |r| == |b| && forall i :: 0 <= i < |b| ==> r[i] == b[|b| - 1 - i]
  {
    seq(|b|, i requires 0 <= i < |b| => b[|b| - 1 - i])
  }

  /** A transaction id is written in the opposite byte order. */
  method ReverseTxid(txidHex: string) returns (bytes: array<Byte>)
    requires IsHex(txidHex)
    ensures fresh(bytes) && bytes[..] == Reversed(FromHex(txidHex))
  {
    bytes := HexToU8(txidHex);
    ghost var was := bytes[..];
    var n := bytes.Length;
    for i := 0 to n / 2
      invariant forall j :: 0 <= j < i ==> bytes[j] == was[n - 1 - j] && bytes[n - 1 - j] == was[j]
      invariant forall j :: i <= j < n - i ==> bytes[j] == was[j]
    {
      bytes[i], bytes[n - 1 - i] := bytes[n - 1 - i], bytes[i];
    }
    forall j | 0 <= j < n ensures bytes[j] == was[n - 1 - j] {
      if j >= n - n / 2 {
        assert bytes[n - 1 - (n - 1 - j)] == was[n - 1 - j];
      }
    }
  }

  function Concat(parts: seq<Bytes>): Bytes {
    if parts == [] then [] else Concat(parts[..|parts| - 1]) + parts[|parts| - 1]
  }

  lemma ConcatSnoc(parts: seq<Bytes>, p: Bytes)
    ensures Concat(parts + [p]) == Concat(parts) + p
  {
    assert (parts + [p])[..|parts|] == parts;
  }

  lemma {:induction false} ConcatPrefix(parts: seq<Bytes>, i: nat)
    requires i < |parts|
    ensures |Concat(parts[..i])| + |parts[i]| <= |Concat(parts)|
    decreases |parts|
  {
    var n := |parts| - 1;
    if i == n {
    } else {
      assert parts[..n][..i] == parts[..i];
      ConcatPrefix(parts[..n], i);
    }
  }

  /** `result.set(a, off)` */
  method SetAt(result: array<Byte>, off: nat, a: Bytes)
    requires off + |a| <= result.Length
    modifies result
    ensures result[..off + |a|] == old(result[..off]) + a
  {
    for j := 0 to |a|
      invariant result[..off] == old(result[..off]) && result[off..off + j] == a[..j]
    {
      result[off + j] := a[j];
    }
    assert result[..off + |a|] == result[..off] + result[off..off + |a|];
  }

  method ConcatBytes(parts: seq<Bytes>) returns (result: array<Byte>)
    ensures fresh(result) && result[..] == Concat(parts)
  {
    var total := 0;
    for i := 0 to |parts|
      invariant total == |Concat(parts[..i])|
    {
      assert parts[..i + 1] == parts[..i] + [parts[i]];
      ConcatSnoc(parts[..i], parts[i]);
      total := total + |parts[i]|;
    }
    assert parts[..|parts|] == parts;
    result := new Byte[total];
    var off := 0;
    for i := 0 to |parts|
      invariant off == |Concat(parts[..i])| <= total && result[..off] == Concat(parts[..i])
    {
      ConcatPrefix(parts, i);
      var a := parts[i];
      SetAt(result, off, a);
      assert parts[..i + 1] == parts[..i] + [a];
      ConcatSnoc(parts[..i], a);
      off := off + |a|;
    }
  }

  method BytesToHex(bytes: Bytes) returns (hex: string)
    ensures hex == ToHex(bytes)
  {
    hex := [];
    for i := 0 to |bytes|
      invariant hex == ToHex(bytes[..i])
    {
      assert bytes[..i + 1] == bytes[..i] + [bytes[i]];
      ToHexSnoc(bytes[..i], bytes[i]);
      hex := hex + [HexDigit(bytes[i] / 16), HexDigit(bytes[i] % 16)];
    }
    assert bytes[..|bytes|] == bytes;
  }

  lemma {:induction false} ToHexSnoc(b: Bytes, x: Byte)
    ensures ToHex(b + [x]) == ToHex(b) + [HexDigit(x / 16), HexDigit(x % 16)]
  {
    if b == [] {
      assert [] + [x] == [x];
      assert [x][1..] == [];
    } else {
      assert (b + [x])[1..] == b[1..] + [x];
      ToHexSnoc(b[1..], x);
    }
  }

  // ---------- building a transaction ----------

  /** An output to spend, and an output to make. */
  datatype Spend = Spend(txid: string, vout: nat, amount: nat, scriptPubKey: Bytes)

  predicate IsTxid(s: string) {
    |s| == 64 && IsHex(s)
  }

  const VERSION := 2
  const SEQUENCE := 0xfffffffd

  function InputOf(s: Spend): TxIn
    requires IsTxid(s.txid)
  {
    TxIn(Reversed(FromHex(s.txid)), s.vout, [], SEQUENCE)
  }

  function InputsOf(spends: seq<Spend>): (r: seq<TxIn>)
    requires forall i :: 0 <= i < |spends| ==> IsTxid(spends[i].txid)
    ensures |r| == |spends|
  {
    seq(|spends|, i requires 0 <= i < |spends| => InputOf(spends[i]))
  }

  /** One signature a witness. */
  function WitnessesOf(sigs: seq<Bytes>): (r: seq<seq<Bytes>>)
    ensures |r| == |sigs|
  {
    seq(|sigs|, i requires 0 <= i < |sigs| => [sigs[i]])
  }

  function Signatures(sign: nat -> Bytes, n: nat): (r: seq<Bytes>)
    ensures |r| == n
  {
    seq(n, i => if i >= 0 then sign(i) else [])
  }

  function Transaction(spends: seq<Spend>, outs: seq<TxOut>, sigs: seq<Bytes>): Tx
    requires forall i :: 0 <= i < |spends| ==> IsTxid(spends[i].txid)
  {
    Tx(VERSION, InputsOf(spends), outs, WitnessesOf(sigs), 0)
  }

  /** A length that the size writer refuses. */
  predicate TooLong(b: Bytes) {
    |b| > 0xffff
  }

  /** When `buildTransaction` throws; `sign(i)` is the signature for input i. */
  predicate Refused(spends: seq<Spend>, outs: seq<TxOut>, sign: nat -> Bytes) {
    || spends == [] || |spends| > 0xffff || |outs| > 0xffff
    || (exists i :: 0 <= i < |spends| && TooLong(spends[i].scriptPubKey))
    || (exists i :: 0 <= i < |outs| && TooLong(outs[i].script))
    || (exists i :: 0 <= i < |spends| && TooLong(sign(i)))
  }

  /** Ids are digests, indexes and amounts fit their places. */
  predicate Fits(spends: seq<Spend>, outs: seq<TxOut>) {
    && (forall i :: 0 <= i < |spends| ==> IsTxid(spends[i].txid) && spends[i].vout < 0x1_0000_0000)
    && (forall i :: 0 <= i < |outs| ==> outs[i].amount < 0x1_0000_0000_0000_0000)
  }

  /**
   The hex reads as a transaction that spends these outputs in order, makes those in order, and carries for
   each input the signature made for it.
   */
  predicate Spends(hex: string, spends: seq<Spend>, outs: seq<TxOut>, sign: nat -> Bytes) {
    && IsHex(hex)
    && var tx := ReadTx(FromHex(hex));
    && tx.Some? && tx.value.version == 2 && tx.value.locktime == 0 && tx.value.outs == outs
    && |tx.value.ins| == |tx.value.witnesses| == |spends|
    && (forall i :: 0 <= i < |spends| ==>
          && ToHex(Reversed(tx.value.ins[i].txid)) == spends[i].txid
          && tx.value.ins[i].vout == spends[i].vout
          && tx.value.ins[i].script == [] && tx.value.ins[i].sequence == 0xfffffffd
          && tx.value.witnesses[i] == [sign(i)])
  }

  lemma {:induction false} InsBytesSnoc(ins: seq<TxIn>, x: TxIn)
    ensures InsBytes(ins + [x]) == InsBytes(ins) + InBytes(x)
  {
    if ins == [] {
      assert [] + [x] == [x] && [x][1..] == [];
    } else {
      assert (ins + [x])[1..] == ins[1..] + [x];
      InsBytesSnoc(ins[1..], x);
    }
  }

  lemma {:induction false} OutsBytesSnoc(outs: seq<TxOut>, x: TxOut)
    ensures OutsBytes(outs + [x]) == OutsBytes(outs) + OutBytes(x)
  {
    if outs == [] {
      assert [] + [x] == [x] && [x][1..] == [];
    } else {
      assert (outs + [x])[1..] == outs[1..] + [x];
      OutsBytesSnoc(outs[1..], x);
    }
  }

  lemma {:induction false} WitnessesBytesSnoc(w: seq<seq<Bytes>>, x: seq<Bytes>)
    ensures WitnessesBytes(w + [x]) == WitnessesBytes(w) + (VarInt(|x|) + ItemsBytes(x))
  {
    if w == [] {
      assert [] + [x] == [x] && [x][1..] == [];
    } else {
      assert (w + [x])[1..] == w[1..] + [x];
      WitnessesBytesSnoc(w[1..], x);
    }
  }

  /** The serialised outputs, one part each; nothing when a script is too long. */
  method SerialiseOutputs(outs: seq<TxOut>) returns (r: Option<seq<Bytes>>)
    ensures r.None? <==> exists i :: 0 <= i < |outs| && TooLong(outs[i].script)
    ensures r.Some? ==> Concat(r.value) == OutsBytes(outs)
  {
    var parts: seq<Bytes> := [];
    for i := 0 to |outs|
      invariant forall j :: 0 <= j < i ==> !TooLong(outs[j].script)
      invariant Concat(parts) == OutsBytes(outs[..i])
    {
      var o := outs[i];
      var amount := WriteU64LE(o.amount);
      var size := WriteVarInt(|o.script|);
      if size.None? {
        assert TooLong(outs[i].script);
        return None;
      }
      var part := ConcatBytes([amount[..], size.value[..], o.script]);
      ThreeParts(amount[..], size.value[..], o.script);
      assert outs[..i + 1] == outs[..i] + [o];
      OutsBytesSnoc(outs[..i], o);
      ConcatSnoc(parts, part[..]);
      parts := parts + [part[..]];
    }
    assert outs[..|outs|] == outs;
    r := Some(parts);
  }

  lemma ThreeParts(a: Bytes, b: Bytes, c: Bytes)
    ensures Concat([a, b, c]) == a + (b + c)
  {
    assert [a, b, c] == (([] + [a]) + [b]) + [c];
    ConcatSnoc([], a);
    ConcatSnoc([] + [a], b);
    ConcatSnoc(([] + [a]) + [b], c);
  }

  /** `parts.push(reverseTxid(inp.txid), writeU32LE(inp.vout), 00, writeU32LE(sequence))` for each input. */
  method PushInputs(parts0: seq<Bytes>, spends: seq<Spend>) returns (parts: seq<Bytes>)
    requires forall i :: 0 <= i < |spends| ==> IsTxid(spends[i].txid)
    ensures Concat(parts) == Concat(parts0) + InsBytes(InputsOf(spends))
  {
    parts := parts0;
    for i := 0 to |spends|
      invariant Concat(parts) == Concat(parts0) + InsBytes(InputsOf(spends)[..i])
    {
      var inp := spends[i];
      var txid := ReverseTxid(inp.txid);
      var vout := WriteU32LE(inp.vout);
      var sequence := WriteU32LE(SEQUENCE);
      PushFour(parts, txid[..], vout[..], sequence[..]);
      InputParts(inp);
      assert InputsOf(spends)[..i + 1] == InputsOf(spends)[..i] + [InputOf(inp)];
      InsBytesSnoc(InputsOf(spends)[..i], InputOf(inp));
      Assoc(Concat(parts0), InsBytes(InputsOf(spends)[..i]), InBytes(InputOf(inp)));
      parts := parts + [txid[..]] + [vout[..]] + [[0]] + [sequence[..]];
    }
    assert InputsOf(spends)[..|spends|] == InputsOf(spends);
  }

  lemma InputParts(s: Spend)
    requires IsTxid(s.txid)
    ensures InBytes(InputOf(s)) == Reversed(FromHex(s.txid)) + (LE(s.vout, 4) + ([0] + LE(SEQUENCE, 4)))
  {
    var none: Bytes := [];
    assert VarBytes(none) == [0];
  }

  lemma PushFour(parts: seq<Bytes>, a: Bytes, b: Bytes, c: Bytes)
    ensures Concat(parts + [a] + [b] + [[0]] + [c]) == Concat(parts) + (a + (b + ([0] + c)))
  {
    ConcatSnoc(parts, a);
    ConcatSnoc(parts + [a], b);
    ConcatSnoc(parts + [a] + [b], [0]);
    ConcatSnoc(parts + [a] + [b] + [[0]], c);
    var p := Concat(parts);
    Assoc(p, a, b);
    Assoc(p, a + b, [0]);
    Assoc(p, a + b + [0], c);
    assert a + b + [0] + c == a + (b + ([0] + c));
  }

  /** `parts.push(01, writeVarInt(sig.length), sig)` for each signature. */
  method PushWitnesses(parts0: seq<Bytes>, sigs: seq<Bytes>) returns (r: Option<seq<Bytes>>)
    ensures r.None? <==> exists i :: 0 <= i < |sigs| && TooLong(sigs[i])
    ensures r.Some? ==> Concat(r.value) == Concat(parts0) + WitnessesBytes(WitnessesOf(sigs))
  {
    var parts := parts0;
    for i := 0 to |sigs|
      invariant forall j :: 0 <= j < i ==> !TooLong(sigs[j])
      invariant Concat(parts) == Concat(parts0) + WitnessesBytes(WitnessesOf(sigs)[..i])
    {
      var sig := sigs[i];
      var size := WriteVarInt(|sig|);
      if size.None? {
        assert TooLong(sigs[i]);
        return None;
      }
      PushThree(parts, [1], size.value[..], sig);
      OneMoreWitness(Concat(parts0), sigs, i, size.value[..]);
      parts := parts + [[1]] + [size.value[..]] + [sig];
    }
    assert WitnessesOf(sigs)[..|sigs|] == WitnessesOf(sigs);
    r := Some(parts);
  }

  lemma OneMoreWitness(before: Bytes, sigs: seq<Bytes>, i: nat, size: Bytes)
    requires i < |sigs| && size == VarInt(|sigs[i]|)
    ensures before + WitnessesBytes(WitnessesOf(sigs)[..i]) + ([1] + (size + sigs[i]))
         == before + WitnessesBytes(WitnessesOf(sigs)[..i + 1])
  {
    var w := WitnessesOf(sigs);
    assert w[..i + 1] == w[..i] + [[sigs[i]]];
    WitnessesBytesSnoc(w[..i], [sigs[i]]);
    Assoc(before, WitnessesBytes(w[..i]), VarInt(1) + ItemsBytes([sigs[i]]));
  }

  lemma PushThree(parts: seq<Bytes>, a: Bytes, b: Bytes, c: Bytes)
    ensures Concat(parts + [a] + [b] + [c]) == Concat(parts) + (a + (b + c))
  {
    ConcatSnoc(parts, a);
    ConcatSnoc(parts + [a], b);
    ConcatSnoc(parts + [a] + [b], c);
    var p := Concat(parts);
    Assoc(p, a, b);
    Assoc(p, a + b, c);
    Assoc(a, b, c);
  }

  /** The input scripts are only hashed, but writing their sizes may throw. */
  method SizesFit(spends: seq<Spend>) returns (fit: bool)
    ensures fit <==> forall i :: 0 <= i < |spends| ==> !TooLong(spends[i].scriptPubKey)
  {
    for i := 0 to |spends|
      invariant forall j :: 0 <= j < i ==> !TooLong(spends[j].scriptPubKey)
    {
      var size := WriteVarInt(|spends[i].scriptPubKey|);
      if size.None? {
        assert TooLong(spends[i].scriptPubKey);
        return false;
      }
    }
    return true;
  }

  lemma Assemble(tx: Tx, head: Bytes, ins: Bytes, count: Bytes, outs: Bytes, witnesses: Bytes, end: Bytes)
    requires head == LE(tx.version, 4) + ([0, 1] + VarInt(|tx.ins|)) && ins == InsBytes(tx.ins) && count == VarInt(|tx.outs|)
    requires outs == OutsBytes(tx.outs) && witnesses == WitnessesBytes(tx.witnesses) && end == LE(tx.locktime, 4)
    ensures head + ins + count + outs + witnesses + end == TxBytes(tx)
  {
    var rest := ins + (count + (outs + (witnesses + end)));
    Assoc(head + ins + count + outs, witnesses, end);
    Assoc(head + ins + count, outs, witnesses + end);
    Assoc(head + ins, count, outs + (witnesses + end));
    Assoc(head, ins, count + (outs + (witnesses + end)));
    Assoc(LE(tx.version, 4), [0, 1] + VarInt(|tx.ins|), rest);
    Assoc([0, 1], VarInt(|tx.ins|), rest);
  }

  lemma {:induction false} ConcatAppend(a: seq<Bytes>, b: seq<Bytes>)
    ensures Concat(a + b) == Concat(a) + Concat(b)
  {
    if b == [] {
      assert a + b == a;
    } else {
      var n := |b| - 1;
      assert (a + b)[..|a| + n] == a + b[..n];
      ConcatAppend(a, b[..n]);
      Assoc(Concat(a), Concat(b[..n]), b[n]);
    }
  }

  /** The parts in order, from the version to the locktime. */
  method AllParts(spends: seq<Spend>, outs: seq<TxOut>, serOutputs: seq<Bytes>, sigs: seq<Bytes>) returns (r: Option<seq<Bytes>>)
    requires forall i :: 0 <= i < |spends| ==> IsTxid(spends[i].txid)
    requires Concat(serOutputs) == OutsBytes(outs)
    ensures r.None? <==> |spends| > 0xffff || |outs| > 0xffff || exists i :: 0 <= i < |sigs| && TooLong(sigs[i])
    ensures r.Some? ==> Concat(r.value) == TxBytes(Transaction(spends, outs, sigs))
  {
    var version := WriteU32LE(VERSION);
    var inCount := WriteVarInt(|spends|);
    var outCount := WriteVarInt(|outs|);
    if inCount.None? || outCount.None? {
      return None;
    }
    ThreeParts(version[..], [0, 1], inCount.value[..]);
    var parts := PushInputs([version[..], [0, 1], inCount.value[..]], spends);
    ConcatSnoc(parts, outCount.value[..]);
    parts := parts + [outCount.value[..]];
    ConcatAppend(parts, serOutputs);
    parts := parts + serOutputs;
    var all := PushWitnesses(parts, sigs);
    if all.None? {
      return None;
    }
    var locktime := WriteU32LE(0);
    ConcatSnoc(all.value, locktime[..]);
    ghost var tx := Transaction(spends, outs, sigs);
    Assemble(tx, version[..] + ([0, 1] + inCount.value[..]), InsBytes(tx.ins), outCount.value[..], OutsBytes(outs),
      WitnessesBytes(tx.witnesses), locktime[..]);
    r := Some(all.value + [locktime[..]]);
  }

  /** `buildTransaction(inputs, outputs, key)`; `sign(i)` is the signature for input i. */
  method BuildTransaction(spends: seq<Spend>, outs: seq<TxOut>, sign: nat -> Bytes) returns (r: Option<string>)
    requires forall i :: 0 <= i < |spends| ==> IsTxid(spends[i].txid)
    ensures r.None? <==> Refused(spends, outs, sign)
    ensures r.Some? ==> r.value == ToHex(TxBytes(Transaction(spends, outs, Signatures(sign, |spends|))))
    ensures r.Some? && Fits(spends, outs) ==> Spends(r.value, spends, outs, sign)
  {
    if spends == [] {
      return None;
    }
    var serOutputs := SerialiseOutputs(outs);
    var fit := SizesFit(spends);
    if serOutputs.None? || !fit {
      return None;
    }
    var sigs: seq<Bytes> := [];
    for i := 0 to |spends|
      invariant sigs == Signatures(sign, |spends|)[..i]
    {
      sigs := sigs + [sign(i)];
    }
    assert sigs == Signatures(sign, |spends|);
    assert forall i :: 0 <= i < |spends| ==> sigs[i] == sign(i);
    var parts := AllParts(spends, outs, serOutputs.value, sigs);
    if parts.None? {
      return None;
    }
    var bytes := ConcatBytes(parts.value);
    var hex := BytesToHex(bytes[..]);
    r := Some(hex);
    if Fits(spends, outs) {
      BuiltReadsBack(spends, outs, sign);
    }
  }

  // ---------- what comes back ----------

  lemma ReversedTwice(b: Bytes)
    ensures Reversed(Reversed(b)) == b
  {
  }

  lemma BuiltFits(spends: seq<Spend>, outs: seq<TxOut>, sign: nat -> Bytes)
    requires Fits(spends, outs) && !Refused(spends, outs, sign)
    ensures FitsTx(Transaction(spends, outs, Signatures(sign, |spends|)))
  {
    var tx := Transaction(spends, outs, Signatures(sign, |spends|));
    forall i | 0 <= i < |tx.ins| ensures FitsIn(tx.ins[i]) {
      assert IsTxid(spends[i].txid);
    }
    forall i | 0 <= i < |outs| ensures FitsOut(outs[i]) {
      assert !TooLong(outs[i].script);
    }
    forall i | 0 <= i < |spends| ensures FitsItems(tx.witnesses[i]) {
      assert !TooLong(sign(i)) && tx.witnesses[i] == [sign(i)];
    }
  }

  /** Reading the hex of a built transaction gives back what was asked for. */
  lemma BuiltReadsBack(spends: seq<Spend>, outs: seq<TxOut>, sign: nat -> Bytes)
    requires Fits(spends, outs) && !Refused(spends, outs, sign)
    ensures Spends(ToHex(TxBytes(Transaction(spends, outs, Signatures(sign, |spends|)))), spends, outs, sign)
  {
    var tx := Transaction(spends, outs, Signatures(sign, |spends|));
    BuiltFits(spends, outs, sign);
    ReadTxBytes(tx);
    HexRoundTrip(TxBytes(tx));
    forall i | 0 <= i < |spends| ensures ToHex(Reversed(tx.ins[i].txid)) == spends[i].txid {
      ReversedTwice(FromHex(spends[i].txid));
      TextRoundTrip(spends[i].txid);
    }
  }

  lemma Bytes4(v: nat)
    ensures LE(v, 4) == [v % 256, v / 256 % 256, v / 256 / 256 % 256, v / 256 / 256 / 256 % 256]
  {
    var a, b, c := v / 256, v / 256 / 256, v / 256 / 256 / 256;
    assert LE(c, 1) == [c % 256];
    assert LE(b, 2) == [b % 256] + LE(c, 1);
    assert LE(a, 3) == [a % 256] + LE(b, 2);
  }

  lemma Bytes8(v: nat)
    requires v == 0x0102030405060708
    ensures LE(v, 8) == [8, 7, 6, 5, 4, 3, 2, 1]
  {
    assert LE(1, 1) == [1];
    assert LE(0x0102, 2) == [2] + LE(1, 1);
    assert LE(0x010203, 3) == [3] + LE(0x0102, 2);
    assert LE(0x01020304, 4) == [4] + LE(0x010203, 3);
    assert LE(0x0102030405, 5) == [5] + LE(0x01020304, 4);
    assert LE(0x010203040506, 6) == [6] + LE(0x0102030405, 5);
    assert LE(0x01020304050607, 7) == [7] + LE(0x010203040506, 6);
    assert LE(0x0102030405060708, 8) == [8] + LE(0x01020304050607, 7);
  }

  lemma OneIn(x: TxIn)
    requires x.vout == 1 && x.script == [] && x.sequence == 0xfffffffd
    ensures InsBytes([x]) == x.txid + [1, 0, 0, 0, 0, 0xfd, 0xff, 0xff, 0xff]
  {
    Bytes4(1);
    Bytes4(0xfffffffd);
    assert LE(1, 4) + (VarBytes([]) + LE(0xfffffffd, 4)) == [1, 0, 0, 0, 0, 0xfd, 0xff, 0xff, 0xff];
    assert InsBytes([x]) == InBytes(x);
  }

  lemma OneOut(o: TxOut)
    requires o.amount == 0x0102030405060708 && |o.script| == 300
    ensures OutsBytes([o]) == [8, 7, 6, 5, 4, 3, 2, 1, 0xfd, 0x2c, 1] + o.script
  {
    Bytes8(o.amount);
    assert LE(300, 2) == [0x2c, 1] by {
      assert LE(1, 1) == [1];
    }
    assert LE(o.amount, 8) + VarInt(300) == [8, 7, 6, 5, 4, 3, 2, 1, 0xfd, 0x2c, 1];
    assert OutsBytes([o]) == OutBytes(o);
    Assoc(LE(o.amount, 8), VarInt(300), o.script);
  }

  lemma OneWitness(sig: Bytes)
    requires |sig| == 64
    ensures WitnessesBytes([[sig]]) == [1, 64] + sig
  {
    assert ItemsBytes([sig]) == VarBytes(sig) == [64] + sig;
    assert WitnessesBytes([[sig]]) == [1] + ([64] + sig);
  }

  lemma Layout(version: Bytes, count: Bytes, ins: Bytes, outs: Bytes, witnesses: Bytes, end: Bytes)
    requires version == [2, 0, 0, 0] && count == [1]
    ensures version + ([0, 1] + (count + (ins + (count + (outs + (witnesses + end))))))
         == [2, 0, 0, 0, 0, 1, 1] + ins + [1] + outs + witnesses + end
  {
  }

  /** The bytes of a transaction with one input and one output, as BIP-144 lays them out. */
  lemma OneInOneOut(s: Spend, o: TxOut, sig: Bytes)
    requires IsTxid(s.txid) && s.vout == 1 && o.amount == 0x0102030405060708 && |o.script| == 300 && |sig| == 64
    ensures TxBytes(Transaction([s], [o], [sig])) ==
      [2, 0, 0, 0, 0, 1, 1] + (Reversed(FromHex(s.txid)) + [1, 0, 0, 0, 0, 0xfd, 0xff, 0xff, 0xff])
      + [1] + ([8, 7, 6, 5, 4, 3, 2, 1, 0xfd, 0x2c, 1] + o.script) + ([1, 64] + sig) + [0, 0, 0, 0]
  {
    var tx := Transaction([s], [o], [sig]);
    assert tx.ins == [InputOf(s)] && tx.witnesses == [[sig]];
    OneIn(InputOf(s));
    OneOut(o);
    OneWitness(sig);
    Bytes4(2);
    Bytes4(0);
    Layout(LE(2, 4), VarInt(1), InsBytes(tx.ins), OutsBytes([o]), WitnessesBytes(tx.witnesses), LE(0, 4));
  }

  lemma HexText()
    ensures ToHex([0x01, 0x9a, 0xbf]) == "019abf"
  {
    assert ToHex([0xbf]) == "bf" && ToHex([0x9a, 0xbf]) == "9abf";
  }
}
