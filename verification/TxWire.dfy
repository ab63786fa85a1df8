/**
 Serialising a signed Bitcoin transaction (`buildTransaction` in src/token.js) in the witness format
 of BIP-144: version, marker and flag, inputs, outputs, one signature per input, locktime; sizes as
 variable-length integers, numbers with the low byte first. A reader of that format recovers every
 field, which is what the format is for.
 */
module TxWire {
  import opened JsBits
  import opened OrderedMap

  type Byte = n: int | 0 <= n < 256
  type Bytes = seq<Byte>

  // ---------- the format ----------

  /** n bytes, least significant first. */
  function LE(v: nat, n: nat): (r: Bytes)
    ensures |r| == n
  {
    if n == 0 then [] else [v % 256] + LE(v / 256, n - 1)
  }

  function FromLE(b: Bytes): nat {
    if b == [] then 0 else b[0] + 256 * FromLE(b[1..])
  }

  /** The sizes this program writes: one byte, or 0xfd and two bytes. */
  function VarInt(v: nat): Bytes {
    if v < 0xfd then [v] else [0xfd] + LE(v, 2)
  }

  function VarBytes(b: Bytes): Bytes {
    VarInt(|b|) + b
  }

  datatype TxIn = TxIn(txid: Bytes, vout: nat, script: Bytes, sequence: nat)
  datatype TxOut = TxOut(amount: nat, script: Bytes)
  datatype Tx = Tx(version: nat, ins: seq<TxIn>, outs: seq<TxOut>, witnesses: seq<seq<Bytes>>, locktime: nat)

  function InBytes(i: TxIn): Bytes {
    i.txid + (LE(i.vout, 4) + (VarBytes(i.script) + LE(i.sequence, 4)))
  }

  function OutBytes(o: TxOut): Bytes {
    LE(o.amount, 8) + VarBytes(o.script)
  }

  function InsBytes(ins: seq<TxIn>): Bytes {
    if ins == [] then [] else InBytes(ins[0]) + InsBytes(ins[1..])
  }

  function OutsBytes(outs: seq<TxOut>): Bytes {
    if outs == [] then [] else OutBytes(outs[0]) + OutsBytes(outs[1..])
  }

  function ItemsBytes(items: seq<Bytes>): Bytes {
    if items == [] then [] else VarBytes(items[0]) + ItemsBytes(items[1..])
  }

  function WitnessesBytes(w: seq<seq<Bytes>>): Bytes {
    if w == [] then [] else VarInt(|w[0]|) + (ItemsBytes(w[0]) + WitnessesBytes(w[1..]))
  }

  function TxBytes(tx: Tx): Bytes {
    LE(tx.version, 4) + ([0, 1] + (VarInt(|tx.ins|) + (InsBytes(tx.ins) + (VarInt(|tx.outs|)
      + (OutsBytes(tx.outs) + (WitnessesBytes(tx.witnesses) + LE(tx.locktime, 4)))))))
  }

  // ---------- a reader ----------

  function Take(b: Bytes, n: nat): Option<(Bytes, Bytes)> {
    if |b| < n then None else Some((b[..n], b[n..]))
  }

  function ReadLE(b: Bytes, n: nat): Option<(nat, Bytes)> {
    if |b| < n then None else Some((FromLE(b[..n]), b[n..]))
  }

  function ReadVarInt(b: Bytes): Option<(nat, Bytes)> {
    if b == [] then None
    else if b[0] < 0xfd then Some((b[0], b[1..]))
    else ReadLE(b[1..], if b[0] == 0xfd then 2 else if b[0] == 0xfe then 4 else 8)
  }

  function ReadVarBytes(b: Bytes): Option<(Bytes, Bytes)> {
    match ReadVarInt(b)
    case None => None
    case Some((n, rest)) => Take(rest, n)
  }

  function ReadIn(b: Bytes): Option<(TxIn, Bytes)> {
    match Take(b, 32)
    case None => None
    case Some((txid, b1)) =>
      match ReadLE(b1, 4)
      case None => None
      case Some((vout, b2)) =>
        match ReadVarBytes(b2)
        case None => None
        case Some((script, b3)) =>
          match ReadLE(b3, 4)
          case None => None
          case Some((sequence, b4)) => Some((TxIn(txid, vout, script, sequence), b4))
  }

  function ReadOut(b: Bytes): Option<(TxOut, Bytes)> {
    match ReadLE(b, 8)
    case None => None
    case Some((amount, b1)) =>
      match ReadVarBytes(b1)
      case None => None
      case Some((script, b2)) => Some((TxOut(amount, script), b2))
  }

  function ReadIns(b: Bytes, n: nat): Option<(seq<TxIn>, Bytes)> {
    if n == 0 then Some(([], b))
    else match ReadIn(b)
      case None => None
      case Some((x, b1)) =>
        match ReadIns(b1, n - 1)
        case None => None
        case Some((xs, b2)) => Some(([x] + xs, b2))
  }

  function ReadOuts(b: Bytes, n: nat): Option<(seq<TxOut>, Bytes)> {
    if n == 0 then Some(([], b))
    else match ReadOut(b)
      case None => None
      case Some((x, b1)) =>
        match ReadOuts(b1, n - 1)
        case None => None
        case Some((xs, b2)) => Some(([x] + xs, b2))
  }

  function ReadItems(b: Bytes, n: nat): Option<(seq<Bytes>, Bytes)> {
    if n == 0 then Some(([], b))
    else match ReadVarBytes(b)
      case None => None
      case Some((x, b1)) =>
        match ReadItems(b1, n - 1)
        case None => None
        case Some((xs, b2)) => Some(([x] + xs, b2))
  }

  /** One witness per input. */
  function ReadWitnesses(b: Bytes, n: nat): Option<(seq<seq<Bytes>>, Bytes)>
    decreases n
  {
    if n == 0 then Some(([], b))
    else match ReadVarInt(b)
      case None => None
      case Some((count, b1)) =>
        match ReadItems(b1, count)
        case None => None
        case Some((x, b2)) =>
          match ReadWitnesses(b2, n - 1)
          case None => None
          case Some((xs, b3)) => Some(([x] + xs, b3))
  }

  /** The counted parts: inputs, outputs, and a witness for each input. */
  function ReadBody(b: Bytes): Option<(seq<TxIn>, seq<TxOut>, seq<seq<Bytes>>, Bytes)> {
    match ReadVarInt(b)
    case None => None
    case Some((inCount, b1)) =>
      match ReadIns(b1, inCount)
      case None => None
      case Some((ins, b2)) =>
        match ReadVarInt(b2)
        case None => None
        case Some((outCount, b3)) =>
          match ReadOuts(b3, outCount)
          case None => None
          case Some((outs, b4)) =>
            match ReadWitnesses(b4, inCount)
            case None => None
            case Some((witnesses, b5)) => Some((ins, outs, witnesses, b5))
  }

  function ReadTx(b: Bytes): Option<Tx> {
    match ReadLE(b, 4)
    case None => None
    case Some((version, b1)) =>
      if |b1| < 2 || b1[0] != 0 || b1[1] != 1 then None
      else match ReadBody(b1[2..])
        case None => None
        case Some((ins, outs, witnesses, b2)) =>
          if |b2| != 4 then None else Some(Tx(version, ins, outs, witnesses, FromLE(b2)))
  }

  // ---------- reading back what was written ----------

  function Pow256(n: nat): nat {
    if n == 0 then 1 else 256 * Pow256(n - 1)
  }

  lemma {:induction false} FromLEOf(v: nat, n: nat)
    requires v < Pow256(n)
    ensures FromLE(LE(v, n)) == v
  {
    if n > 0 {
      FromLEOf(v / 256, n - 1);
      assert LE(v, n)[1..] == LE(v / 256, n - 1);
    }
  }

  lemma Powers256()
    ensures Pow256(2) == 0x1_0000 && Pow256(4) == 0x1_0000_0000 && Pow256(8) == 0x1_0000_0000_0000_0000
  {
    assert Pow256(2) == 256 * Pow256(1) && Pow256(4) == 256 * Pow256(3) && Pow256(3) == 256 * Pow256(2);
    assert Pow256(6) == 256 * Pow256(5) && Pow256(5) == 256 * Pow256(4);
    assert Pow256(8) == 256 * Pow256(7) && Pow256(7) == 256 * Pow256(6);
  }

  lemma ReadLEOf(v: nat, n: nat, rest: Bytes)
    requires v < Pow256(n)
    ensures ReadLE(LE(v, n) + rest, n) == Some((v, rest))
  {
    FromLEOf(v, n);
    assert (LE(v, n) + rest)[..n] == LE(v, n) && (LE(v, n) + rest)[n..] == rest;
  }

  lemma ReadVarIntOf(v: nat, rest: Bytes)
    requires v <= 0xffff
    ensures ReadVarInt(VarInt(v) + rest) == Some((v, rest))
  {
    if v < 0xfd {
      assert ([v] + rest)[1..] == rest;
    } else {
      Powers256();
      var b := [0xfd] + LE(v, 2) + rest;
      assert b[0] == 0xfd && b[1..] == LE(v, 2) + rest;
      ReadLEOf(v, 2, rest);
    }
  }

  lemma Assoc(a: Bytes, b: Bytes, c: Bytes)
    ensures (a + b) + c == a + (b + c)
  {
  }

  lemma TakeOf(a: Bytes, rest: Bytes)
    ensures Take(a + rest, |a|) == Some((a, rest))
  {
  }

  lemma ReadVarBytesOf(s: Bytes, rest: Bytes)
    requires |s| <= 0xffff
    ensures ReadVarBytes(VarBytes(s) + rest) == Some((s, rest))
  {
    Assoc(VarInt(|s|), s, rest);
    ReadVarIntOf(|s|, s + rest);
    TakeOf(s, rest);
  }

  predicate FitsIn(i: TxIn) {
    |i.txid| == 32 && i.vout < 0x1_0000_0000 && |i.script| <= 0xffff && i.sequence < 0x1_0000_0000
  }

  predicate FitsOut(o: TxOut) {
    o.amount < 0x1_0000_0000_0000_0000 && |o.script| <= 0xffff
  }

  predicate FitsItems(items: seq<Bytes>) {
    |items| <= 0xffff && forall k :: 0 <= k < |items| ==> |items[k]| <= 0xffff
  }

  lemma ReadInOf(i: TxIn, rest: Bytes)
    requires FitsIn(i)
    ensures ReadIn(InBytes(i) + rest) == Some((i, rest))
  {
    Powers256();
    var s, q := VarBytes(i.script), LE(i.sequence, 4);
    Assoc(i.txid, LE(i.vout, 4) + (s + q), rest);
    Assoc(LE(i.vout, 4), s + q, rest);
    Assoc(s, q, rest);
    TakeOf(i.txid, LE(i.vout, 4) + (s + (q + rest)));
    ReadLEOf(i.vout, 4, s + (q + rest));
    ReadVarBytesOf(i.script, q + rest);
    ReadLEOf(i.sequence, 4, rest);
  }

  lemma ReadOutOf(o: TxOut, rest: Bytes)
    requires FitsOut(o)
    ensures ReadOut(OutBytes(o) + rest) == Some((o, rest))
  {
    Powers256();
    Assoc(LE(o.amount, 8), VarBytes(o.script), rest);
    ReadLEOf(o.amount, 8, VarBytes(o.script) + rest);
    ReadVarBytesOf(o.script, rest);
  }

  lemma {:induction false} ReadInsOf(ins: seq<TxIn>, rest: Bytes)
    requires forall k :: 0 <= k < |ins| ==> FitsIn(ins[k])
    ensures ReadIns(InsBytes(ins) + rest, |ins|) == Some((ins, rest))
  {
    if ins == [] {
      assert [] + rest == rest;
    } else {
      Assoc(InBytes(ins[0]), InsBytes(ins[1..]), rest);
      ReadInOf(ins[0], InsBytes(ins[1..]) + rest);
      ReadInsOf(ins[1..], rest);
      assert [ins[0]] + ins[1..] == ins;
    }
  }

  lemma {:induction false} ReadOutsOf(outs: seq<TxOut>, rest: Bytes)
    requires forall k :: 0 <= k < |outs| ==> FitsOut(outs[k])
    ensures ReadOuts(OutsBytes(outs) + rest, |outs|) == Some((outs, rest))
  {
    if outs == [] {
      assert [] + rest == rest;
    } else {
      Assoc(OutBytes(outs[0]), OutsBytes(outs[1..]), rest);
      ReadOutOf(outs[0], OutsBytes(outs[1..]) + rest);
      ReadOutsOf(outs[1..], rest);
      assert [outs[0]] + outs[1..] == outs;
    }
  }

  lemma {:induction false} ReadItemsOf(items: seq<Bytes>, rest: Bytes)
    requires forall k :: 0 <= k < |items| ==> |items[k]| <= 0xffff
    ensures ReadItems(ItemsBytes(items) + rest, |items|) == Some((items, rest))
  {
    if items == [] {
      assert [] + rest == rest;
    } else {
      Assoc(VarBytes(items[0]), ItemsBytes(items[1..]), rest);
      ReadVarBytesOf(items[0], ItemsBytes(items[1..]) + rest);
      ReadItemsOf(items[1..], rest);
      assert [items[0]] + items[1..] == items;
    }
  }

  lemma {:induction false} ReadWitnessesOf(w: seq<seq<Bytes>>, rest: Bytes)
    requires forall k :: 0 <= k < |w| ==> FitsItems(w[k])
    ensures ReadWitnesses(WitnessesBytes(w) + rest, |w|) == Some((w, rest))
  {
    if w == [] {
      assert [] + rest == rest;
    } else {
      var items, more := ItemsBytes(w[0]), WitnessesBytes(w[1..]);
      Assoc(VarInt(|w[0]|), items + more, rest);
      Assoc(items, more, rest);
      ReadVarIntOf(|w[0]|, items + (more + rest));
      ReadItemsOf(w[0], more + rest);
      ReadWitnessesOf(w[1..], rest);
      assert [w[0]] + w[1..] == w;
    }
  }

  /** A transaction whose every field fits its place in the format. */
  predicate FitsTx(tx: Tx) {
    && tx.version < 0x1_0000_0000 && tx.locktime < 0x1_0000_0000
    && |tx.ins| <= 0xffff && |tx.outs| <= 0xffff && |tx.witnesses| == |tx.ins|
    && (forall k :: 0 <= k < |tx.ins| ==> FitsIn(tx.ins[k]))
    && (forall k :: 0 <= k < |tx.outs| ==> FitsOut(tx.outs[k]))
    && (forall k :: 0 <= k < |tx.witnesses| ==> FitsItems(tx.witnesses[k]))
  }

  function BodyBytes(tx: Tx): Bytes {
    VarInt(|tx.ins|) + (InsBytes(tx.ins) + (VarInt(|tx.outs|) + (OutsBytes(tx.outs) + (WitnessesBytes(tx.witnesses) + LE(tx.locktime, 4)))))
  }

  lemma ReadBodyOf(tx: Tx)
    requires FitsTx(tx)
    ensures ReadBody(BodyBytes(tx)) == Some((tx.ins, tx.outs, tx.witnesses, LE(tx.locktime, 4)))
  {
    var end := LE(tx.locktime, 4);
    var b4 := WitnessesBytes(tx.witnesses) + end;
    var b3 := OutsBytes(tx.outs) + b4;
    var b2 := VarInt(|tx.outs|) + b3;
    ReadVarIntOf(|tx.ins|, InsBytes(tx.ins) + b2);
    ReadInsOf(tx.ins, b2);
    ReadVarIntOf(|tx.outs|, b3);
    ReadOutsOf(tx.outs, b4);
    ReadWitnessesOf(tx.witnesses, end);
  }

  /** The reader recovers every field of a transaction from its bytes. */
  lemma ReadTxBytes(tx: Tx)
    requires FitsTx(tx)
    ensures ReadTx(TxBytes(tx)) == Some(tx)
  {
    Powers256();
    var mark: Bytes := [0, 1];
    var b1 := mark + BodyBytes(tx);
    assert TxBytes(tx) == LE(tx.version, 4) + b1;
    ReadLEOf(tx.version, 4, b1);
    assert b1[2..] == BodyBytes(tx) && b1[0] == 0 && b1[1] == 1;
    ReadBodyOf(tx);
    FromLEOf(tx.locktime, 4);
  }
}
