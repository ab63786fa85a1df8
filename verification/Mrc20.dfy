/**
 MRC20 state verification (src/mrc20.js): hash links between states and the deposit check.
 SHA-256 of a string, in hex, is a parameter.
 */
module Mrc20 {
  import opened JsText
  import opened OrderedMap
  import opened Jcs
  import opened JcsLaws

  type Hash = JsString -> JsString

  datatype Failure =
    | MissingState | ChainBreak | SequenceMismatch
    | NotAnObject | WrongProfile | NoOps | NoPrev | NoTransfers

  datatype Verdict = Valid | Invalid(reason: Failure)

  datatype Deposit = Accepted(amount: int, ticker: Json) | Rejected(reason: Failure)

  const PROFILE := U("mono.mrc20.v0.1")
  const TRANSFER_OP := U("urn:mono:op:transfer")

  /** `v[key]`, with None for `undefined`. */
  function Field(v: Json, key: JsString): Option<Json> {
    if v.Obj? then Get(v.fields, key) else None
  }

  predicate Falsy(v: Json) {
    v == Null || v == Bool(false) || v == Num(0) || v == Str([])
  }

  function VerifyStateLink(hash: Hash, state: Json, prevState: Json): Verdict {
    if Falsy(state) || Falsy(prevState) then Invalid(MissingState)
    else if Field(state, U("prev")) != Some(Str(hash(Jcs.Jcs(prevState)))) then Invalid(ChainBreak)
    else
      match (Field(state, U("seq")), Field(prevState, U("seq")))
      case (Some(Num(n)), Some(Num(p))) => if n == p + 1 then Valid else Invalid(SequenceMismatch)
      case _ => Valid
  }

  function ValidateState(state: Json): Verdict {
    if Falsy(state) || !(state.Obj? || state.Arr?) then Invalid(NotAnObject)
    else if Field(state, U("profile")) != Some(Str(PROFILE)) then Invalid(WrongProfile)
    else if !(Field(state, U("ops")).Some? && Field(state, U("ops")).value.Arr?) then Invalid(NoOps)
    else if !(Field(state, U("prev")).Some? && Field(state, U("prev")).value.Str?) then Invalid(NoPrev)
    else Valid
  }

  /** The positive amount an op transfers to an address, or 0. */
  function TransferredBy(op: Json, toAddress: JsString): (amt: nat) {
    if Field(op, U("op")) == Some(Str(TRANSFER_OP)) && Field(op, U("to")) == Some(Str(toAddress)) then
      match Field(op, U("amt"))
      case Some(Num(n)) => if n > 0 then n else 0
      case _ => 0
    else 0
  }

  function SumTransfers(ops: seq<Json>, toAddress: JsString): nat {
    if ops == [] then 0 else TransferredBy(ops[0], toAddress) + SumTransfers(ops[1..], toAddress)
  }

  function TotalTransferredTo(state: Json, toAddress: JsString): nat {
    match Field(state, U("ops"))
    case Some(Arr(ops)) => SumTransfers(ops, toAddress)
    case _ => 0
  }

  function VerifyDeposit(hash: Hash, state: Json, prevState: Json, toAddress: JsString): Deposit {
    if ValidateState(state).Invalid? then Rejected(ValidateState(state).reason)
    else if ValidateState(prevState).Invalid? then Rejected(ValidateState(prevState).reason)
    else if VerifyStateLink(hash, state, prevState).Invalid? then
      Rejected(VerifyStateLink(hash, state, prevState).reason)
    else
      var amount := TotalTransferredTo(state, toAddress);
      if amount <= 0 then Rejected(NoTransfers)
      else
        var ticker := Field(state, U("ticker"));
        Accepted(amount, if ticker.Some? && !Falsy(ticker.value) then ticker.value else Str(U("UNKNOWN")))
  }

  // ---------- what a deposit has to show ----------

  /** An MRC20 state: an object with the profile, a list of operations and a text for its predecessor's hash. */
  predicate IsState(v: Json) {
    && Field(v, U("profile")) == Some(Str(U("mono.mrc20.v0.1")))
    && Field(v, U("ops")).Some? && Field(v, U("ops")).value.Arr?
    && Field(v, U("prev")).Some? && Field(v, U("prev")).value.Str?
  }

  /** The state names the hash of the other's canonical text, and numbers, where both have one, follow. */
  predicate Follows(hash: Hash, state: Json, prev: Json) {
    && Field(state, U("prev")) == Some(Str(hash(Jcs.Jcs(prev))))
    && var a, b := Field(state, U("seq")), Field(prev, U("seq"));
    a.Some? && a.value.Num? && b.Some? && b.value.Num? ==> a.value.n == b.value.n + 1
  }

  /** Operation i transfers a positive amount to the address. */
  predicate TransfersTo(state: Json, i: nat, to: JsString)
    requires IsState(state) && i < |Field(state, U("ops")).value.items|
  {
    var op := Field(state, U("ops")).value.items[i];
    && Field(op, U("op")) == Some(Str(U("urn:mono:op:transfer"))) && Field(op, U("to")) == Some(Str(to))
    && var amt := Field(op, U("amt"));
    amt.Some? && amt.value.Num? && amt.value.n > 0
  }

  lemma {:induction false} PositiveSum(ops: seq<Json>, to: JsString)
    ensures SumTransfers(ops, to) > 0 <==> exists i :: 0 <= i < |ops| && TransferredBy(ops[i], to) > 0
  {
    if ops != [] {
      PositiveSum(ops[1..], to);
      if i :| 0 <= i < |ops| && TransferredBy(ops[i], to) > 0 && i > 0 {
        assert ops[1..][i - 1] == ops[i];
      }
      if i :| 0 <= i < |ops[1..]| && TransferredBy(ops[1..][i], to) > 0 {
        assert ops[i + 1] == ops[1..][i];
      }
    }
  }

  /** A deposit is accepted exactly when both states are states, one follows the other, and some operation pays the address. */
  lemma DepositAcceptedIff(hash: Hash, state: Json, prev: Json, to: JsString)
    ensures VerifyDeposit(hash, state, prev, to).Accepted? <==>
      && IsState(state) && IsState(prev) && Follows(hash, state, prev)
      && exists i :: 0 <= i < |Field(state, U("ops")).value.items| && TransfersTo(state, i, to)
  {
    assert IsState(state) <==> ValidateState(state) == Valid;
    assert IsState(prev) <==> ValidateState(prev) == Valid;
    if IsState(state) && IsState(prev) {
      var ops := Field(state, U("ops")).value.items;
      PositiveSum(ops, to);
      assert forall i :: 0 <= i < |ops| ==> (TransferredBy(ops[i], to) > 0 <==> TransfersTo(state, i, to));
    }
  }

  // ---------- a chain is fixed by its last state ----------

  ghost predicate Linked(hash: Hash, chain: seq<Json>) {
    forall i :: 0 < i < |chain| ==> VerifyStateLink(hash, chain[i], chain[i - 1]) == Valid
  }

  ghost predicate Injective(hash: Hash) {
    forall x, y :: hash(x) == hash(y) ==> x == y
  }

  lemma SameField(a: Json, b: Json, key: JsString, s: JsString)
    requires WellFormed(a) && WellFormed(b) && Same(a, b)
    requires Field(a, key) == Some(Str(s))
    ensures Field(b, key) == Some(Str(s))
  {
    HasIsMember(a.fields, key);
    var i :| 0 <= i < |a.fields| && a.fields[i].0 == key;
    GetMember(a.fields, i);
    assert Same(a.fields[i].1, Get(b.fields, a.fields[i].0).value);
  }

  /** Equal states have equal predecessors. */
  lemma SamePredecessor(hash: Hash, v: Json, w: Json, p: Json, q: Json)
    requires Injective(hash) && WellFormed(v) && WellFormed(w) && WellFormed(p) && WellFormed(q) && Same(v, w)
    requires VerifyStateLink(hash, v, p) == Valid && VerifyStateLink(hash, w, q) == Valid
    ensures Same(p, q)
  {
    SameField(v, w, U("prev"), hash(Jcs.Jcs(p)));
    JcsIffSame(p, q);
  }

  /** Two hash-linked chains with the same last state agree, counted from the end, as far as both go. */
  lemma {:induction false} ChainFixedByLast(hash: Hash, a: seq<Json>, b: seq<Json>, back: nat)
    requires Injective(hash) && Linked(hash, a) && Linked(hash, b)
    requires forall v :: v in a || v in b ==> WellFormed(v)
    requires back < |a| && back < |b|
    requires Same(a[|a| - 1], b[|b| - 1])
    ensures Same(a[|a| - 1 - back], b[|b| - 1 - back])
  {
    if back > 0 {
      ChainFixedByLast(hash, a, b, back - 1);
      var i, j := |a| - back, |b| - back;
      SamePredecessor(hash, a[i], b[j], a[i - 1], b[j - 1]);
    }
  }

  /** A state whose `prev` is not a digest has no predecessor: the chain starts there. */
  lemma StartsChain(hash: Hash, chain: seq<Json>, i: nat, zero: JsString)
    requires Linked(hash, chain) && i < |chain|
    requires Field(chain[i], U("prev")) == Some(Str(zero)) && forall x :: hash(x) != zero
    ensures i == 0
  {
    assert i > 0 ==> VerifyStateLink(hash, chain[i], chain[i - 1]) == Valid;
  }

  /** Chains from a genesis state are the same chain when their last states are the same value. */
  lemma ChainFromGenesisFixed(hash: Hash, a: seq<Json>, b: seq<Json>, zero: JsString)
    requires Injective(hash) && Linked(hash, a) && Linked(hash, b)
    requires forall v :: v in a || v in b ==> WellFormed(v)
    requires |a| > 0 && |b| > 0 && Same(a[|a| - 1], b[|b| - 1])
    requires Field(a[0], U("prev")) == Some(Str(zero)) && Field(b[0], U("prev")) == Some(Str(zero))
    requires forall x :: hash(x) != zero
    ensures |a| == |b| && forall i :: 0 <= i < |a| ==> Same(a[i], b[i])
  {
    if |a| <= |b| {
      ChainFixedByLast(hash, a, b, |a| - 1);
      SameField(a[0], b[|b| - |a|], U("prev"), zero);
      StartsChain(hash, b, |b| - |a|, zero);
    } else {
      ChainFixedByLast(hash, b, a, |b| - 1) by { SameIsSymmetric(a[|a| - 1], b[|b| - 1]); }
      SameField(b[0], a[|a| - |b|], U("prev"), zero);
      StartsChain(hash, a, |a| - |b|, zero);
      assert false;
    }
    forall i | 0 <= i < |a| ensures Same(a[i], b[i]) {
      ChainFixedByLast(hash, a, b, |a| - 1 - i);
    }
  }

  lemma SameIsSymmetric(a: Json, b: Json)
    requires WellFormed(a) && WellFormed(b) && Same(a, b)
    ensures Same(b, a)
  {
    SameIffCanon(a, b);
    SameIffCanon(b, a);
  }
}
