/**
 What every reachable token trail satisfies, and what a transfer proves to a verifier.
 */
module TokenTrailLaws {
  import opened JsText
  import opened OrderedMap
  import opened Jcs
  import opened JcsLaws
  import opened Mrc20
  import opened TokenBalances
  import opened TokenTrail

  // ---------- what the JSON of a state says ----------

  lemma StateKeysDiffer()
    ensures U("profile")[0] == 112 && U("prev")[0] == 112 && U("name")[0] == 110
    ensures U("supply")[0] == 115 && U("ticker")[0] == 116 && U("seq")[0] == 115 && U("ops")[0] == 111
    ensures U("balances")[0] == 98 && U("decimals")[0] == 100
  {
  }

  lemma StateKeysDistinct(s: TokenState)
    ensures Distinct(ToJson(s).fields)
  {
    StateKeysDiffer();
  }

  lemma StateFields(s: TokenState)
    ensures Field(ToJson(s), U("profile")) == Some(Str(PROFILE))
    ensures Field(ToJson(s), U("prev")) == Some(Str(s.prev))
    ensures Field(ToJson(s), U("seq")) == Some(Num(s.seqNo))
    ensures Field(ToJson(s), U("ticker")) == Some(Str(s.ticker))
    ensures Field(ToJson(s), U("ops")) == Some(Arr(OpsJson(s.ops)))
  {
    var f := ToJson(s).fields;
    StateKeysDistinct(s);
    GetMember(f, 0);
    GetMember(f, 1);
    GetMember(f, 2);
    GetMember(f, 3);
    GetMember(f, 8);
  }

  lemma OpFields(op: TransferOp)
    ensures Distinct(OpJson(op).fields) && WellFormed(OpJson(op))
    ensures Field(OpJson(op), U("op")) == Some(Str(TRANSFER_OP))
    ensures Field(OpJson(op), U("to")) == Some(Str(op.to))
    ensures Field(OpJson(op), U("amt")) == Some(Num(op.amt))
  {
    var f := OpJson(op).fields;
    assert U("op")[0] == 111 && U("to")[0] == 116;
    assert Distinct(f);
    GetMember(f, 0);
    GetMember(f, 2);
    GetMember(f, 3);
  }

  lemma StateWellFormed(s: TokenState)
    requires Distinct(s.balances)
    ensures WellFormed(ToJson(s))
  {
    StateKeysDistinct(s);
    var b := BalancesJson(s.balances);
    assert Distinct(b);
    assert WellFormed(Obj(b));
    forall i | 0 <= i < |s.ops| ensures WellFormed(OpsJson(s.ops)[i]) {
      OpsJsonAt(s.ops, i);
      OpFields(s.ops[i]);
    }
    assert WellFormed(Arr(OpsJson(s.ops)));
  }

  lemma {:induction false} OpsJsonAt(ops: seq<TransferOp>, i: nat)
    requires i < |ops|
    ensures OpsJson(ops)[i] == OpJson(ops[i])
  {
    if i > 0 {
      OpsJsonAt(ops[1..], i - 1);
    }
  }

  /** A state that records the hash of its predecessor and the next number passes the link check. */
  lemma LinkPasses(hash: Hash, next: TokenState, current: TokenState)
    requires next.prev == hash(Jcs.Jcs(ToJson(current))) && next.seqNo == current.seqNo + 1
    ensures VerifyStateLink(hash, ToJson(next), ToJson(current)) == Valid
  {
    StateFields(next);
    StateFields(current);
  }

  lemma NextStateLinks(hash: Hash, t: Trail, from: JsString, to: JsString, amount: int)
    requires |t.states| == |t.stateStrings| > 0 && TextOk(t, |t.states| - 1)
    ensures VerifyStateLink(hash, ToJson(NextState(hash, t, from, to, amount)), ToJson(t.states[|t.states| - 1])) == Valid
  {
    LinkPasses(hash, NextState(hash, t, from, to, amount), t.states[|t.states| - 1]);
  }

  lemma StateIsValid(s: TokenState)
    ensures ValidateState(ToJson(s)) == Valid
  {
    StateFields(s);
  }

  lemma OneTransfer(s: TokenState, op: TransferOp, who: JsString)
    requires s.ops == [op]
    ensures TotalTransferredTo(ToJson(s), who) == if who == op.to && op.amt > 0 then op.amt else 0
  {
    StateFields(s);
    OpFields(op);
    assert OpsJson(s.ops) == [OpJson(op)];
    assert SumTransfers(OpsJson(s.ops), who) == TransferredBy(OpJson(op), who);
  }

  /**
   The proof a transfer hands out is worth exactly the amount sent, to its recipient only;
   a transfer of nothing proves nothing.
   */
  lemma DepositIsExact(hash: Hash, t: Trail, from: JsString, to: JsString, amount: int, who: JsString)
    requires TrailOk(hash, t)
    ensures var current := t.states[|t.states| - 1];
      VerifyDeposit(hash, ToJson(NextState(hash, t, from, to, amount)), ToJson(current), who) ==
      if who == to && amount > 0
      then Accepted(amount, if t.ticker == [] then Str(U("UNKNOWN")) else Str(t.ticker))
      else Rejected(NoTransfers)
  {
    var current := t.states[|t.states| - 1];
    var next := NextState(hash, t, from, to, amount);
    assert TextOk(t, |t.states| - 1);
    StateIsValid(next);
    StateIsValid(current);
    NextStateLinks(hash, t, from, to, amount);
    OneTransfer(next, TransferOp(Sender(t, from), to, amount), who);
    assert Field(ToJson(next), U("ticker")) == Some(Str(t.ticker)) by {
      StateFields(next);
    }
  }

  // ---------- whole runs ----------

  datatype Request =
    | MintRequest(ticker: JsString, name: JsString, supply: int, pubkeyBase: JsString, voucherAmount: int, net: Network)
    | TransferRequest(from: JsString, to: JsString, amount: int, net: Network)

  function Step(hash: Hash, trail: Option<Trail>, r: Request): (after: Option<Trail>)
    requires trail.Some? ==> trail.value.states != [] && trail.value.stateStrings != []
    ensures after.Some? ==> after.value.states != [] && after.value.stateStrings != []
  {
    match r
    case MintRequest(ticker, name, supply, pub, voucher, net) => Mint(trail, ticker, name, supply, pub, voucher, net).0
    case TransferRequest(from, to, amount, net) => Transfer(hash, trail, from, to, amount, net).0
  }

  /** The trail is sound, was minted from a voucher of the given value, and paid one fee per state. */
  ghost predicate Sound(hash: Hash, t: Trail, voucher: int) {
    TrailOk(hash, t) && t.currentAmount == voucher - FEE * |t.states|
  }

  lemma MintIsSound(hash: Hash, r: Request)
    requires r.MintRequest? && Step(hash, None, r).Some?
    ensures Sound(hash, Step(hash, None, r).value, r.voucherAmount)
  {
    var t := Step(hash, None, r).value;
    assert StateOk(t, 0) && TextOk(t, 0);
  }

  /** The new state is numbered, has its text, and its balances are moved by the transfer it records. */
  lemma NewStateOk(hash: Hash, t: Trail, from: JsString, to: JsString, amount: int, txid: JsString)
    requires TrailOk(hash, t) && !Below(Read(t.states[|t.states| - 1].balances, Sender(t, from)), amount)
    ensures var t', n := Extended(t, NextState(hash, t, from, to, amount), txid), |t.states|;
      StateOk(t', n) && TextOk(t', n) && MoveOk(t', n)
  {
    assert StateOk(t, |t.states| - 1);
    MovedDistinct(t.states[|t.states| - 1].balances, Sender(t, from), to, amount);
  }

  lemma LinkCarries(hash: Hash, t: Trail, i: nat, next: TokenState, last: TokenState)
    requires 0 < i < |t.states| && t.states[i] == next && t.states[i - 1] == last
    requires VerifyStateLink(hash, ToJson(next), ToJson(last)) == Valid
    ensures LinkOk(hash, t, i)
  {
  }

  lemma NewStateLinked(hash: Hash, t: Trail, from: JsString, to: JsString, amount: int, txid: JsString)
    requires |t.states| == |t.stateStrings| > 0 && TextOk(t, |t.states| - 1)
    ensures LinkOk(hash, Extended(t, NextState(hash, t, from, to, amount), txid), |t.states|)
  {
    var n, next := |t.states|, NextState(hash, t, from, to, amount);
    NextStateLinks(hash, t, from, to, amount);
    LinkCarries(hash, Extended(t, next, txid), n, next, t.states[n - 1]);
  }

  lemma OldStatesOk(hash: Hash, t: Trail, s: TokenState, txid: JsString, i: nat)
    requires TrailOk(hash, t) && i < |t.states|
    ensures var t' := Extended(t, s, txid);
      StateOk(t', i) && TextOk(t', i) && (i > 0 ==> MoveOk(t', i) && LinkOk(hash, t', i))
  {
    assert StateOk(t, i) && TextOk(t, i);
    assert i > 0 ==> MoveOk(t, i) && LinkOk(hash, t, i);
  }

  lemma ExtendedIsOk(hash: Hash, t: Trail, from: JsString, to: JsString, amount: int, txid: JsString)
    requires TrailOk(hash, t) && !Below(Read(t.states[|t.states| - 1].balances, Sender(t, from)), amount)
    requires t.currentAmount - FEE > DUST
    ensures TrailOk(hash, Extended(t, NextState(hash, t, from, to, amount), txid))
  {
    var next := NextState(hash, t, from, to, amount);
    var t' := Extended(t, next, txid);
    NewStateOk(hash, t, from, to, amount, txid);
    assert TextOk(t, |t.states| - 1);
    NewStateLinked(hash, t, from, to, amount, txid);
    forall i | 0 <= i < |t'.states|
      ensures StateOk(t', i) && TextOk(t', i) && (i > 0 ==> MoveOk(t', i) && LinkOk(hash, t', i))
    {
      if i < |t.states| {
        OldStatesOk(hash, t, next, txid, i);
      }
    }
  }

  lemma TransferExtends(hash: Hash, t: Trail, r: Request, t': Trail)
    requires |t.states| == |t.stateStrings| > 0 && r.TransferRequest? && Step(hash, Some(t), r) == Some(t')
    ensures t' == t || (
      && r.net.broadcast.Some? && !Below(Read(t.states[|t.states| - 1].balances, Sender(t, r.from)), r.amount)
      && t' == Extended(t, NextState(hash, t, r.from, r.to, r.amount), r.net.broadcast.value))
  {
  }

  /** A transfer keeps a trail sound: it appends one linked state, or changes nothing. */
  lemma TransferKeepsSound(hash: Hash, t: Trail, voucher: int, r: Request)
    requires Sound(hash, t, voucher) && r.TransferRequest?
    ensures Step(hash, Some(t), r).Some?
    ensures var t' := Step(hash, Some(t), r).value;
      && Sound(hash, t', voucher) && t'.supply == t.supply && t'.pubkeyBase == t.pubkeyBase
      && (t' == t || t'.states == t.states + [NextState(hash, t, r.from, r.to, r.amount)])
      && (t' != t ==> !Below(Read(t.states[|t.states| - 1].balances, Sender(t, r.from)), r.amount))
  {
    var t' := Step(hash, Some(t), r).value;
    TransferExtends(hash, t, r, t');
    if t' != t {
      ExtendedIsOk(hash, t, r.from, r.to, r.amount, r.net.broadcast.value);
    }
  }

  /** The trail file after a run of requests, starting without a file. */
  function Run(hash: Hash, reqs: seq<Request>): (t: Option<Trail>)
    ensures t.Some? ==> t.value.states != [] && t.value.stateStrings != []
  {
    if reqs == [] then None else Step(hash, Run(hash, reqs[..|reqs| - 1]), reqs[|reqs| - 1])
  }

  /**
   Every trail any run can produce: states numbered and linked, each the last one moved by the transfer
   it records, each string the canonical text of its state, one fee paid per state.
   */
  lemma {:induction false} ReachableTrail(hash: Hash, reqs: seq<Request>) returns (minted: nat)
    requires Run(hash, reqs).Some?
    ensures minted < |reqs| && reqs[minted].MintRequest?
    ensures Run(hash, reqs).value.supply == reqs[minted].supply
    ensures Run(hash, reqs).value.pubkeyBase == reqs[minted].pubkeyBase
    ensures Sound(hash, Run(hash, reqs).value, reqs[minted].voucherAmount)
  {
    minted := |reqs| - 1;
    var before, r := Run(hash, reqs[..minted]), reqs[minted];
    if before.None? {
      MintIsSound(hash, r);
    } else {
      minted := ReachableTrail(hash, reqs[..minted]);
      if r.TransferRequest? {
        TransferKeepsSound(hash, before.value, reqs[minted].voucherAmount, r);
      }
    }
  }

  // ---------- the sum of the balances ----------

  /** The balances of a state are numbers that sum to the supply. */
  ghost predicate SumsToSupply(t: Trail, i: nat)
    requires i < |t.states|
  {
    Numeric(t.states[i].balances) && Total(t.states[i].balances) == t.supply
  }

  /** The transfer a state records keeps the sum. */
  ghost predicate RecordKeepsTotal(t: Trail, i: nat)
    requires 0 < i < |t.states|
  {
    |t.states[i].ops| == 1 &&
    var op := t.states[i].ops[0];
    KeepsTotal(t.states[i - 1].balances, op.from, op.to, op.amt)
  }

  lemma GenesisSums(t: Trail)
    requires t.states != [] && GenesisOk(t)
    ensures SumsToSupply(t, 0)
  {
    assert Total(t.states[0].balances[1..]) == 0;
  }

  lemma StepSums(hash: Hash, t: Trail, i: nat)
    requires TrailOk(hash, t) && 0 < i < |t.states| && SumsToSupply(t, i - 1)
    ensures SumsToSupply(t, i) <==> RecordKeepsTotal(t, i)
  {
    assert StateOk(t, i - 1) && MoveOk(t, i);
    var op := t.states[i].ops[0];
    TotalKeptIff(t.states[i - 1].balances, op.from, op.to, op.amt);
  }

  lemma {:induction false} SumsUpTo(hash: Hash, t: Trail, i: nat)
    requires TrailOk(hash, t) && i < |t.states| && forall j :: 0 < j <= i ==> RecordKeepsTotal(t, j)
    ensures SumsToSupply(t, i)
  {
    if i == 0 {
      GenesisSums(t);
    } else {
      SumsUpTo(hash, t, i - 1);
      StepSums(hash, t, i);
    }
  }

  /** In a reachable trail every state sums to the supply exactly when every recorded transfer keeps the sum. */
  lemma ReachableSums(hash: Hash, reqs: seq<Request>)
    requires Run(hash, reqs).Some?
    ensures var t := Run(hash, reqs).value;
      (forall i :: 0 <= i < |t.states| ==> SumsToSupply(t, i)) <==>
      (forall i :: 0 < i < |t.states| ==> RecordKeepsTotal(t, i))
  {
    var _ := ReachableTrail(hash, reqs);
    var t := Run(hash, reqs).value;
    if forall i :: 0 <= i < |t.states| ==> SumsToSupply(t, i) {
      forall i | 0 < i < |t.states| ensures RecordKeepsTotal(t, i) {
        assert SumsToSupply(t, i - 1);
        StepSums(hash, t, i);
      }
    }
    if forall i :: 0 < i < |t.states| ==> RecordKeepsTotal(t, i) {
      forall i | 0 <= i < |t.states| ensures SumsToSupply(t, i) {
        SumsUpTo(hash, t, i);
      }
    }
  }

  /** What callers ask for: a supply that is not negative, positive amounts, names no object inherits. */
  ghost predicate Careful(r: Request) {
    match r
    case MintRequest(_, _, supply, pubkeyBase, _, _) => supply >= 0 && !Inherited(pubkeyBase)
    case TransferRequest(from, to, amount, _) => amount > 0 && !Inherited(from) && !Inherited(to)
  }

  /** Balances that are numbers, not negative, and sum to the supply. */
  ghost predicate InOrder(t: Trail, i: nat)
    requires i < |t.states|
  {
    SumsToSupply(t, i) && NonNegative(t.states[i].balances)
  }

  lemma MintInOrder(hash: Hash, r: Request)
    requires r.MintRequest? && Careful(r) && Step(hash, None, r).Some?
    ensures InOrder(Step(hash, None, r).value, 0)
  {
    var t := Step(hash, None, r).value;
    GenesisSums(t);
    forall who ensures BalanceOf(t.states[0].balances, who) >= 0 {
      assert BalanceOf(t.states[0].balances[1..], who) == 0;
    }
  }

  lemma CarefulMove(b: Balances, from: JsString, to: JsString, amount: int)
    requires Distinct(b) && NonNegative(b) && !Below(Read(b, from), amount)
    requires amount > 0 && !Inherited(from) && !Inherited(to)
    ensures NonNegative(Moved(b, from, to, amount)) && Total(Moved(b, from, to, amount)) == Total(b)
  {
    assert Plain(b, from) && Plain(b, to);
    assert BalanceOf(b, to) >= 0;
    NonNegativeIff(b, from, to, amount);
    TotalKeptIff(b, from, to, amount);
  }

  lemma NewStateInOrder(hash: Hash, t: Trail, from: JsString, to: JsString, amount: int, txid: JsString)
    requires TrailOk(hash, t) && InOrder(t, |t.states| - 1)
    requires amount > 0 && !Inherited(Sender(t, from)) && !Inherited(to)
    requires !Below(Read(t.states[|t.states| - 1].balances, Sender(t, from)), amount)
    ensures InOrder(Extended(t, NextState(hash, t, from, to, amount), txid), |t.states|)
  {
    assert StateOk(t, |t.states| - 1);
    CarefulMove(t.states[|t.states| - 1].balances, Sender(t, from), to, amount);
  }

  lemma StaysInOrder(t: Trail, t': Trail, i: nat)
    requires i < |t.states| && i < |t'.states| && t'.states[i] == t.states[i] && t'.supply == t.supply && InOrder(t, i)
    ensures InOrder(t', i)
  {
  }

  lemma TransferInOrder(hash: Hash, t: Trail, r: Request, t': Trail, i: nat)
    requires TrailOk(hash, t) && r.TransferRequest? && Careful(r) && Step(hash, Some(t), r) == Some(t')
    requires !Inherited(Sender(t, r.from)) && InOrder(t, |t.states| - 1) && (i < |t.states| ==> InOrder(t, i))
    requires i < |t'.states|
    ensures InOrder(t', i)
  {
    TransferExtends(hash, t, r, t');
    if i < |t.states| {
      StaysInOrder(t, t', i);
    } else {
      NewStateInOrder(hash, t, r.from, r.to, r.amount, r.net.broadcast.value);
    }
  }

  /** When every request was careful, every state of a reachable trail is in order. */
  lemma {:induction false} ReachableNonNegative(hash: Hash, reqs: seq<Request>)
    requires Run(hash, reqs).Some? && forall i :: 0 <= i < |reqs| ==> Careful(reqs[i])
    ensures var t := Run(hash, reqs).value; forall i :: 0 <= i < |t.states| ==> InOrder(t, i)
  {
    var last := |reqs| - 1;
    var before, r, t := Run(hash, reqs[..last]), reqs[last], Run(hash, reqs).value;
    if before.None? {
      MintInOrder(hash, r);
    } else {
      ReachableNonNegative(hash, reqs[..last]);
      if r.TransferRequest? {
        var minted := ReachableTrail(hash, reqs[..last]);
        assert Careful(reqs[minted]) && Careful(r);
        assert InOrder(before.value, |before.value.states| - 1);
        forall i | 0 <= i < |t.states| ensures InOrder(t, i) {
          TransferInOrder(hash, before.value, r, t, i);
        }
      }
    }
  }

  /** The states as the JSON values a verifier sees. */
  function StatesJson(t: Trail): (r: seq<Json>)
    ensures |r| == |t.states|
  {
    seq(|t.states|, i requires 0 <= i < |t.states| => ToJson(t.states[i]))
  }

  lemma StatesAreLinked(hash: Hash, t: Trail)
    requires TrailOk(hash, t)
    ensures Linked(hash, StatesJson(t))
  {
    var chain := StatesJson(t);
    forall i | 0 < i < |chain| ensures VerifyStateLink(hash, chain[i], chain[i - 1]) == Valid {
      assert LinkOk(hash, t, i);
      SameLink(hash, chain[i], chain[i - 1], t.states[i], t.states[i - 1]);
    }
  }

  lemma SameLink(hash: Hash, v: Json, p: Json, s: TokenState, q: TokenState)
    requires v == ToJson(s) && p == ToJson(q) && VerifyStateLink(hash, ToJson(s), ToJson(q)) == Valid
    ensures VerifyStateLink(hash, v, p) == Valid
  {
  }

  lemma StatesAreWellFormed(hash: Hash, t: Trail)
    requires TrailOk(hash, t)
    ensures forall v :: v in StatesJson(t) ==> WellFormed(v)
  {
    forall i | 0 <= i < |t.states| ensures WellFormed(StatesJson(t)[i]) {
      assert StateOk(t, i);
      StateWellFormed(t.states[i]);
    }
  }

  /** A trail is fixed by its last state: two trails that end in the same value share every state. */
  lemma TrailFixedByLastState(hash: Hash, t: Trail, u: Trail, zero: JsString)
    requires Injective(hash) && TrailOk(hash, t) && TrailOk(hash, u)
    requires t.states[0].prev == zero && u.states[0].prev == zero && forall x :: hash(x) != zero
    requires Same(ToJson(t.states[|t.states| - 1]), ToJson(u.states[|u.states| - 1]))
    ensures t.stateStrings == u.stateStrings
  {
    var a, b := StatesJson(t), StatesJson(u);
    StatesAreLinked(hash, t);
    StatesAreLinked(hash, u);
    StatesAreWellFormed(hash, t);
    StatesAreWellFormed(hash, u);
    StateFields(t.states[0]);
    StateFields(u.states[0]);
    ChainFromGenesisFixed(hash, a, b, zero);
    forall i | 0 <= i < |t.states| ensures t.stateStrings[i] == u.stateStrings[i] {
      assert a[i] in a && b[i] in b && TextOk(t, i) && TextOk(u, i);
      JcsIffSame(a[i], b[i]);
    }
  }
}
