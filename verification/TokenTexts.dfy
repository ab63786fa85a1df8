/**
 What the texts of a token trail say when they are read, and which request carries the trail.
 */
module TokenTexts {
  import opened JsText
  import opened OrderedMap
  import opened Jcs
  import opened JcsLaws
  import opened Mrc20
  import opened TokenBalances
  import opened TokenTrail
  import opened TokenTrailLaws

  // ---------- a text read field by field ----------

  predicate ReadsAmount(v: Json, a: Amount) {
    match a
    case Number(n) => v == Num(n)
    case Text(text) => v == Str(text)
    case NotANumber => v == Null
  }

  ghost predicate ReadsBalances(v: Option<Json>, b: Balances) {
    && v.Some? && v.value.Obj?
    && forall who {:trigger Get(b, who)} ::
         match Get(b, who)
         case None => Get(v.value.fields, who) == None
         case Some(a) => Get(v.value.fields, who).Some? && ReadsAmount(Get(v.value.fields, who).value, a)
  }

  predicate ReadsOp(v: Json, op: TransferOp) {
    && Field(v, U("op")) == Some(Str(U("urn:mono:op:transfer")))
    && Field(v, U("from")) == Some(Str(op.from))
    && Field(v, U("to")) == Some(Str(op.to))
    && Field(v, U("amt")) == Some(Num(op.amt))
  }

  ghost predicate ReadsOps(v: Option<Json>, ops: seq<TransferOp>) {
    && v.Some? && v.value.Arr? && |v.value.items| == |ops|
    && forall i :: 0 <= i < |ops| ==> ReadsOp(v.value.items[i], ops[i])
  }

  /** The value is an object that says, field by field, what the state is. */
  ghost predicate ReadsState(v: Json, s: TokenState) {
    && Field(v, U("profile")) == Some(Str(U("mono.mrc20.v0.1")))
    && Field(v, U("prev")) == Some(Str(s.prev))
    && Field(v, U("seq")) == Some(Num(s.seqNo))
    && Field(v, U("ticker")) == Some(Str(s.ticker))
    && Field(v, U("name")) == Some(Str(s.name))
    && Field(v, U("decimals")) == Some(Num(0))
    && Field(v, U("supply")) == Some(Num(s.supply))
    && ReadsBalances(Field(v, U("balances")), s.balances)
    && ReadsOps(Field(v, U("ops")), s.ops)
  }

  lemma CanonField(v: Json, k: JsString)
    requires v.Obj? && Distinct(v.fields)
    ensures Field(Canon(v), k) == match Field(v, k) case None => None case Some(w) => Some(Canon(w))
  {
    SortedCanonGet(v.fields, k);
  }

  lemma {:induction false} BalancesGet(b: Balances, who: JsString)
    ensures Get(BalancesJson(b), who) == match Get(b, who) case None => None case Some(a) => Some(AmountJson(a))
  {
    if b != [] {
      BalancesGet(b[1..], who);
    }
  }

  lemma BalancesRead(b: Balances)
    requires Distinct(b)
    ensures ReadsBalances(Some(Canon(Obj(BalancesJson(b)))), b)
  {
    var fields := BalancesJson(b);
    assert Distinct(fields);
    forall who
      ensures match Get(b, who)
        case None => Get(SortByKey(CanonFields(fields)), who) == None
        case Some(a) =>
          var g := Get(SortByKey(CanonFields(fields)), who);
          g.Some? && ReadsAmount(g.value, a)
    {
      BalancesGet(b, who);
      SortedCanonGet(fields, who);
    }
  }

  lemma OpRead(op: TransferOp)
    ensures ReadsOp(Canon(OpJson(op)), op)
  {
    var v := OpJson(op);
    OpFields(op);
    assert U("from")[0] == 102 && U("op")[0] == 111;
    GetMember(v.fields, 1);
    CanonField(v, U("op"));
    CanonField(v, U("from"));
    CanonField(v, U("to"));
    CanonField(v, U("amt"));
  }

  lemma OpsRead(ops: seq<TransferOp>)
    ensures ReadsOps(Some(Canon(Arr(OpsJson(ops)))), ops)
  {
    CanonItemsAt(OpsJson(ops));
    forall i | 0 <= i < |ops| ensures ReadsOp(CanonItems(OpsJson(ops))[i], ops[i]) {
      OpsJsonAt(ops, i);
      OpRead(ops[i]);
    }
  }

  lemma MoreFields(s: TokenState)
    ensures Distinct(ToJson(s).fields)
    ensures Field(ToJson(s), U("name")) == Some(Str(s.name))
    ensures Field(ToJson(s), U("decimals")) == Some(Num(0))
    ensures Field(ToJson(s), U("supply")) == Some(Num(s.supply))
    ensures Field(ToJson(s), U("balances")) == Some(Obj(BalancesJson(s.balances)))
  {
    var f := ToJson(s).fields;
    StateKeysDistinct(s);
    GetMember(f, 4);
    GetMember(f, 5);
    GetMember(f, 6);
    GetMember(f, 7);
  }

  lemma StateRead(s: TokenState)
    requires Distinct(s.balances)
    ensures ReadsState(Canon(ToJson(s)), s)
  {
    var v := ToJson(s);
    StateFields(s);
    MoreFields(s);
    CanonField(v, U("profile"));
    CanonField(v, U("prev"));
    CanonField(v, U("seq"));
    CanonField(v, U("ticker"));
    CanonField(v, U("name"));
    CanonField(v, U("decimals"));
    CanonField(v, U("supply"));
    CanonField(v, U("balances"));
    CanonField(v, U("ops"));
    BalancesRead(s.balances);
    OpsRead(s.ops);
  }

  /** Reading any stored text of any reachable trail gives the state it stands for. */
  lemma StoredTextsRead(hash: Hash, reqs: seq<Request>, i: nat)
    requires Run(hash, reqs).Some? && i < |Run(hash, reqs).value.states|
    ensures var t := Run(hash, reqs).value;
      && |t.stateStrings| == |t.states|
      && Parse(t.stateStrings[i]).Some? && Parse(t.stateStrings[i]).value.1 == []
      && ReadsState(Parse(t.stateStrings[i]).value.0, t.states[i])
  {
    var _ := ReachableTrail(hash, reqs);
    var t := Run(hash, reqs).value;
    assert StateOk(t, i) && TextOk(t, i);
    var v := ToJson(t.states[i]);
    ParseJcs(v, []);
    assert Jcs.Jcs(v) + [] == Jcs.Jcs(v);
    StateRead(t.states[i]);
  }

  /** The same state, its balances compared as a map. */
  ghost predicate SameState(s: TokenState, u: TokenState) {
    && s.prev == u.prev && s.seqNo == u.seqNo && s.ticker == u.ticker && s.name == u.name
    && s.supply == u.supply && s.ops == u.ops
    && forall who {:trigger Get(s.balances, who)} :: Get(s.balances, who) == Get(u.balances, who)
  }

  lemma OpReadOnce(v: Json, a: TransferOp, b: TransferOp)
    requires ReadsOp(v, a) && ReadsOp(v, b)
    ensures a == b
  {
  }

  lemma OpsReadOnce(v: Option<Json>, a: seq<TransferOp>, b: seq<TransferOp>)
    requires ReadsOps(v, a) && ReadsOps(v, b)
    ensures a == b
  {
    forall i | 0 <= i < |a| ensures a[i] == b[i] {
      OpReadOnce(v.value.items[i], a[i], b[i]);
    }
  }

  lemma BalanceReadOnce(v: Option<Json>, a: Balances, b: Balances, who: JsString)
    requires ReadsBalances(v, a) && ReadsBalances(v, b)
    ensures Get(a, who) == Get(b, who)
  {
    assert Get(a, who).Some? ==> Get(v.value.fields, who).Some?;
    assert Get(b, who).Some? ==> Get(v.value.fields, who).Some?;
  }

  lemma StateReadOnce(v: Json, s: TokenState, u: TokenState)
    requires ReadsState(v, s) && ReadsState(v, u)
    ensures SameState(s, u)
  {
    OpsReadOnce(Field(v, U("ops")), s.ops, u.ops);
    forall who ensures Get(s.balances, who) == Get(u.balances, who) {
      BalanceReadOnce(Field(v, U("balances")), s.balances, u.balances, who);
    }
  }

  /** Equal texts, of any two reachable trails, stand for the same state. */
  lemma EqualTextsSameState(hash: Hash, reqs: seq<Request>, i: nat, others: seq<Request>, j: nat)
    requires Run(hash, reqs).Some? && i < |Run(hash, reqs).value.states|
    requires Run(hash, others).Some? && j < |Run(hash, others).value.states|
    requires |Run(hash, reqs).value.stateStrings| == |Run(hash, reqs).value.states|
    requires |Run(hash, others).value.stateStrings| == |Run(hash, others).value.states|
    requires Run(hash, reqs).value.stateStrings[i] == Run(hash, others).value.stateStrings[j]
    ensures SameState(Run(hash, reqs).value.states[i], Run(hash, others).value.states[j])
  {
    StoredTextsRead(hash, reqs, i);
    StoredTextsRead(hash, others, j);
    var v := Parse(Run(hash, reqs).value.stateStrings[i]).value.0;
    StateReadOnce(v, Run(hash, reqs).value.states[i], Run(hash, others).value.states[j]);
  }

  // ---------- what one request answers and leaves ----------

  function Answer(hash: Hash, trail: Option<Trail>, r: Request): Outcome
    requires trail.Some? ==> trail.value.states != [] && trail.value.stateStrings != []
  {
    match r
    case MintRequest(ticker, name, supply, pub, voucher, net) => Mint(trail, ticker, name, supply, pub, voucher, net).1
    case TransferRequest(from, to, amount, net) => Transfer(hash, trail, from, to, amount, net).1
  }

  /** The outputs and the fee: 300 for the miner, and more than 546 left. */
  predicate Pays(value: int, net: Network) {
    net.outputFound && value > 300 + 546 && net.broadcast.Some?
  }

  /** What the balances hold for a name is not known to be less than the amount. */
  predicate Covers(b: Balances, who: JsString, amount: int) {
    var own: Option<Amount> := Get(b, who);
    if own.None? then Inherited(who) || 0 >= amount
    else own.value.Text? || (if own.value.Number? then own.value.n else 0) >= amount
  }

  /** The first state of a minted trail: no predecessor, number 0, the whole supply with the issuer. */
  ghost predicate Minted(t: Trail, r: Request)
    requires r.MintRequest?
  {
    && |t.states| == 1 && |t.stateStrings| == 1
    && t.ticker == r.ticker && t.supply == r.supply && t.pubkeyBase == r.pubkeyBase
    && t.name == (if r.name == [] then r.ticker else r.name)
    && var s := t.states[0];
    && |s.prev| == 64 && (forall k :: 0 <= k < 64 ==> s.prev[k] == 48)
    && s.seqNo == 0 && s.ticker == t.ticker && s.name == t.name && s.supply == t.supply && s.ops == []
    && (forall who {:trigger Get(s.balances, who)} ::
          Get(s.balances, who) == if who == r.pubkeyBase then Some(Number(r.supply)) else None)
  }

  /** A mint succeeds exactly when the name is free, the voucher is found and worth enough, and the network takes it. */
  lemma MintOutcome(hash: Hash, trail: Option<Trail>, r: Request)
    requires r.MintRequest? && (trail.Some? ==> trail.value.states != [] && trail.value.stateStrings != [])
    ensures var out, after := Answer(hash, trail, r), Step(hash, trail, r);
      && (out.Done? <==> trail.None? && Pays(r.voucherAmount, r.net))
      && (out.Failed? ==> after == trail)
      && (out == Failed(AlreadyExists) <==> trail.Some?)
      && (out.Done? ==>
            && out == Done(r.net.broadcast.value) && after.Some? && Minted(after.value, r)
            && after.value.currentTxid == r.net.broadcast.value && after.value.currentVout == 0
            && after.value.currentAmount == r.voucherAmount - 300)
  {
  }

  /** The new state of a transfer, after the states there were. */
  ghost predicate Transferred(hash: Hash, t: Trail, r: Request, t': Trail)
    requires r.TransferRequest? && t.states != [] && t.stateStrings != []
  {
    var n, m := |t.states|, |t.stateStrings|;
    && |t'.states| == n + 1 && |t'.stateStrings| == m + 1
    && t'.states[..n] == t.states && t'.stateStrings[..m] == t.stateStrings
    && t'.ticker == t.ticker && t'.name == t.name && t'.supply == t.supply && t'.pubkeyBase == t.pubkeyBase
    && var s := t'.states[n];
    && s.prev == hash(t.stateStrings[m - 1]) && s.seqNo == t.states[n - 1].seqNo + 1
    && s.ticker == t.ticker && s.name == t.name && s.supply == t.supply
    && |s.ops| == 1 && s.ops[0].to == r.to && s.ops[0].amt == r.amount
    && s.ops[0].from == (if r.from == [] then t.pubkeyBase else r.from)
  }

  /** A transfer succeeds exactly when the sender's balance covers it, the output is found and worth enough, and the network takes it. */
  lemma TransferOutcome(hash: Hash, trail: Option<Trail>, r: Request)
    requires r.TransferRequest? && (trail.Some? ==> trail.value.states != [] && trail.value.stateStrings != [])
    ensures var out, after := Answer(hash, trail, r), Step(hash, trail, r);
      && (out.Failed? ==> after == trail)
      && (trail.None? ==> out == Failed(NotFound))
      && (trail.Some? ==>
            var t := trail.value;
            var who := if r.from == [] then t.pubkeyBase else r.from;
            var covered := Covers(t.states[|t.states| - 1].balances, who, r.amount);
            && (out.Done? <==> covered && Pays(t.currentAmount, r.net))
            && (out == Failed(InsufficientBalance) <==> !covered)
            && (out.Done? ==>
                  && out == Done(r.net.broadcast.value) && after.Some? && Transferred(hash, t, r, after.value)
                  && after.value.currentTxid == r.net.broadcast.value && after.value.currentVout == 0
                  && after.value.currentAmount == t.currentAmount - 300))
  {
  }

  lemma RequestInBrief(hash: Hash, trail: Option<Trail>, r: Request)
    requires trail.Some? ==> trail.value.states != [] && trail.value.stateStrings != []
    ensures var out, after := Answer(hash, trail, r), Step(hash, trail, r);
      && (out.Failed? ==> after == trail)
      && (out.Done? ==> after.Some? && out == Done(after.value.currentTxid) && after.value.currentVout == 0)
  {
  }

  /** The answer to the request in place k of a run. */
  function AnswerIn(hash: Hash, reqs: seq<Request>, k: nat): Outcome
    requires k < |reqs|
  {
    Answer(hash, Run(hash, reqs[..k]), reqs[k])
  }

  lemma AnswerInPrefix(hash: Hash, reqs: seq<Request>, n: nat, k: nat)
    requires k < n <= |reqs|
    ensures AnswerIn(hash, reqs[..n], k) == AnswerIn(hash, reqs, k)
  {
    assert reqs[..n][..k] == reqs[..k];
  }

  /** No request after place k went through. */
  ghost predicate FailedAfter(hash: Hash, reqs: seq<Request>, k: nat) {
    |reqs| <= k + 1 || (AnswerIn(hash, reqs, |reqs| - 1).Failed? && FailedAfter(hash, reqs[..|reqs| - 1], k))
  }

  lemma LastAnswer(hash: Hash, reqs: seq<Request>, n: nat)
    requires n + 1 == |reqs|
    ensures AnswerIn(hash, reqs, n).Failed? ==> Run(hash, reqs) == Run(hash, reqs[..n])
    ensures AnswerIn(hash, reqs, n).Done? ==> Carries(Run(hash, reqs), AnswerIn(hash, reqs, n))
  {
    RequestInBrief(hash, Run(hash, reqs[..n]), reqs[n]);
  }

  /** The trail is carried by output 0 of the transaction an answer names. */
  predicate Carries(trail: Option<Trail>, out: Outcome) {
    trail.Some? && out == Done(trail.value.currentTxid) && trail.value.currentVout == 0
  }

  /** A reachable trail is carried by the first output of the transaction of the last request that went through. */
  lemma {:induction false} CarriedByLast(hash: Hash, reqs: seq<Request>) returns (k: nat)
    requires Run(hash, reqs).Some?
    ensures k < |reqs| && Carries(Run(hash, reqs), AnswerIn(hash, reqs, k)) && FailedAfter(hash, reqs, k)
  {
    var n := |reqs| - 1;
    LastAnswer(hash, reqs, n);
    if AnswerIn(hash, reqs, n).Done? {
      k := n;
    } else {
      k := CarriedByLast(hash, reqs[..n]);
      AnswerInPrefix(hash, reqs, n, k);
    }
  }

  /** The request in place k went through and made state i, which is s, of the trail before it. */
  ghost predicate MadeBy(hash: Hash, reqs: seq<Request>, k: nat, i: nat, s: TokenState)
    requires k < |reqs|
  {
    var r, before, after := reqs[k], Run(hash, reqs[..k]), Run(hash, reqs[..k + 1]);
    && AnswerIn(hash, reqs, k).Done? && after.Some? && |after.value.states| == i + 1 && after.value.states[i] == s
    && (if i == 0 then r.MintRequest? && before.None? && Minted(after.value, r)
        else r.TransferRequest? && before.Some? && Transferred(hash, before.value, r, after.value))
  }

  lemma MadeByPrefix(hash: Hash, reqs: seq<Request>, n: nat, k: nat, i: nat, s: TokenState)
    requires k < n <= |reqs| && MadeBy(hash, reqs[..n], k, i, s)
    ensures MadeBy(hash, reqs, k, i, s)
  {
    assert reqs[..n][..k] == reqs[..k] && reqs[..n][..k + 1] == reqs[..k + 1];
  }

  lemma LastMade(hash: Hash, trail: Option<Trail>, r: Request, i: nat)
    requires trail.Some? ==> trail.value.states != [] && trail.value.stateStrings != []
    requires Step(hash, trail, r).Some? && i < |Step(hash, trail, r).value.states|
    ensures var t' := Step(hash, trail, r).value;
      if trail.Some? && i < |trail.value.states| then t'.states[i] == trail.value.states[i]
      else
        && Answer(hash, trail, r).Done? && |t'.states| == i + 1
        && (if i == 0 then r.MintRequest? && trail.None? && Minted(t', r)
            else r.TransferRequest? && trail.Some? && Transferred(hash, trail.value, r, t'))
  {
    if r.MintRequest? {
      MintOutcome(hash, trail, r);
    } else {
      TransferOutcome(hash, trail, r);
    }
  }

  lemma MadeLast(hash: Hash, reqs: seq<Request>, n: nat, i: nat, s: TokenState)
    requires n + 1 == |reqs| && Run(hash, reqs).Some? && i < |Run(hash, reqs).value.states|
    requires s == Run(hash, reqs).value.states[i]
    ensures HadState(Run(hash, reqs[..n]), i, s) || MadeBy(hash, reqs, n, i, s)
  {
    assert reqs[..n + 1] == reqs;
    LastMade(hash, Run(hash, reqs[..n]), reqs[n], i);
  }

  predicate HadState(trail: Option<Trail>, i: nat, s: TokenState) {
    trail.Some? && i < |trail.value.states| && trail.value.states[i] == s
  }

  /** Every state of a reachable trail was made by one request that went through, and stays as it was made. */
  lemma {:induction false} StateHasRequest(hash: Hash, reqs: seq<Request>, i: nat, s: TokenState) returns (k: nat)
    requires HadState(Run(hash, reqs), i, s)
    ensures k < |reqs| && MadeBy(hash, reqs, k, i, s)
  {
    var n := |reqs| - 1;
    MadeLast(hash, reqs, n, i, s);
    if HadState(Run(hash, reqs[..n]), i, s) {
      k := StateHasRequest(hash, reqs[..n], i, s);
      MadeByPrefix(hash, reqs, n, k, i, s);
    } else {
      k := n;
    }
  }
}
