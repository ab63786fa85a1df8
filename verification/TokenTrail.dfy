/**
 Token trails (src/token.js): minting a token and transferring it, one hash-linked state per
 transfer, each carried by one Bitcoin output. Key derivation and the network are inputs.
 */
module TokenTrail {
  import opened JsText
  import opened OrderedMap
  import opened Jcs
  import opened Mrc20
  import opened TokenBalances

  datatype TransferOp = TransferOp(from: JsString, to: JsString, amt: int)

  datatype TokenState = TokenState(
    prev: JsString, seqNo: int, ticker: JsString, name: JsString, supply: int,
    balances: Balances, ops: seq<TransferOp>)

  datatype Trail = Trail(
    ticker: JsString, name: JsString, supply: int, pubkeyBase: JsString,
    states: seq<TokenState>, stateStrings: seq<JsString>,
    currentTxid: JsString, currentVout: int, currentAmount: int)

  /** What the explorer and the broadcast answer: is the spent output found, and the new txid. */
  datatype Network = Network(outputFound: bool, broadcast: Option<JsString>)

  datatype Failure = AlreadyExists | NotFound | InsufficientBalance | OutputNotFound | TooSmallForFee | BroadcastFailed

  datatype Outcome = Done(txid: JsString) | Failed(reason: Failure)

  const FEE := 300
  const DUST := 546

  // ---------- states as JSON ----------

  function AmountJson(v: Amount): Json {
    match v
    case Number(n) => Num(n)
    case Text(text) => Str(text)
    case NotANumber => Null
  }

  function BalancesJson(b: Balances): (r: Pairs<JsString, Json>)
    ensures |r| == |b| && forall i :: 0 <= i < |b| ==> r[i] == (b[i].0, AmountJson(b[i].1))
  {
    if b == [] then [] else [(b[0].0, AmountJson(b[0].1))] + BalancesJson(b[1..])
  }

  function OpJson(op: TransferOp): Json {
    Obj([(U("op"), Str(TRANSFER_OP)), (U("from"), Str(op.from)), (U("to"), Str(op.to)), (U("amt"), Num(op.amt))])
  }

  function OpsJson(ops: seq<TransferOp>): (r: seq<Json>)
    ensures |r| == |ops|
  {
    if ops == [] then [] else [OpJson(ops[0])] + OpsJson(ops[1..])
  }

  function ToJson(s: TokenState): Json {
    Obj([
      (U("profile"), Str(PROFILE)), (U("prev"), Str(s.prev)), (U("seq"), Num(s.seqNo)),
      (U("ticker"), Str(s.ticker)), (U("name"), Str(s.name)), (U("decimals"), Num(0)),
      (U("supply"), Num(s.supply)), (U("balances"), Obj(BalancesJson(s.balances))),
      (U("ops"), Arr(OpsJson(s.ops)))])
  }

  // ---------- mint and transfer as functions on the stored trail ----------

  function Genesis(ticker: JsString, name: JsString, supply: int, pubkeyBase: JsString): TokenState {
    TokenState(seq(64, _ => 48), 0, ticker, if name == [] then ticker else name, supply, [(pubkeyBase, Number(supply))], [])
  }

  function Mint(trail: Option<Trail>, ticker: JsString, name: JsString, supply: int, pubkeyBase: JsString,
                voucherAmount: int, net: Network): (Option<Trail>, Outcome)
  {
    if trail.Some? then (trail, Failed(AlreadyExists))
    else if !net.outputFound then (trail, Failed(OutputNotFound))
    else if voucherAmount - FEE <= DUST then (trail, Failed(TooSmallForFee))
    else if net.broadcast.None? then (trail, Failed(BroadcastFailed))
    else
      var g := Genesis(ticker, name, supply, pubkeyBase);
      (Some(Trail(ticker, g.name, supply, pubkeyBase, [g], [Jcs.Jcs(ToJson(g))], net.broadcast.value, 0, voucherAmount - FEE)),
       Done(net.broadcast.value))
  }

  function Sender(t: Trail, from: JsString): JsString {
    if from == [] then t.pubkeyBase else from
  }

  function NextState(hash: Hash, t: Trail, from: JsString, to: JsString, amount: int): TokenState
    requires t.states != [] && t.stateStrings != []
  {
    var current := t.states[|t.states| - 1];
    TokenState(hash(t.stateStrings[|t.stateStrings| - 1]), current.seqNo + 1, t.ticker, t.name, t.supply,
      Moved(current.balances, Sender(t, from), to, amount), [TransferOp(Sender(t, from), to, amount)])
  }

  /** The trail with one more state, carried by the output of a new transaction. */
  function Extended(t: Trail, s: TokenState, txid: JsString): Trail {
    t.(states := t.states + [s], stateStrings := t.stateStrings + [Jcs.Jcs(ToJson(s))],
       currentTxid := txid, currentVout := 0, currentAmount := t.currentAmount - FEE)
  }

  function Transfer(hash: Hash, trail: Option<Trail>, from: JsString, to: JsString, amount: int, net: Network):
    (Option<Trail>, Outcome)
    requires trail.Some? ==> trail.value.states != [] && trail.value.stateStrings != []
  {
    match trail
    case None => (trail, Failed(NotFound))
    case Some(t) =>
      if Below(Read(t.states[|t.states| - 1].balances, Sender(t, from)), amount) then (trail, Failed(InsufficientBalance))
      else if !net.outputFound then (trail, Failed(OutputNotFound))
      else if t.currentAmount - FEE <= DUST then (trail, Failed(TooSmallForFee))
      else if net.broadcast.None? then (trail, Failed(BroadcastFailed))
      else (Some(Extended(t, NextState(hash, t, from, to, amount), net.broadcast.value)), Done(net.broadcast.value))
  }

  // ---------- the code that does it, step by step ----------

  /** What any stored trail has: a last state, whose balances are an object. */
  ghost predicate Loadable(t: Trail) {
    t.states != [] && t.stateStrings != [] && Distinct(t.states[|t.states| - 1].balances)
  }

  /** The trail file of one ticker. */
  class TrailFile {
    var trail: Option<Trail>

    constructor ()
      ensures trail == None
    {
      trail := None;
    }

    method MintToken(ticker: JsString, name: JsString, supply: int, pubkeyBase: JsString, voucherAmount: int, net: Network)
      returns (out: Outcome)
      modifies this
      ensures (trail, out) == Mint(old(trail), ticker, name, supply, pubkeyBase, voucherAmount, net)
    {
      if trail.Some? {
        return Failed(AlreadyExists);
      }
      var displayName := if name == [] then ticker else name;
      var genesis := TokenState(seq(64, _ => 48), 0, ticker, displayName, supply, [(pubkeyBase, Number(supply))], []);
      var genesisJcs := Jcs.Jcs(ToJson(genesis));
      if !net.outputFound {
        return Failed(OutputNotFound);
      }
      var outputAmount := voucherAmount - FEE;
      if outputAmount <= DUST {
        return Failed(TooSmallForFee);
      }
      if net.broadcast.None? {
        return Failed(BroadcastFailed);
      }
      trail := Some(Trail(ticker, displayName, supply, pubkeyBase, [genesis], [genesisJcs], net.broadcast.value, 0, outputAmount));
      return Done(net.broadcast.value);
    }

    method TransferToken(hash: Hash, from: JsString, to: JsString, amount: int, net: Network) returns (out: Outcome)
      requires trail.Some? ==> Loadable(trail.value)
      modifies this
      ensures (trail, out) == Transfer(hash, old(trail), from, to, amount, net)
    {
      if trail.None? {
        return Failed(NotFound);
      }
      var t := trail.value;
      var currentState := t.states[|t.states| - 1];
      var currentBalances := currentState.balances;
      var senderAddr := if from == [] then t.pubkeyBase else from;
      if Below(Read(currentBalances, senderAddr), amount) {
        return Failed(InsufficientBalance);
      }
      currentBalances := MoveBalances(currentBalances, senderAddr, to, amount);

      var prevJcs := t.stateStrings[|t.stateStrings| - 1];
      var newState := TokenState(hash(prevJcs), currentState.seqNo + 1, t.ticker, t.name, t.supply,
        currentBalances, [TransferOp(senderAddr, to, amount)]);
      assert newState == NextState(hash, t, from, to, amount);
      var newJcs := Jcs.Jcs(ToJson(newState));
      if !net.outputFound {
        return Failed(OutputNotFound);
      }
      var outputAmount := t.currentAmount - FEE;
      if outputAmount <= DUST {
        return Failed(TooSmallForFee);
      }
      if net.broadcast.None? {
        return Failed(BroadcastFailed);
      }
      t := t.(states := t.states + [newState]);
      t := t.(stateStrings := t.stateStrings + [newJcs]);
      t := t.(currentTxid := net.broadcast.value);
      t := t.(currentVout := 0);
      t := t.(currentAmount := outputAmount);
      assert t == Extended(trail.value, newState, net.broadcast.value);
      trail := Some(t);
      return Done(net.broadcast.value);
    }
  }

  // ---------- what every reachable trail satisfies ----------

  ghost predicate StateOk(t: Trail, i: nat)
    requires i < |t.states|
  {
    var s := t.states[i];
    s.seqNo == i && s.ticker == t.ticker && s.name == t.name && s.supply == t.supply && Distinct(s.balances)
  }

  /** The first state gives the supply to the issuer. */
  ghost predicate GenesisOk(t: Trail)
    requires t.states != []
  {
    t.states[0].balances == [(t.pubkeyBase, Number(t.supply))]
  }

  /** A state records one transfer that passed the balance check, and its balances are what that makes of the last. */
  ghost predicate MoveOk(t: Trail, i: nat)
    requires 0 < i < |t.states|
  {
    var ops, last := t.states[i].ops, t.states[i - 1].balances;
    && |ops| == 1 && !Below(Read(last, ops[0].from), ops[0].amt)
    && t.states[i].balances == Moved(last, ops[0].from, ops[0].to, ops[0].amt)
  }

  /** The stored text of a state is its canonical text. */
  ghost predicate TextOk(t: Trail, i: nat)
    requires i < |t.states| && i < |t.stateStrings|
  {
    t.stateStrings[i] == Jcs.Jcs(ToJson(t.states[i]))
  }

  /** A state passes the link check against the one before it. */
  ghost predicate LinkOk(hash: Hash, t: Trail, i: nat)
    requires 0 < i < |t.states|
  {
    VerifyStateLink(hash, ToJson(t.states[i]), ToJson(t.states[i - 1])) == Valid
  }

  ghost predicate TrailOk(hash: Hash, t: Trail) {
    && |t.states| == |t.stateStrings| > 0 && GenesisOk(t)
    && (forall i {:trigger StateOk(t, i)} :: 0 <= i < |t.states| ==> StateOk(t, i))
    && (forall i {:trigger TextOk(t, i)} :: 0 <= i < |t.states| ==> TextOk(t, i))
    && (forall i {:trigger MoveOk(t, i)} :: 0 < i < |t.states| ==> MoveOk(t, i))
    && (forall i {:trigger LinkOk(hash, t, i)} :: 0 < i < |t.states| ==> LinkOk(hash, t, i))
    && t.currentAmount > DUST
  }
}
