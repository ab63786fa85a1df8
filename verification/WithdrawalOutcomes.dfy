/**
 What a withdrawal answers, and the coins it leaves, said by the coin file and the request.
 */
module WithdrawalOutcomes {
  import opened JsText
  import opened OrderedMap
  import opened Coins
  import opened UtxoSelection

  /** An unspent coin of the chain that the key with this tweak signs. */
  predicate Signs(c: Coin, chain: JsString, tweak: JsString) {
    c.chain == chain && !c.spent && c.tweak == tweak
  }

  /** What the key can spend of the first `n` coins. */
  function ValueTo(coins: seq<Coin>, n: nat, chain: JsString, tweak: JsString): nat
    requires n <= |coins|
  {
    if n == 0 then 0
    else ValueTo(coins, n - 1, chain, tweak) + if Signs(coins[n - 1], chain, tweak) then coins[n - 1].amount else 0
  }

  function Value(coins: seq<Coin>, chain: JsString, tweak: JsString): nat {
    ValueTo(coins, |coins|, chain, tweak)
  }

  /** The first coins in the file that the key signs, upwards, none left out. */
  ghost predicate FirstOnes(coins: seq<Coin>, at: seq<nat>, chain: JsString, tweak: JsString) {
    && (forall k :: 0 <= k < |at| ==> at[k] < |coins| && Signs(coins[at[k]], chain, tweak))
    && (forall j, k :: 0 <= j < k < |at| ==> at[j] < at[k])
    && (forall p, k :: 0 <= p < |coins| && 0 <= k < |at| && p < at[k] && Signs(coins[p], chain, tweak) ==> p in at)
  }

  /** The coins reach the amount, and not without the last. */
  ghost predicate JustEnough(coins: seq<Coin>, at: seq<nat>, needed: int) {
    InRange(coins, at) && at != [] && TotalTo(coins, at, |at| - 1) < needed <= TotalOf(coins, at)
  }

  lemma {:induction false} PositionIn(coins: seq<Coin>, n: nat, chain: JsString, tweak: Option<JsString>, p: nat)
    requires p < n <= |coins| && UtxoSelection.Fits(coins[p], chain, tweak)
    ensures p in PositionsTo(coins, n, chain, tweak)
  {
    if p < n - 1 {
      PositionIn(coins, n - 1, chain, tweak, p);
    }
  }

  lemma {:induction false} PositionsValue(coins: seq<Coin>, n: nat, chain: JsString, tweak: JsString)
    requires n <= |coins|
    ensures TotalOf(coins, PositionsTo(coins, n, chain, Some(tweak))) == ValueTo(coins, n, chain, tweak)
  {
    if n > 0 {
      PositionsValue(coins, n - 1, chain, tweak);
      TotalSnoc(coins, PositionsTo(coins, n - 1, chain, Some(tweak)), n - 1);
    }
  }

  lemma TakenAreFirst(coins: seq<Coin>, chain: JsString, tweak: JsString, needed: int, at: seq<nat>)
    requires needed > 0 && at == Take(coins, Positions(coins, chain, Some(tweak)), needed)
    ensures FirstOnes(coins, at, chain, tweak)
    ensures TotalOf(coins, at) >= needed <==> Value(coins, chain, tweak) >= needed
    ensures TotalOf(coins, at) >= needed ==> JustEnough(coins, at, needed)
  {
    var group := Positions(coins, chain, Some(tweak));
    PositionsFit(coins, |coins|, chain, Some(tweak));
    PositionsValue(coins, |coins|, chain, tweak);
    TakenIsSound(coins, chain, tweak, needed, at);
    forall p, k | 0 <= p < |coins| && 0 <= k < |at| && p < at[k] && Signs(coins[p], chain, tweak) ensures p in at {
      PositionIn(coins, |coins|, chain, Some(tweak), p);
      var j :| 0 <= j < |group| && group[j] == p;
      assert group[k] == at[k];
      assert j < k;
      assert at[j] == p;
    }
  }

  // ---------- which key ----------

  /** The first unspent coin of the chain that has a tweak. */
  ghost predicate FirstTweaked(coins: seq<Coin>, chain: JsString, p: int) {
    && 0 <= p < |coins| && Tweaked(coins[p], chain)
    && forall j :: 0 <= j < p ==> !Tweaked(coins[j], chain)
  }

  predicate Tweaked(c: Coin, chain: JsString) {
    c.chain == chain && !c.spent && c.tweak != []
  }

  /** The pod's own key when its coins suffice, else the key of the first coin that has a tweak. */
  ghost predicate KeyFor(coins: seq<Coin>, chain: JsString, needed: int, tweak: JsString) {
    if Value(coins, chain, []) >= needed then tweak == []
    else exists p :: FirstTweaked(coins, chain, p) && coins[p].tweak == tweak
  }

  /** Some key that the withdrawal tries can spend the amount. */
  ghost predicate Suffices(coins: seq<Coin>, chain: JsString, needed: int) {
    exists tweak :: KeyFor(coins, chain, needed, tweak) && Value(coins, chain, tweak) >= needed
  }

  lemma FirstTweakIs(coins: seq<Coin>, chain: JsString)
    ensures FirstTweak(coins, chain) == [] ==> forall p :: !FirstTweaked(coins, chain, p)
    ensures FirstTweak(coins, chain) != [] ==>
      exists p :: FirstTweaked(coins, chain, p) && coins[p].tweak == FirstTweak(coins, chain)
  {
    var tweaked := Positions(coins, chain, None);
    PositionsFit(coins, |coins|, chain, None);
    forall p | 0 <= p < |coins| && Tweaked(coins[p], chain) ensures tweaked != [] && tweaked[0] <= p {
      PositionIn(coins, |coins|, chain, None, p);
      var j :| 0 <= j < |tweaked| && tweaked[j] == p;
    }
    if tweaked != [] {
      assert FirstTweaked(coins, chain, tweaked[0]);
    }
  }

  lemma OneFirstTweaked(coins: seq<Coin>, chain: JsString, p: int, q: int)
    requires FirstTweaked(coins, chain, p) && FirstTweaked(coins, chain, q)
    ensures p == q
  {
  }

  lemma OneKeyFor(coins: seq<Coin>, chain: JsString, needed: int, a: JsString, b: JsString)
    requires KeyFor(coins, chain, needed, a) && KeyFor(coins, chain, needed, b)
    ensures a == b
  {
    if Value(coins, chain, []) < needed {
      var p :| FirstTweaked(coins, chain, p) && coins[p].tweak == a;
      var q :| FirstTweaked(coins, chain, q) && coins[q].tweak == b;
      OneFirstTweaked(coins, chain, p, q);
    }
  }

  /** The choice takes the first coins of the key, and reaches the amount exactly when a key suffices. */
  lemma ChoiceIsFirst(coins: seq<Coin>, chain: JsString, needed: int, at: seq<nat>, tweak: JsString)
    requires needed > 0 && (at, tweak) == Choice(coins, chain, needed)
    ensures TotalOf(coins, at) >= needed <==> Suffices(coins, chain, needed)
    ensures TotalOf(coins, at) >= needed ==>
      KeyFor(coins, chain, needed, tweak) && FirstOnes(coins, at, chain, tweak) && JustEnough(coins, at, needed)
  {
    var free := Take(coins, Positions(coins, chain, Some(NO_TWEAK)), needed);
    TakenAreFirst(coins, chain, [], needed, free);
    if Value(coins, chain, []) >= needed {
      assert KeyFor(coins, chain, needed, []);
    } else {
      FirstTweakIs(coins, chain);
      if tweak != [] {
        TakenAreFirst(coins, chain, tweak, needed, at);
        assert KeyFor(coins, chain, needed, tweak);
        forall other | KeyFor(coins, chain, needed, other) ensures other == tweak {
          OneKeyFor(coins, chain, needed, tweak, other);
        }
      } else {
        assert TotalOf(coins, at) == 0;
        assert forall other :: !KeyFor(coins, chain, needed, other);
      }
    }
  }

  // ---------- what a withdrawal leaves ----------

  /** The inputs are spent, the change is one more coin of the pod's own key when it is more than dust, nothing else changes. */
  ghost predicate PaidWith(coins: seq<Coin>, q: Request, at: seq<nat>, change: int, r: seq<Coin>)
    requires q.txid.Some?
  {
    && |r| == (if change > 546 then |coins| + 1 else |coins|)
    && (forall i :: 0 <= i < |coins| ==> r[i] == if i in at then coins[i].(spent := true) else coins[i])
    && (change > 546 ==> r[|coins|] == Coin(q.txid.value, 1, change, q.podScript, q.chain, [], false))
  }

  lemma PayingOutcome(coins: seq<Coin>, q: Request, at: seq<nat>)
    requires InRange(coins, at)
    ensures var (r, out) := Paying(coins, q, at); var change := TotalOf(coins, at) - q.amount - 300;
      && (out == NotEnough <==> change < 0)
      && (out == BroadcastFailed <==> change >= 0 && q.txid.None?)
      && (change >= 0 && q.txid.Some? ==>
            out == Paid(at, if change > 546 then change else 0) && PaidWith(coins, q, at, change, r))
      && (!out.Paid? ==> r == coins)
  {
    forall i | 0 <= i < |coins|
      ensures MarkSpent(coins, at)[i] == if i in at then coins[i].(spent := true) else coins[i]
    {
      MarkKeeps(coins, at, |at|, i);
    }
  }

  ghost predicate HasUnspent(coins: seq<Coin>, chain: JsString) {
    exists i :: 0 <= i < |coins| && coins[i].chain == chain && !coins[i].spent
  }

  /** The inputs are the first coins of the key, just enough, and the rest is change. */
  ghost predicate PaidRight(coins: seq<Coin>, q: Request, needed: nat, r: seq<Coin>, out: Outcome)
    requires out.Paid? && q.txid.Some?
  {
    && JustEnough(coins, out.inputs, needed)
    && (exists tweak :: KeyFor(coins, q.chain, needed, tweak) && FirstOnes(coins, out.inputs, q.chain, tweak))
    && var change := TotalOf(coins, out.inputs) - needed;
    && out.change == (if change > 546 then change else 0)
    && PaidWith(coins, q, out.inputs, change, r)
  }

  /**
   The answer to a withdrawal by the balance, the coins and the network, and what it leaves: when paid, the
   first coins of the key that suffice, and the rest beyond the fee of 300 back to the pod if more than 546.
   */
  lemma WithdrawalOutcome(coins: seq<Coin>, q: Request, needed: nat)
    requires q.amount > 0 && needed == q.amount + 300
    ensures var (r, out) := Withdrawn(coins, q);
      && (out == Insufficient <==> q.balance < q.amount)
      && (out == NoCoins <==> q.balance >= q.amount && !HasUnspent(coins, q.chain))
      && (out == NotEnough <==> q.balance >= q.amount && HasUnspent(coins, q.chain) && !Suffices(coins, q.chain, needed))
      && (out == BroadcastFailed <==> q.balance >= q.amount && Suffices(coins, q.chain, needed) && q.txid.None?)
      && (out.Paid? <==> q.balance >= q.amount && Suffices(coins, q.chain, needed) && q.txid.Some?)
      && (!out.Paid? ==> r == coins)
      && (out.Paid? ==> PaidRight(coins, q, needed, r, out))
  {
    var (at, tweak) := Choice(coins, q.chain, needed);
    ChoiceIsFirst(coins, q.chain, needed, at, tweak);
    PayingOutcome(coins, q, at);
    if Suffices(coins, q.chain, needed) {
      assert FirstOnes(coins, at, q.chain, tweak) && at != [];
      assert Signs(coins[at[0]], q.chain, tweak);
    }
  }
}
