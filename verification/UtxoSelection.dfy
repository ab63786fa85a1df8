/**
 Choosing the coins of a withdrawal (`POST /pay/.withdraw-sats` in src/handlers/pay.js): untweaked
 coins first, else the coins of one tweak, so that one key signs for all of them.
 */
module UtxoSelection {
  import opened JsText
  import opened OrderedMap
  import opened WebLedger
  import opened Coins

  const FEE := 300
  const DUST := 546

  /** The coins a loop looks at: unspent on the chain, with this tweak or (None) with any tweak at all. */
  predicate Fits(c: Coin, chain: JsString, tweak: Option<JsString>) {
    c.chain == chain && !c.spent && if tweak.Some? then c.tweak == tweak.value else c.tweak != NO_TWEAK
  }

  ghost predicate InRange(coins: seq<Coin>, at: seq<nat>) {
    forall k :: 0 <= k < |at| ==> at[k] < |coins|
  }

  /** Positions of the fitting coins among the first `n`, in order. */
  function PositionsTo(coins: seq<Coin>, n: nat, chain: JsString, tweak: Option<JsString>): (r: seq<nat>)
    requires n <= |coins|
    ensures InRange(coins, r)
  {
    if n == 0 then []
    else
      var before := PositionsTo(coins, n - 1, chain, tweak);
      if Fits(coins[n - 1], chain, tweak) then before + [n - 1] else before
  }

  function Positions(coins: seq<Coin>, chain: JsString, tweak: Option<JsString>): (r: seq<nat>)
    ensures InRange(coins, r)
  {
    PositionsTo(coins, |coins|, chain, tweak)
  }

  /** The value of the first `n` coins. */
  function TotalTo(coins: seq<Coin>, at: seq<nat>, n: nat): nat
    requires InRange(coins, at) && n <= |at|
  {
    if n == 0 then 0 else TotalTo(coins, at, n - 1) + coins[at[n - 1]].amount
  }

  function TotalOf(coins: seq<Coin>, at: seq<nat>): nat
    requires InRange(coins, at)
  {
    TotalTo(coins, at, |at|)
  }

  /** How many coins it takes, from `n` on, until their value suffices. */
  function Enough(coins: seq<Coin>, at: seq<nat>, n: nat, needed: int): (m: nat)
    requires InRange(coins, at) && n <= |at|
    ensures n <= m <= |at|
    decreases |at| - n
  {
    if n == |at| || TotalTo(coins, at, n) >= needed then n else Enough(coins, at, n + 1, needed)
  }

  /** Coins taken one by one until they suffice. */
  function Take(coins: seq<Coin>, at: seq<nat>, needed: int): (r: seq<nat>)
    requires InRange(coins, at)
    ensures InRange(coins, r)
  {
    at[..Enough(coins, at, 0, needed)]
  }

  function FirstTweak(coins: seq<Coin>, chain: JsString): JsString {
    var tweaked := Positions(coins, chain, None);
    if tweaked == [] then NO_TWEAK else coins[tweaked[0]].tweak
  }

  /** The chosen coins and the tweak of their key. */
  function Choice(coins: seq<Coin>, chain: JsString, needed: int): (r: (seq<nat>, JsString))
    ensures InRange(coins, r.0)
  {
    var free := Take(coins, Positions(coins, chain, Some(NO_TWEAK)), needed);
    if TotalOf(coins, free) >= needed then (free, NO_TWEAK)
    else
      var tweak := FirstTweak(coins, chain);
      if tweak == NO_TWEAK then ([], NO_TWEAK)
      else (Take(coins, Positions(coins, chain, Some(tweak)), needed), tweak)
  }

  // ---------- the loops ----------

  lemma {:induction false} PrefixTotal(coins: seq<Coin>, at: seq<nat>, m: nat, n: nat)
    requires InRange(coins, at) && n <= m <= |at|
    ensures TotalTo(coins, at[..m], n) == TotalTo(coins, at, n)
  {
    if n > 0 {
      PrefixTotal(coins, at, m, n - 1);
    }
  }

  lemma {:induction false} TotalGrows(coins: seq<Coin>, at: seq<nat>, k: nat, n: nat)
    requires InRange(coins, at) && k <= n <= |at|
    ensures TotalTo(coins, at, k) <= TotalTo(coins, at, n)
  {
    if k < n {
      TotalGrows(coins, at, k, n - 1);
    }
  }

  /** The first `m` coins are taken if all but the last do not suffice, and they do or are all there are. */
  lemma {:induction false} EnoughIs(coins: seq<Coin>, at: seq<nat>, n: nat, m: nat, needed: int)
    requires InRange(coins, at) && n <= m <= |at|
    requires m > 0 ==> TotalTo(coins, at, m - 1) < needed
    requires m < |at| ==> TotalTo(coins, at, m) >= needed
    ensures Enough(coins, at, n, needed) == m
    decreases m - n
  {
    if n < m {
      TotalGrows(coins, at, n, m - 1);
      EnoughIs(coins, at, n + 1, m, needed);
    }
  }

  /** `available.filter(...)` */
  method FilterCoins(coins: seq<Coin>, chain: JsString, tweak: Option<JsString>) returns (at: seq<nat>)
    ensures at == Positions(coins, chain, tweak)
  {
    at := [];
    for i := 0 to |coins|
      invariant at == PositionsTo(coins, i, chain, tweak)
    {
      if Fits(coins[i], chain, tweak) {
        at := at + [i];
      }
    }
  }

  /** The untweaked loop. */
  method TakeLoop(coins: seq<Coin>, at: seq<nat>, needed: int) returns (selected: seq<nat>, total: nat)
    requires needed > 0 && InRange(coins, at)
    ensures selected == Take(coins, at, needed) && total == TotalOf(coins, selected)
  {
    selected, total := [], 0;
    for i := 0 to |at|
      invariant selected == at[..i] && total == TotalTo(coins, at, i) < needed
    {
      selected := selected + [at[i]];
      total := total + coins[at[i]].amount;
      if total >= needed {
        EnoughIs(coins, at, 0, i + 1, needed);
        PrefixTotal(coins, at, i + 1, i + 1);
        return;
      }
    }
    TotalGrows(coins, at, if |at| > 0 then |at| - 1 else 0, |at|);
    EnoughIs(coins, at, 0, |at|, needed);
    assert at[..|at|] == at;
  }

  /** The positions among the first `n` of `at` whose coin has this tweak. */
  function GroupTo(coins: seq<Coin>, at: seq<nat>, n: nat, tweak: JsString): (r: seq<nat>)
    requires InRange(coins, at) && n <= |at|
    ensures InRange(coins, r)
  {
    if n == 0 then []
    else
      var before := GroupTo(coins, at, n - 1, tweak);
      if coins[at[n - 1]].tweak == tweak then before + [at[n - 1]] else before
  }

  function Group(coins: seq<Coin>, at: seq<nat>, tweak: JsString): (r: seq<nat>)
    requires InRange(coins, at)
    ensures InRange(coins, r)
  {
    GroupTo(coins, at, |at|, tweak)
  }

  lemma {:induction false} GroupPrefix(coins: seq<Coin>, at: seq<nat>, i: nat, n: nat, tweak: JsString)
    requires InRange(coins, at) && i <= n <= |at|
    ensures GroupTo(coins, at, i, tweak) <= GroupTo(coins, at, n, tweak)
  {
    if i < n {
      GroupPrefix(coins, at, i, n - 1, tweak);
    }
  }

  /** Once the group's coins so far suffice, and not without the last, they are what is taken. */
  lemma TakePrefix(coins: seq<Coin>, group: seq<nat>, selected: seq<nat>, needed: int)
    requires InRange(coins, group) && selected <= group && selected != [] && InRange(coins, selected)
    requires TotalTo(coins, selected, |selected| - 1) < needed <= TotalOf(coins, selected)
    ensures Take(coins, group, needed) == selected
  {
    var m := |selected|;
    assert group[..m] == selected;
    PrefixTotal(coins, group, m, m);
    PrefixTotal(coins, group, m, m - 1);
    EnoughIs(coins, group, 0, m, needed);
  }

  /** All are taken when they suffice only together or not at all. */
  lemma TakeAll(coins: seq<Coin>, at: seq<nat>, needed: int)
    requires InRange(coins, at) && TotalOf(coins, at) < needed
    ensures Take(coins, at, needed) == at
  {
    if at != [] {
      TotalGrows(coins, at, |at| - 1, |at|);
    }
    EnoughIs(coins, at, 0, |at|, needed);
  }

  lemma TotalSnoc(coins: seq<Coin>, at: seq<nat>, p: nat)
    requires InRange(coins, at) && p < |coins|
    ensures TotalTo(coins, at + [p], |at|) == TotalOf(coins, at)
    ensures TotalOf(coins, at + [p]) == TotalOf(coins, at) + coins[p].amount
  {
    assert (at + [p])[..|at|] == at;
    PrefixTotal(coins, at + [p], |at|, |at|);
  }

  /** The tweaked loop: the first coin fixes the tweak, others are passed over. */
  method GroupLoop(coins: seq<Coin>, at: seq<nat>, needed: int) returns (selected: seq<nat>, total: nat, tweak: JsString)
    requires needed > 0 && InRange(coins, at) && forall k :: 0 <= k < |at| ==> coins[at[k]].tweak != NO_TWEAK
    ensures tweak == if at == [] then NO_TWEAK else coins[at[0]].tweak
    ensures selected == Take(coins, Group(coins, at, tweak), needed) && total == TotalOf(coins, selected)
  {
    selected, total, tweak := [], 0, NO_TWEAK;
    for i := 0 to |at|
      invariant tweak == if i == 0 then NO_TWEAK else coins[at[0]].tweak
      invariant selected == GroupTo(coins, at, i, tweak) && total == TotalOf(coins, selected) < needed
    {
      var utxo := coins[at[i]];
      if tweak != NO_TWEAK && utxo.tweak != tweak {
        continue;
      }
      TotalSnoc(coins, selected, at[i]);
      selected := selected + [at[i]];
      tweak := utxo.tweak;
      total := total + utxo.amount;
      assert selected == GroupTo(coins, at, i + 1, tweak);
      if total >= needed {
        GroupPrefix(coins, at, i + 1, |at|, tweak);
        TakePrefix(coins, Group(coins, at, tweak), selected, needed);
        return;
      }
    }
    TakeAll(coins, selected, needed);
  }

  /** The coins with one tweak, found among the tweaked ones. */
  lemma {:induction false} GroupOfTweaked(coins: seq<Coin>, n: nat, chain: JsString, tweak: JsString)
    requires tweak != NO_TWEAK && n <= |coins|
    ensures Group(coins, PositionsTo(coins, n, chain, None), tweak) == PositionsTo(coins, n, chain, Some(tweak))
  {
    if n > 0 {
      var p := PositionsTo(coins, n - 1, chain, None);
      GroupOfTweaked(coins, n - 1, chain, tweak);
      if Fits(coins[n - 1], chain, None) {
        GroupSnoc(coins, p, n - 1, tweak);
      }
    }
  }

  lemma {:induction false} GroupShorter(coins: seq<Coin>, at: seq<nat>, m: nat, n: nat, tweak: JsString)
    requires InRange(coins, at) && n <= m <= |at|
    ensures GroupTo(coins, at[..m], n, tweak) == GroupTo(coins, at, n, tweak)
  {
    if n > 0 {
      GroupShorter(coins, at, m, n - 1, tweak);
    }
  }

  lemma GroupSnoc(coins: seq<Coin>, at: seq<nat>, p: nat, tweak: JsString)
    requires InRange(coins, at) && p < |coins|
    ensures Group(coins, at + [p], tweak) ==
            if coins[p].tweak == tweak then Group(coins, at, tweak) + [p] else Group(coins, at, tweak)
  {
    assert (at + [p])[..|at|] == at;
    GroupShorter(coins, at + [p], |at|, |at|, tweak);
  }

  /** Positions below `n`, upwards, of fitting coins. */
  ghost predicate Fitting(coins: seq<Coin>, at: seq<nat>, n: nat, chain: JsString, tweak: Option<JsString>) {
    && (forall k :: 0 <= k < |at| ==> at[k] < n <= |coins| && Fits(coins[at[k]], chain, tweak))
    && (forall j, k :: 0 <= j < k < |at| ==> at[j] < at[k])
  }

  lemma {:induction false} PositionsFit(coins: seq<Coin>, n: nat, chain: JsString, tweak: Option<JsString>)
    requires n <= |coins|
    ensures Fitting(coins, PositionsTo(coins, n, chain, tweak), n, chain, tweak)
  {
    if n > 0 {
      PositionsFit(coins, n - 1, chain, tweak);
    }
  }

  lemma ChoiceTweaked(coins: seq<Coin>, chain: JsString, needed: int, tweaked: seq<nat>, tweak: JsString)
    requires TotalOf(coins, Take(coins, Positions(coins, chain, Some(NO_TWEAK)), needed)) < needed
    requires tweaked == Positions(coins, chain, None) && tweak == if tweaked == [] then NO_TWEAK else coins[tweaked[0]].tweak
    ensures Choice(coins, chain, needed) == (Take(coins, Group(coins, tweaked, tweak), needed), tweak)
  {
    if tweaked != [] {
      PositionsFit(coins, |coins|, chain, None);
      GroupOfTweaked(coins, |coins|, chain, tweak);
    }
  }

  method Select(coins: seq<Coin>, chain: JsString, needed: int) returns (selected: seq<nat>, total: nat, tweak: JsString)
    requires needed > 0
    ensures (selected, tweak) == Choice(coins, chain, needed) && total == TotalOf(coins, selected)
  {
    var untweaked := FilterCoins(coins, chain, Some(NO_TWEAK));
    tweak := NO_TWEAK;
    selected, total := TakeLoop(coins, untweaked, needed);
    if total < needed {
      var tweaked := FilterCoins(coins, chain, None);
      PositionsFit(coins, |coins|, chain, None);
      selected, total, tweak := GroupLoop(coins, tweaked, needed);
      ChoiceTweaked(coins, chain, needed, tweaked, tweak);
    }
  }

  // ---------- what the choice promises ----------

  /** Taking stops as early as it can, and reaches the amount exactly when all together do. */
  lemma {:induction false} EnoughIsLeast(coins: seq<Coin>, at: seq<nat>, n: nat, needed: int)
    requires InRange(coins, at) && n <= |at|
    ensures var m := Enough(coins, at, n, needed);
      && (TotalTo(coins, at, m) >= needed <==> TotalOf(coins, at) >= needed)
      && (forall k :: n <= k < m ==> TotalTo(coins, at, k) < needed)
    decreases |at| - n
  {
    TotalGrows(coins, at, n, |at|);
    if n < |at| && TotalTo(coins, at, n) < needed {
      EnoughIsLeast(coins, at, n + 1, needed);
    }
  }

  /** The candidates of one key: coins of the chain with one tweak. */
  function OneKey(coins: seq<Coin>, chain: JsString, tweak: JsString): nat {
    TotalOf(coins, Positions(coins, chain, Some(tweak)))
  }

  /** Different unspent coins of the chain that one key signs, none superfluous. */
  ghost predicate ForOneKey(coins: seq<Coin>, at: seq<nat>, chain: JsString, tweak: JsString, needed: int) {
    && InRange(coins, at)
    && (forall k :: 0 <= k < |at| ==> Fits(coins[at[k]], chain, Some(tweak)))
    && (forall j, k :: 0 <= j < k < |at| ==> at[j] < at[k])
    && (forall k :: 0 <= k < |at| ==> TotalTo(coins, at, k) < needed)
  }

  /** What both loops take: the first fitting coins of one key, as few as reach the amount. */
  lemma TakenIsSound(coins: seq<Coin>, chain: JsString, tweak: JsString, needed: int, at: seq<nat>)
    requires needed > 0 && at == Take(coins, Positions(coins, chain, Some(tweak)), needed)
    ensures ForOneKey(coins, at, chain, tweak, needed)
    ensures TotalOf(coins, at) >= needed <==> OneKey(coins, chain, tweak) >= needed
  {
    var group := Positions(coins, chain, Some(tweak));
    EnoughIsLeast(coins, group, 0, needed);
    PositionsFit(coins, |coins|, chain, Some(tweak));
    forall k | 0 <= k <= |at| ensures TotalTo(coins, at, k) == TotalTo(coins, group, k) {
      PrefixTotal(coins, group, |at|, k);
    }
  }

  /**
   The choice: different unspent coins of the chain that one key signs, none superfluous. It reaches
   the amount exactly when the untweaked coins do or the coins of the first tweak do.
   */
  lemma ChoiceIsSound(coins: seq<Coin>, chain: JsString, needed: int)
    requires needed > 0
    ensures var (at, tweak) := Choice(coins, chain, needed); ForOneKey(coins, at, chain, tweak, needed)
    ensures TotalOf(coins, Choice(coins, chain, needed).0) >= needed <==>
      OneKey(coins, chain, NO_TWEAK) >= needed
      || (FirstTweak(coins, chain) != NO_TWEAK && OneKey(coins, chain, FirstTweak(coins, chain)) >= needed)
  {
    var first := FirstTweak(coins, chain);
    var free := Take(coins, Positions(coins, chain, Some(NO_TWEAK)), needed);
    TakenIsSound(coins, chain, NO_TWEAK, needed, free);
    if TotalOf(coins, free) < needed && first != NO_TWEAK {
      TakenIsSound(coins, chain, first, needed, Take(coins, Positions(coins, chain, Some(first)), needed));
    }
  }

  // ---------- a withdrawal ----------

  datatype Outcome = Paid(inputs: seq<nat>, change: nat) | NoCoins | NotEnough | BroadcastFailed | Insufficient

  /** The coins with the first `n` of these marked spent. */
  function MarkTo(coins: seq<Coin>, at: seq<nat>, n: nat): (r: seq<Coin>)
    requires InRange(coins, at) && n <= |at|
    ensures |r| == |coins|
  {
    if n == 0 then coins
    else
      var marked := MarkTo(coins, at, n - 1);
      marked[at[n - 1] := marked[at[n - 1]].(spent := true)]
  }

  function MarkSpent(coins: seq<Coin>, at: seq<nat>): (r: seq<Coin>)
    requires InRange(coins, at)
    ensures |r| == |coins|
  {
    MarkTo(coins, at, |at|)
  }

  predicate AnyAvailable(coins: seq<Coin>, chain: JsString) {
    exists i :: 0 <= i < |coins| && coins[i].chain == chain && !coins[i].spent
  }

  /** What a withdrawal asks, the balance it finds, and the broadcast transaction, if it goes out. */
  datatype Request = Request(balance: int, chain: JsString, amount: nat, txid: Option<JsString>, podScript: JsString)

  /** The output that pays the rest back to the pod's own key. */
  function ChangeCoin(q: Request, change: nat): Coin
    requires q.txid.Some?
  {
    Coin(q.txid.value, 1, change, q.podScript, q.chain, NO_TWEAK, false)
  }

  /** Paying with the chosen coins, if they suffice. */
  function Paying(coins: seq<Coin>, q: Request, at: seq<nat>): (seq<Coin>, Outcome)
    requires InRange(coins, at)
  {
    var total := TotalOf(coins, at);
    if total < q.amount + FEE then (coins, NotEnough)
    else if q.txid.None? then (coins, BroadcastFailed)
    else
      var change := total - q.amount - FEE;
      var marked := MarkSpent(coins, at);
      if change > DUST then (marked + [ChangeCoin(q, change)], Paid(at, change))
      else (marked, Paid(at, 0))
  }

  /** The coins after a withdrawal. */
  function Withdrawn(coins: seq<Coin>, q: Request): (seq<Coin>, Outcome) {
    if q.balance < q.amount then (coins, Insufficient)
    else if !AnyAvailable(coins, q.chain) then (coins, NoCoins)
    else Paying(coins, q, Choice(coins, q.chain, q.amount + FEE).0)
  }

  /** The ledger after a withdrawal. */
  function LedgerAfter(entries: Entries, did: JsString, currency: JsString, amount: nat, paid: bool): Entries {
    if paid then WithBalance(entries, did, BalanceOf(entries, did, currency) - amount, currency) else entries
  }

  class UtxoFile {
    var coins: seq<Coin>

    method Withdraw(ledger: Ledger, did: JsString, currency: JsString, chain: JsString, amount: nat,
                    txid: Option<JsString>, podScript: JsString)
      returns (out: Outcome)
      requires amount > 0
      modifies this, ledger`entries
      ensures (coins, out) ==
              Withdrawn(old(coins), Request(BalanceOf(old(ledger.entries), did, currency), chain, amount, txid, podScript))
      ensures ledger.entries == LedgerAfter(old(ledger.entries), did, currency, amount, out.Paid?)
    {
      var balance := ledger.GetBalance(did, currency);
      if balance < amount {
        return Insufficient;
      }
      var any := HasAvailable(coins, chain);
      if !any {
        return NoCoins;
      }
      var selected, total, tweak := Select(coins, chain, amount + FEE);
      out := Pay(ledger, did, currency, Request(balance, chain, amount, txid, podScript), selected, total);
    }

    /** The part of a withdrawal after the coins are chosen. */
    method Pay(ledger: Ledger, did: JsString, currency: JsString, q: Request, selected: seq<nat>, total: nat)
      returns (out: Outcome)
      requires InRange(coins, selected) && total == TotalOf(coins, selected)
      requires q.balance == BalanceOf(ledger.entries, did, currency) >= q.amount
      modifies this, ledger`entries
      ensures (coins, out) == Paying(old(coins), q, selected)
      ensures ledger.entries == LedgerAfter(old(ledger.entries), did, currency, q.amount, out.Paid?)
    {
      if total < q.amount + FEE {
        return NotEnough;
      }
      var change := total - q.amount - FEE;
      if q.txid.None? {
        return BroadcastFailed;
      }
      var success, _ := ledger.Debit(did, q.amount, currency);
      // The ledger is the one the balance was read from.
      assert success;
      var utxos := Mark(coins, selected);
      if change > DUST {
        utxos := utxos + [Coin(q.txid.value, 1, change, q.podScript, q.chain, NO_TWEAK, false)];
        coins := utxos;
        return Paid(selected, change);
      }
      coins := utxos;
      return Paid(selected, 0);
    }
  }

  method HasAvailable(coins: seq<Coin>, chain: JsString) returns (any: bool)
    ensures any == AnyAvailable(coins, chain)
  {
    for i := 0 to |coins|
      invariant forall j :: 0 <= j < i ==> coins[j].chain != chain || coins[j].spent
    {
      if coins[i].chain == chain && !coins[i].spent {
        return true;
      }
    }
    return false;
  }

  method Mark(coins: seq<Coin>, selected: seq<nat>) returns (r: seq<Coin>)
    requires InRange(coins, selected)
    ensures r == MarkSpent(coins, selected)
  {
    r := coins;
    for i := 0 to |selected|
      invariant r == MarkTo(coins, selected, i)
    {
      r := r[selected[i] := r[selected[i]].(spent := true)];
    }
  }

  /** Different unspent coins of a chain. */
  ghost predicate Spendable(coins: seq<Coin>, at: seq<nat>, chain: JsString) {
    && (forall k :: 0 <= k < |at| ==> at[k] < |coins| && coins[at[k]].chain == chain && !coins[at[k]].spent)
    && (forall j, k :: 0 <= j < k < |at| ==> at[j] < at[k])
  }

  lemma ChosenIsSpendable(coins: seq<Coin>, chain: JsString, needed: int, at: seq<nat>)
    requires needed > 0 && at == Choice(coins, chain, needed).0
    ensures Spendable(coins, at, chain)
  {
    ChoiceIsSound(coins, chain, needed);
  }

  /** The coin at a position stays there, and only comes to be spent. */
  predicate StaysCoin(before: Coin, after: Coin) {
    after == before || after == before.(spent := true)
  }

  lemma {:induction false} MarkKeeps(coins: seq<Coin>, at: seq<nat>, n: nat, i: nat)
    requires InRange(coins, at) && n <= |at| && i < |coins|
    ensures StaysCoin(coins[i], MarkTo(coins, at, n)[i])
    ensures (exists k :: 0 <= k < n && at[k] == i) ==> MarkTo(coins, at, n)[i].spent
    ensures (forall k :: 0 <= k < n ==> at[k] != i) ==> MarkTo(coins, at, n)[i] == coins[i]
  {
    if n > 0 {
      MarkKeeps(coins, at, n - 1, i);
    }
  }

  lemma {:induction false} UnspentUpdate(coins: seq<Coin>, n: nat, i: nat, chain: JsString)
    requires i < |coins| && n <= |coins|
    ensures UnspentTo(coins[i := coins[i].(spent := true)], n, chain)
      == UnspentTo(coins, n, chain) - if i < n && coins[i].chain == chain && !coins[i].spent then coins[i].amount else 0
  {
    if n > 0 {
      UnspentUpdate(coins, n - 1, i, chain);
    }
  }

  /** Marking different unspent coins of a chain takes their value, and only theirs. */
  lemma {:induction false} MarkTakes(coins: seq<Coin>, at: seq<nat>, n: nat, chain: JsString, other: JsString)
    requires Spendable(coins, at, chain) && n <= |at|
    ensures Unspent(MarkTo(coins, at, n), other) == Unspent(coins, other) - if other == chain then TotalTo(coins, at, n) else 0
  {
    if n > 0 {
      MarkTakes(coins, at, n - 1, chain, other);
      MarkKeeps(coins, at, n - 1, at[n - 1]);
      UnspentUpdate(MarkTo(coins, at, n - 1), |coins|, at[n - 1], other);
    }
  }

  lemma PayingTakes(coins: seq<Coin>, q: Request, at: seq<nat>, other: JsString) returns (lost: nat)
    requires Spendable(coins, at, q.chain)
    ensures lost <= DUST
    ensures var (r, out) := Paying(coins, q, at);
      Unspent(r, other) == Unspent(coins, other) - if out.Paid? && other == q.chain then q.amount + FEE + lost else 0
  {
    lost := 0;
    if Paying(coins, q, at).1.Paid? {
      MarkTakes(coins, at, |at|, q.chain, other);
      var change := TotalOf(coins, at) - q.amount - FEE;
      if change > DUST {
        var marked := MarkSpent(coins, at);
        UnspentSnoc(marked, ChangeCoin(q, change), other);
      } else {
        lost := change;
      }
    }
  }

  /**
   A paid withdrawal takes from the chain's unspent coins the amount, the fee and at most a dust
   remainder that is left to the miners; other chains keep theirs. A refused one takes nothing.
   */
  lemma WithdrawalTakes(coins: seq<Coin>, q: Request, other: JsString) returns (lost: nat)
    requires q.amount > 0
    ensures lost <= DUST
    ensures var (r, out) := Withdrawn(coins, q);
      Unspent(r, other) == Unspent(coins, other) - if out.Paid? && other == q.chain then q.amount + FEE + lost else 0
  {
    var at := Choice(coins, q.chain, q.amount + FEE).0;
    ChosenIsSpendable(coins, q.chain, q.amount + FEE, at);
    lost := PayingTakes(coins, q, at, other);
  }

  lemma PaidIsCovered(coins: seq<Coin>, q: Request)
    ensures Withdrawn(coins, q).1.Paid? ==> q.balance >= q.amount
  {
  }

  lemma LedgerFalls(entries: Entries, did: JsString, currency: JsString, amount: nat, paid: bool, c: JsString)
    requires currency != NO_CURRENCY && c != NO_CURRENCY && c != SATOSHI
    ensures var after := LedgerAfter(entries, did, currency, amount, paid);
      && Total(after, c) == Total(entries, c) - (if paid && c == currency then amount else 0)
      && BalanceOf(after, did, currency) == BalanceOf(entries, did, currency) - (if paid then amount else 0)
  {
    var left := BalanceOf(entries, did, currency) - amount;
    TotalAfterWrite(entries, did, left, currency, c);
    NamedReadOverNamedWrite(entries, did, left, currency, did, currency);
  }

  /**
   With the payment the agent's balance falls by the amount, not below zero, and what all agents
   are owed falls with it; a refused withdrawal leaves the ledger as it is.
   */
  lemma WithdrawalDebits(coins: seq<Coin>, q: Request, entries: Entries, did: JsString, currency: JsString, c: JsString)
    requires currency != NO_CURRENCY && c != NO_CURRENCY && c != SATOSHI
    requires q.balance == BalanceOf(entries, did, currency)
    ensures var paid := Withdrawn(coins, q).1.Paid?;
      var after := LedgerAfter(entries, did, currency, q.amount, paid);
      && Total(after, c) == Total(entries, c) - (if paid && c == currency then q.amount else 0)
      && BalanceOf(after, did, currency) == q.balance - (if paid then q.amount else 0)
      && (paid ==> BalanceOf(after, did, currency) >= 0)
  {
    PaidIsCovered(coins, q);
    LedgerFalls(entries, did, currency, q.amount, Withdrawn(coins, q).1.Paid?, c);
  }

  /** Coins stay where they are and stay spent; a payment's inputs were unspent before. */
  ghost predicate KeepsSpent(coins: seq<Coin>, r: seq<Coin>, out: Outcome) {
    && |coins| <= |r|
    && (forall i :: 0 <= i < |coins| ==> StaysCoin(coins[i], r[i]))
    && (out.Paid? ==> forall k :: 0 <= k < |out.inputs| ==>
          out.inputs[k] < |coins| && !coins[out.inputs[k]].spent && r[out.inputs[k]].spent)
  }

  /** At most one coin is new: the change, output 1 of the new transaction. */
  ghost predicate OnlyChangeIsNew(coins: seq<Coin>, r: seq<Coin>, txid: Option<JsString>) {
    || |r| == |coins|
    || (|r| == |coins| + 1 && txid == Some(r[|coins|].txid) && r[|coins|].vout == 1)
  }

  lemma PayingKeepsSpent(coins: seq<Coin>, q: Request, at: seq<nat>)
    requires Spendable(coins, at, q.chain)
    ensures KeepsSpent(coins, Paying(coins, q, at).0, Paying(coins, q, at).1)
    ensures OnlyChangeIsNew(coins, Paying(coins, q, at).0, q.txid)
  {
    forall i | 0 <= i < |coins| ensures StaysCoin(coins[i], MarkSpent(coins, at)[i]) {
      MarkKeeps(coins, at, |at|, i);
    }
    forall k | 0 <= k < |at| ensures MarkSpent(coins, at)[at[k]].spent {
      MarkKeeps(coins, at, |at|, at[k]);
    }
  }

  lemma WithdrawalKeepsSpent(coins: seq<Coin>, q: Request)
    requires q.amount > 0
    ensures KeepsSpent(coins, Withdrawn(coins, q).0, Withdrawn(coins, q).1)
    ensures OnlyChangeIsNew(coins, Withdrawn(coins, q).0, q.txid)
  {
    var at := Choice(coins, q.chain, q.amount + FEE).0;
    ChosenIsSpendable(coins, q.chain, q.amount + FEE, at);
    PayingKeepsSpent(coins, q, at);
  }

  // ---------- runs of withdrawals ----------

  function OutpointOf(c: Coin): (JsString, nat) {
    (c.txid, c.vout)
  }

  ghost predicate DistinctOutpoints(coins: seq<Coin>) {
    forall p, q :: 0 <= p < q < |coins| ==> OutpointOf(coins[p]) != OutpointOf(coins[q])
  }

  /** A broadcast transaction is new: none of its outputs is in the file. */
  ghost predicate FreshTxid(coins: seq<Coin>, txid: Option<JsString>) {
    forall p :: 0 <= p < |coins| ==> txid != Some(coins[p].txid)
  }

  /** The transaction of a withdrawal with this outcome spends the outpoint. */
  ghost predicate Spends(coins: seq<Coin>, out: Outcome, o: (JsString, nat)) {
    out.Paid? && exists k :: 0 <= k < |out.inputs| && out.inputs[k] < |coins| && OutpointOf(coins[out.inputs[k]]) == o
  }

  /** Coin files with different outpoints, one for each withdrawal and one after all; coins stay, inputs come to be spent. */
  ghost predicate History(files: seq<seq<Coin>>, outs: seq<Outcome>) {
    && |files| == |outs| + 1
    && (forall k :: 0 <= k < |files| ==> DistinctOutpoints(files[k]))
    && (forall k :: 0 <= k < |outs| ==> KeepsSpent(files[k], files[k + 1], outs[k]))
  }

  lemma {:induction false} CoinStays(files: seq<seq<Coin>>, outs: seq<Outcome>, i: nat, j: nat, p: nat)
    requires History(files, outs) && i <= j < |files| && p < |files[i]|
    ensures p < |files[j]| && StaysCoin(files[i][p], files[j][p])
    decreases j
  {
    if i < j {
      CoinStays(files, outs, i, j - 1, p);
      assert KeepsSpent(files[j - 1], files[j - 1 + 1], outs[j - 1]);
      assert StaysCoin(files[j - 1][p], files[j][p]);
    }
  }

  lemma NoOutpointTwice(files: seq<seq<Coin>>, outs: seq<Outcome>, i: nat, j: nat, o: (JsString, nat))
    requires History(files, outs) && i < j < |outs| && Spends(files[i], outs[i], o)
    ensures !Spends(files[j], outs[j], o)
  {
    var k :| 0 <= k < |outs[i].inputs| && outs[i].inputs[k] < |files[i]| && OutpointOf(files[i][outs[i].inputs[k]]) == o;
    var p := outs[i].inputs[k];
    assert KeepsSpent(files[i], files[i + 1], outs[i]) && KeepsSpent(files[j], files[j + 1], outs[j]);
    assert StaysCoin(files[i][p], files[i + 1][p]) && files[i + 1][p].spent;
    CoinStays(files, outs, i + 1, j, p);
    assert DistinctOutpoints(files[j]) && files[j][p].spent && OutpointOf(files[j][p]) == o;
  }

  /** None of the coins is in the file yet, or twice among them: what a scan lets into the file. */
  ghost predicate NewOutpoints(coins: seq<Coin>, found: seq<Coin>) {
    && DistinctOutpoints(found)
    && forall p, q :: 0 <= p < |coins| && 0 <= q < |found| ==> OutpointOf(coins[p]) != OutpointOf(found[q])
  }

  /** The coin files of a run: each withdrawal finds what the one before left and coins found since. */
  ghost predicate IsRun(files: seq<seq<Coin>>, requests: seq<Request>, found: seq<seq<Coin>>) {
    && |files| == |requests| + 1 == |found| + 1 && DistinctOutpoints(files[0])
    && forall k :: 0 <= k < |requests| ==> RunStep(files[k], requests[k], found[k], files[k + 1])
  }

  ghost predicate RunStep(before: seq<Coin>, q: Request, found: seq<Coin>, after: seq<Coin>) {
    var left := Withdrawn(before, q).0;
    q.amount > 0 && FreshTxid(before, q.txid) && NewOutpoints(left, found) && after == left + found
  }

  lemma OutpointsStayDistinct(coins: seq<Coin>, r: seq<Coin>, out: Outcome, txid: Option<JsString>)
    requires DistinctOutpoints(coins) && FreshTxid(coins, txid)
    requires KeepsSpent(coins, r, out) && OnlyChangeIsNew(coins, r, txid)
    ensures DistinctOutpoints(r)
  {
    forall i, j | 0 <= i < j < |r| ensures OutpointOf(r[i]) != OutpointOf(r[j]) {
      assert StaysCoin(coins[i], r[i]);
      if j < |coins| {
        assert StaysCoin(coins[j], r[j]);
      }
    }
  }

  lemma WithFound(coins: seq<Coin>, left: seq<Coin>, found: seq<Coin>, out: Outcome)
    requires DistinctOutpoints(left) && NewOutpoints(left, found) && KeepsSpent(coins, left, out)
    ensures DistinctOutpoints(left + found) && KeepsSpent(coins, left + found, out)
  {
    var r := left + found;
    forall i, j | 0 <= i < j < |r| ensures OutpointOf(r[i]) != OutpointOf(r[j]) {
      if i >= |left| {
        assert OutpointOf(found[i - |left|]) != OutpointOf(found[j - |left|]);
      }
    }
  }

  lemma StepKeepsDistinct(before: seq<Coin>, q: Request, found: seq<Coin>, after: seq<Coin>, out: Outcome)
    requires DistinctOutpoints(before) && RunStep(before, q, found, after) && out == Withdrawn(before, q).1
    ensures DistinctOutpoints(after) && KeepsSpent(before, after, out)
  {
    var left := Withdrawn(before, q).0;
    WithdrawalKeepsSpent(before, q);
    OutpointsStayDistinct(before, left, out, q.txid);
    WithFound(before, left, found, out);
  }

  lemma {:induction false} FilesStayDistinct(files: seq<seq<Coin>>, requests: seq<Request>, found: seq<seq<Coin>>, k: nat)
    requires IsRun(files, requests, found) && k < |files|
    ensures DistinctOutpoints(files[k])
  {
    if k > 0 {
      FilesStayDistinct(files, requests, found, k - 1);
      assert RunStep(files[k - 1], requests[k - 1], found[k - 1], files[k - 1 + 1]);
      StepKeepsDistinct(files[k - 1], requests[k - 1], found[k - 1], files[k], Withdrawn(files[k - 1], requests[k - 1]).1);
    }
  }

  /**
   In any run of withdrawals, with coins found in between, no outpoint is spent by two payments, if the
   file started with different outpoints and every broadcast transaction was new.
   */
  lemma NoCoinPaidTwice(files: seq<seq<Coin>>, requests: seq<Request>, found: seq<seq<Coin>>, i: nat, j: nat, o: (JsString, nat))
    requires IsRun(files, requests, found) && i < j < |requests|
    requires Spends(files[i], Withdrawn(files[i], requests[i]).1, o)
    ensures !Spends(files[j], Withdrawn(files[j], requests[j]).1, o)
  {
    var n := |requests|;
    var outs := seq(n, k requires 0 <= k < n => Withdrawn(files[k], requests[k]).1);
    forall k | 0 <= k < n ensures KeepsSpent(files[k], files[k + 1], outs[k]) {
      FilesStayDistinct(files, requests, found, k);
      StepKeepsDistinct(files[k], requests[k], found[k], files[k + 1], outs[k]);
    }
    forall k | 0 <= k < |files| ensures DistinctOutpoints(files[k]) {
      FilesStayDistinct(files, requests, found, k);
    }
    NoOutpointTwice(files, outs, i, j, o);
  }
}
