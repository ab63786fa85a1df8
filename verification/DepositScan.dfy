/**
 The deposit scan behind `GET /pay/.balance` (src/handlers/pay.js): new outputs are credited to the
 ledger and then remembered in the UTXO file, with crashes around the two writes.
 */
module DepositScan {
  import opened JsText
  import opened OrderedMap
  import opened WebLedger
  import opened Coins
  import TokenBalances

  /** One output an explorer lists; `script` is what the lookup of its transaction gives, if anything. */
  datatype Seen = Seen(txid: JsString, vout: nat, value: nat, script: JsString)

  datatype Response = Listed(outputs: seq<Seen>) | NotOk | Throws

  datatype LedgerFile = LedgerFile(entries: Entries, credited: seq<JsString>)

  datatype Disk = Disk(ledger: LedgerFile, utxos: seq<Coin>)

  datatype Crash = NoCrash | BeforeWrites | BetweenWrites

  /** A credit made once: its key, and whose balance rises by how much. */
  datatype Entry = Entry(key: JsString, did: JsString, value: nat, currency: JsString)

  // ---------- chains and deposit keys ----------

  predicate IsChain(c: JsString) {
    c == U("tbtc3") || c == U("tbtc4") || c == U("btc") || c == U("ltc") || c == U("signet")
  }

  function UnitOf(chain: JsString): JsString {
    if chain == U("btc") then SAT else chain
  }

  const COLON: Unit := 58

  function Key(chain: JsString, txid: JsString, vout: nat): JsString {
    chain + [COLON] + (txid + [COLON] + Digits(vout))
  }

  lemma ChainText(c: JsString)
    requires IsChain(c)
    ensures COLON !in c && UnitOf(c) != NO_CURRENCY && UnitOf(c) != SATOSHI
  {
    assert |U("tbtc3")| == 5 && |U("tbtc4")| == 5 && |U("btc")| == 3 && |U("ltc")| == 3 && |U("signet")| == 6;
    assert |SATOSHI| == 7 && |SAT| == 3;
  }

  function FirstColon(s: JsString): nat {
    if s == [] || s[0] == COLON then 0 else 1 + FirstColon(s[1..])
  }

  function LastColon(s: JsString): nat {
    if s == [] || s[|s| - 1] == COLON then |s| else LastColon(s[..|s| - 1])
  }

  lemma {:induction false} FirstColonAt(a: JsString, x: JsString)
    requires COLON !in a
    ensures FirstColon(a + [COLON] + x) == |a|
  {
    if a == [] {
      assert a + [COLON] + x == [COLON] + x;
    } else {
      assert (a + [COLON] + x)[1..] == a[1..] + [COLON] + x;
      FirstColonAt(a[1..], x);
    }
  }

  lemma {:induction false} LastColonAt(a: JsString, x: JsString)
    requires COLON !in x
    ensures LastColon(a + [COLON] + x) == |a| + 1
  {
    if x == [] {
      assert a + [COLON] + x == a + [COLON];
    } else {
      var y := x[..|x| - 1];
      assert (a + [COLON] + x)[..|a| + |x|] == a + [COLON] + y;
      LastColonAt(a, y);
    }
  }

  lemma SplitSame(a: JsString, b: JsString, x: JsString, y: JsString)
    requires |a| == |b| && a + [COLON] + x == b + [COLON] + y
    ensures a == b && x == y
  {
    var s, t := a + [COLON] + x, b + [COLON] + y;
    assert s[..|a|] == a && t[..|b|] == b && s[|a| + 1..] == x && t[|b| + 1..] == y;
  }

  /** Different outpoints have different keys. */
  lemma KeyInjective(c: JsString, txid: JsString, vout: nat, d: JsString, txid2: JsString, vout2: nat)
    requires IsChain(c) && IsChain(d) && Key(c, txid, vout) == Key(d, txid2, vout2)
    ensures c == d && txid == txid2 && vout == vout2
  {
    ChainText(c);
    ChainText(d);
    var x, y := txid + [COLON] + Digits(vout), txid2 + [COLON] + Digits(vout2);
    FirstColonAt(c, x);
    FirstColonAt(d, y);
    SplitSame(c, d, x, y);
    LastColonAt(txid, Digits(vout));
    LastColonAt(txid2, Digits(vout2));
    SplitSame(txid, txid2, Digits(vout), Digits(vout2));
    DigitsValueOf(vout);
    DigitsValueOf(vout2);
  }

  // ---------- the scan as a function ----------

  /** What a scan holds in memory; `log` lists the credits it made. */
  datatype Work = Work(entries: Entries, credited: seq<JsString>, utxos: seq<Coin>, total: nat, appended: bool, log: seq<Entry>)

  function SeeOne(w: Work, chain: JsString, did: JsString, u: Seen): Work {
    if Cached(w.utxos, u.txid, u.vout) then w
    else
      var key, currency := Key(chain, u.txid, u.vout), UnitOf(chain);
      var stored := w.(utxos := w.utxos + [Coin(u.txid, u.vout, u.value, u.script, chain, did, false)], appended := true);
      if key in w.credited then stored
      else
        stored.(entries := WithBalance(w.entries, did, BalanceOf(w.entries, did, currency) + u.value, currency),
                credited := w.credited + [key], total := w.total + u.value,
                log := w.log + [Entry(key, did, u.value, currency)])
  }

  function SeeAll(w: Work, chain: JsString, did: JsString, outputs: seq<Seen>): Work {
    if outputs == [] then w
    else SeeOne(SeeAll(w, chain, did, outputs[..|outputs| - 1]), chain, did, outputs[|outputs| - 1])
  }

  type Answers = seq<(JsString, Response)>

  /** Nothing when an answer throws: the whole scan is given up, unwritten. */
  function SeeChains(w: Work, did: JsString, answers: Answers): Option<Work> {
    if answers == [] then Some(w)
    else
      var before := SeeChains(w, did, answers[..|answers| - 1]);
      var (chain, response) := answers[|answers| - 1];
      if before.None? then None
      else match response
        case Throws => None
        case NotOk => before
        case Listed(outputs) => Some(SeeAll(before.value, chain, did, outputs))
  }

  function Opened(d: Disk): Work {
    Work(d.ledger.entries, d.ledger.credited, d.utxos, 0, false, [])
  }

  function Scanned(d: Disk, did: JsString, answers: Answers, crash: Crash): Disk {
    match SeeChains(Opened(d), did, answers)
    case None => d
    case Some(w) =>
      if crash == BeforeWrites then d
      else
        var ledger := if w.total > 0 then LedgerFile(w.entries, w.credited) else d.ledger;
        Disk(ledger, if crash == NoCrash && w.appended then w.utxos else d.utxos)
  }

  /** The credits that reach the ledger file. */
  ghost function Committed(d: Disk, did: JsString, answers: Answers, crash: Crash): seq<Entry> {
    match SeeChains(Opened(d), did, answers)
    case None => []
    case Some(w) => if crash == BeforeWrites || w.total == 0 then [] else w.log
  }

  // ---------- claiming an output by hand ----------

  datatype Payee = UserAddress | PodAddress | Elsewhere

  /** What the explorer knows of the claimed output. */
  datatype Lookup = NoTransaction | LookupFails | NoOutput | Found(value: nat, script: JsString, payee: Payee)

  datatype ClaimReply = Claimed(balance: int) | Rejected(code: int)

  /** Chains are looked up in a plain object, so an inherited name is found there, and the lookup then fails. */
  function UnknownChain(chain: JsString): ClaimReply {
    Rejected(if TokenBalances.Inherited(chain) then 502 else 400)
  }

  /** A claim credits the output, without a deposit key, unless it is cached. */
  function AfterClaim(d: Disk, did: JsString, chain: JsString, txid: JsString, vout: nat, found: Lookup): (Disk, ClaimReply) {
    if !IsChain(chain) then (d, UnknownChain(chain))
    else
      match found
      case NoTransaction => (d, Rejected(400))
      case LookupFails => (d, Rejected(502))
      case NoOutput => (d, Rejected(400))
      case Found(value, script, payee) =>
        if payee == Elsewhere || Cached(d.utxos, txid, vout) then (d, Rejected(400))
        else
          var balance := BalanceOf(d.ledger.entries, did, UnitOf(chain)) + value;
          var coin := Coin(txid, vout, value, script, chain, if payee == UserAddress then did else NO_TWEAK, false);
          (Disk(d.ledger.(entries := WithBalance(d.ledger.entries, did, balance, UnitOf(chain))), d.utxos + [coin]),
           Claimed(balance))
  }

  // ---------- the code ----------

  method IsCached(utxos: seq<Coin>, txid: JsString, vout: nat) returns (found: bool)
    ensures found == Cached(utxos, txid, vout)
  {
    for i := 0 to |utxos|
      invariant !Cached(utxos[..i], txid, vout)
    {
      if utxos[i].txid == txid && utxos[i].vout == vout {
        return true;
      }
      assert utxos[..i + 1] == utxos[..i] + [utxos[i]];
    }
    assert utxos[..|utxos|] == utxos;
    return false;
  }

  /** The loop body: what is cached is passed over, anything else credited once and remembered. */
  method ScanOutput(ledger: Ledger, chain: JsString, did: JsString, u: Seen,
                    utxos0: seq<Coin>, credited0: nat, appended0: bool, ghost log0: seq<Entry>)
    returns (utxos: seq<Coin>, credited: nat, appended: bool, ghost log: seq<Entry>)
    modifies ledger
    ensures Work(ledger.entries, ledger.credited, utxos, credited, appended, log)
      == SeeOne(Work(old(ledger.entries), old(ledger.credited), utxos0, credited0, appended0, log0), chain, did, u)
  {
    utxos, credited, appended, log := utxos0, credited0, appended0, log0;
    var known := IsCached(utxos, u.txid, u.vout);
    if known {
      return;
    }
    var currency := UnitOf(chain);
    var depositKey := Key(chain, u.txid, u.vout);
    var didCredit, balance := ledger.CreditOnce(depositKey, did, u.value, currency);
    utxos := utxos + [Coin(u.txid, u.vout, u.value, u.script, chain, did, false)];
    appended := true;
    if didCredit {
      credited := credited + u.value;
      log := log + [Entry(depositKey, did, u.value, currency)];
    }
  }

  /** The loop over one address's outputs. */
  method ScanOutputs(ledger: Ledger, chain: JsString, did: JsString, outputs: seq<Seen>,
                     utxos0: seq<Coin>, credited0: nat, appended0: bool, ghost log0: seq<Entry>)
    returns (utxos: seq<Coin>, credited: nat, appended: bool, ghost log: seq<Entry>)
    modifies ledger
    ensures Work(ledger.entries, ledger.credited, utxos, credited, appended, log)
      == SeeAll(Work(old(ledger.entries), old(ledger.credited), utxos0, credited0, appended0, log0), chain, did, outputs)
  {
    ghost var w := Work(ledger.entries, ledger.credited, utxos0, credited0, appended0, log0);
    utxos, credited, appended, log := utxos0, credited0, appended0, log0;
    for i := 0 to |outputs|
      invariant SeeAll(w, chain, did, outputs[..i]) == Work(ledger.entries, ledger.credited, utxos, credited, appended, log)
    {
      assert outputs[..i + 1][..i] == outputs[..i];
      utxos, credited, appended, log := ScanOutput(ledger, chain, did, outputs[i], utxos, credited, appended, log);
    }
    assert outputs[..|outputs|] == outputs;
  }

  class PayStore {
    var disk: Disk

    constructor ()
      ensures disk == Disk(LedgerFile([], []), [])
    {
      disk := Disk(LedgerFile([], []), []);
    }

    method Scan(did: JsString, answers: Answers, crash: Crash)
      modifies this
      ensures disk == Scanned(old(disk), did, answers, crash)
    {
      var utxos := disk.utxos;
      var ledger := new Ledger(disk.ledger.entries, disk.ledger.credited);
      var credited: nat := 0;
      var appended := false;
      ghost var log: seq<Entry> := [];
      for c := 0 to |answers|
        invariant disk == old(disk)
        invariant SeeChains(Opened(disk), did, answers[..c])
          == Some(Work(ledger.entries, ledger.credited, utxos, credited, appended, log))
      {
        assert answers[..c + 1] == answers[..c] + [answers[c]];
        var (chain, response) := answers[c];
        if response.NotOk? {
          continue;
        }
        if response.Throws? {
          GivenUp(Opened(disk), did, answers, c);
          return;
        }
        utxos, credited, appended, log := ScanOutputs(ledger, chain, did, response.outputs, utxos, credited, appended, log);
      }
      assert answers[..|answers|] == answers;
      if crash == BeforeWrites {
        return;
      }
      if credited > 0 {
        disk := disk.(ledger := LedgerFile(ledger.entries, ledger.credited));
      }
      if crash == BetweenWrites {
        return;
      }
      if appended {
        disk := disk.(utxos := utxos);
      }
    }

    method Claim(did: JsString, chain: JsString, txid: JsString, vout: nat, found: Lookup) returns (reply: ClaimReply)
      modifies this
      ensures (disk, reply) == AfterClaim(old(disk), did, chain, txid, vout, found)
    {
      if !IsChain(chain) {
        return UnknownChain(chain);
      }
      if !found.Found? {
        return Rejected(if found.LookupFails? then 502 else 400);
      }
      var tweak := if found.payee == UserAddress then did else NO_TWEAK;
      if found.payee == Elsewhere {
        return Rejected(400);
      }
      var utxos := disk.utxos;
      var claimed := IsCached(utxos, txid, vout);
      if claimed {
        return Rejected(400);
      }
      utxos := utxos + [Coin(txid, vout, found.value, found.script, chain, tweak, false)];
      disk := disk.(utxos := utxos);
      var ledger := new Ledger(disk.ledger.entries, disk.ledger.credited);
      var newBalance := ledger.Credit(did, found.value, UnitOf(chain));
      disk := disk.(ledger := LedgerFile(ledger.entries, ledger.credited));
      return Claimed(newBalance);
    }
  }

  lemma {:induction false} GivenUp(w: Work, did: JsString, answers: Answers, c: nat)
    requires c < |answers| && answers[c].1.Throws?
    ensures SeeChains(w, did, answers).None?
    decreases |answers|
  {
    if c < |answers| - 1 {
      GivenUp(w, did, answers[..|answers| - 1], c);
    }
  }

  // ---------- explorers that agree ----------

  /** One chain and one value per outpoint, whoever asks and whenever. */
  datatype Chains = Chains(chainOf: (JsString, nat) -> JsString, valueOf: (JsString, nat) -> nat)

  ghost predicate Agrees(world: Chains, answers: Answers) {
    forall c, i :: 0 <= c < |answers| && answers[c].1.Listed? && 0 <= i < |answers[c].1.outputs| ==>
      Honest(world, answers[c].0, answers[c].1.outputs[i])
  }

  ghost predicate Honest(world: Chains, chain: JsString, u: Seen) {
    IsChain(chain) && world.chainOf(u.txid, u.vout) == chain && world.valueOf(u.txid, u.vout) == u.value
  }

  // ---------- what the files say of the past ----------

  function Keys(log: seq<Entry>): (r: seq<JsString>)
    ensures |r| == |log| && forall i :: 0 <= i < |log| ==> r[i] == log[i].key
  {
    if log == [] then [] else Keys(log[..|log| - 1]) + [log[|log| - 1].key]
  }

  /** What a log adds to one balance. */
  function Gained(log: seq<Entry>, did: JsString, currency: JsString): nat {
    if log == [] then 0
    else
      var e := log[|log| - 1];
      Gained(log[..|log| - 1], did, currency) + (if e.did == did && e.currency == currency then e.value else 0)
  }

  ghost predicate SameKeys(credited: seq<JsString>, before: seq<JsString>, log: seq<Entry>) {
    && credited == before + Keys(log)
    && (forall i, j :: 0 <= i < j < |log| ==> log[i].key != log[j].key)
    && (forall i :: 0 <= i < |log| ==> log[i].key !in before)
  }

  ghost predicate SameBalances(entries: Entries, before: Entries, log: seq<Entry>) {
    forall did, c {:trigger Explained(entries, before, log, did, c)} :: Explained(entries, before, log, did, c)
  }

  /** The balance is what it was before, plus what the log gained it. */
  predicate Explained(entries: Entries, before: Entries, log: seq<Entry>, did: JsString, c: JsString) {
    c != NO_CURRENCY && c != SATOSHI ==> BalanceOf(entries, did, c) == BalanceOf(before, did, c) + Gained(log, did, c)
  }

  /** One scan: who polls, what the explorers answer, and where it crashes. */
  datatype Poll = Poll(did: JsString, answers: Answers, crash: Crash)

  ghost predicate Lists(answers: Answers, txid: JsString, vout: nat) {
    exists c, i :: 0 <= c < |answers| && ListsAt(answers, c, i, txid, vout)
  }

  predicate ListsAt(answers: Answers, c: nat, i: int, txid: JsString, vout: nat)
    requires c < |answers|
  {
    && answers[c].1.Listed? && 0 <= i < |answers[c].1.outputs|
    && answers[c].1.outputs[i].txid == txid && answers[c].1.outputs[i].vout == vout
  }

  /** A poll by this agent was answered with this outpoint: it pays the agent's address. */
  ghost predicate Asked(polls: seq<Poll>, did: JsString, txid: JsString, vout: nat) {
    exists k :: 0 <= k < |polls| && polls[k].did == did && Lists(polls[k].answers, txid, vout)
  }

  /** Every entry credits an outpoint: its key, its value, its chain's unit, and an agent it was listed for. */
  ghost predicate TrueLog(world: Chains, polls: seq<Poll>, log: seq<Entry>) {
    forall i {:trigger TrueEntry(world, polls, log[i])} :: 0 <= i < |log| ==> TrueEntry(world, polls, log[i])
  }

  ghost predicate TrueEntry(world: Chains, polls: seq<Poll>, e: Entry) {
    exists txid, vout: nat :: IsOutpoint(world, e, txid, vout) && Asked(polls, e.did, txid, vout)
  }

  ghost predicate IsOutpoint(world: Chains, e: Entry, txid: JsString, vout: nat) {
    var chain := world.chainOf(txid, vout);
    IsChain(chain) && e.key == Key(chain, txid, vout) && e.value == world.valueOf(txid, vout) && e.currency == UnitOf(chain)
  }

  /** What a scan in progress knows, relative to the files it started from. */
  ghost predicate WorkOk(world: Chains, polls: seq<Poll>, d: Disk, w: Work) {
    && SameKeys(w.credited, d.ledger.credited, w.log)
    && SameBalances(w.entries, d.ledger.entries, w.log)
    && TrueLog(world, polls, w.log)
    && ZeroLog(w.total, w.log)
    && (!w.appended ==> w.utxos == d.utxos)
  }

  lemma SameKeysSnoc(credited: seq<JsString>, before: seq<JsString>, log: seq<Entry>, e: Entry)
    requires SameKeys(credited, before, log) && e.key !in credited
    ensures SameKeys(credited + [e.key], before, log + [e])
  {
    var more := log + [e];
    assert more[..|log|] == log;
    forall i | 0 <= i < |log| ensures log[i].key != e.key {
      assert credited[|before| + i] == log[i].key;
    }
    assert credited + [e.key] == before + (Keys(log) + [e.key]);
  }

  lemma SameBalancesSnoc(entries: Entries, before: Entries, log: seq<Entry>, e: Entry)
    requires SameBalances(entries, before, log) && e.currency != NO_CURRENCY && e.currency != SATOSHI
    ensures SameBalances(WithBalance(entries, e.did, BalanceOf(entries, e.did, e.currency) + e.value, e.currency), before, log + [e])
  {
    var n := BalanceOf(entries, e.did, e.currency) + e.value;
    assert (log + [e])[..|log|] == log;
    forall did, c ensures Explained(WithBalance(entries, e.did, n, e.currency), before, log + [e], did, c) {
      assert Explained(entries, before, log, did, c);
      if c != NO_CURRENCY && c != SATOSHI {
        NamedReadOverNamedWrite(entries, e.did, n, e.currency, did, c);
      }
    }
  }

  ghost predicate ZeroLog(total: int, log: seq<Entry>) {
    total == 0 ==> forall i :: 0 <= i < |log| ==> log[i].value == 0
  }

  lemma TrueLogSnoc(world: Chains, polls: seq<Poll>, log: seq<Entry>, e: Entry)
    requires TrueLog(world, polls, log) && TrueEntry(world, polls, e)
    ensures TrueLog(world, polls, log + [e])
  {
    forall i | 0 <= i < |log + [e]| ensures TrueEntry(world, polls, (log + [e])[i]) {
      if i < |log| {
        assert TrueEntry(world, polls, log[i]);
      }
    }
  }

  /** A credit in progress: key, balance and log move together. */
  lemma CreditOk(world: Chains, polls: seq<Poll>, d: Disk, w: Work, e: Entry, r: Work)
    requires WorkOk(world, polls, d, w) && TrueEntry(world, polls, e) && e.key !in w.credited
    requires e.currency != NO_CURRENCY && e.currency != SATOSHI
    requires r.entries == WithBalance(w.entries, e.did, BalanceOf(w.entries, e.did, e.currency) + e.value, e.currency)
    requires r.credited == w.credited + [e.key] && r.log == w.log + [e] && r.total == w.total + e.value && r.appended
    ensures WorkOk(world, polls, d, r)
  {
    SameKeysSnoc(w.credited, d.ledger.credited, w.log, e);
    SameBalancesSnoc(w.entries, d.ledger.entries, w.log, e);
    TrueLogSnoc(world, polls, w.log, e);
    assert ZeroLog(r.total, r.log);
  }

  lemma EntryIsTrue(world: Chains, polls: seq<Poll>, chain: JsString, did: JsString, u: Seen, e: Entry)
    requires Honest(world, chain, u) && Asked(polls, did, u.txid, u.vout)
    requires e == Entry(Key(chain, u.txid, u.vout), did, u.value, UnitOf(chain))
    ensures TrueEntry(world, polls, e) && e.currency != NO_CURRENCY && e.currency != SATOSHI
  {
    ChainText(chain);
    assert IsOutpoint(world, e, u.txid, u.vout);
  }

  lemma SeeOneOk(world: Chains, polls: seq<Poll>, d: Disk, w: Work, chain: JsString, did: JsString, u: Seen)
    requires WorkOk(world, polls, d, w) && Honest(world, chain, u) && Asked(polls, did, u.txid, u.vout)
    ensures WorkOk(world, polls, d, SeeOne(w, chain, did, u))
  {
    var e := Entry(Key(chain, u.txid, u.vout), did, u.value, UnitOf(chain));
    if !Cached(w.utxos, u.txid, u.vout) && e.key !in w.credited {
      EntryIsTrue(world, polls, chain, did, u, e);
      CreditOk(world, polls, d, w, e, SeeOne(w, chain, did, u));
    }
  }

  lemma {:induction false} SeeAllOk(world: Chains, polls: seq<Poll>, d: Disk, w: Work, chain: JsString, did: JsString, outputs: seq<Seen>)
    requires WorkOk(world, polls, d, w)
    requires forall i :: 0 <= i < |outputs| ==> Honest(world, chain, outputs[i]) && Asked(polls, did, outputs[i].txid, outputs[i].vout)
    ensures WorkOk(world, polls, d, SeeAll(w, chain, did, outputs))
  {
    if outputs != [] {
      var n := |outputs| - 1;
      SeeAllOk(world, polls, d, w, chain, did, outputs[..n]);
      SeeOneOk(world, polls, d, SeeAll(w, chain, did, outputs[..n]), chain, did, outputs[n]);
    }
  }

  /** The scan in progress after the first `n` answers of a poll. */
  lemma {:induction false} SeeChainsOk(world: Chains, p: Poll, d: Disk, w: Work, n: nat)
    requires WorkOk(world, [p], d, w) && Agrees(world, p.answers) && n <= |p.answers|
    requires SeeChains(w, p.did, p.answers[..n]).Some?
    ensures WorkOk(world, [p], d, SeeChains(w, p.did, p.answers[..n]).value)
  {
    if n > 0 {
      assert p.answers[..n][..n - 1] == p.answers[..n - 1];
      SeeChainsOk(world, p, d, w, n - 1);
      var (chain, response) := p.answers[n - 1];
      if response.Listed? {
        forall i | 0 <= i < |response.outputs|
          ensures Honest(world, chain, response.outputs[i]) && Asked([p], p.did, response.outputs[i].txid, response.outputs[i].vout)
        {
          assert ListsAt(p.answers, n - 1, i, response.outputs[i].txid, response.outputs[i].vout);
          assert [p][0].did == p.did;
        }
        SeeAllOk(world, [p], d, SeeChains(w, p.did, p.answers[..n - 1]).value, chain, p.did, response.outputs);
      }
    }
  }

  lemma FinalOk(world: Chains, p: Poll, d: Disk)
    requires Agrees(world, p.answers) && SeeChains(Opened(d), p.did, p.answers).Some?
    ensures WorkOk(world, [p], d, SeeChains(Opened(d), p.did, p.answers).value)
  {
    assert Keys([]) == [];
    assert p.answers[..|p.answers|] == p.answers;
    SeeChainsOk(world, p, d, Opened(d), |p.answers|);
  }

  /** The log credits outpoints listed in the polls, with new and different keys, and accounts for every balance. */
  ghost predicate ExplainedBy(world: Chains, polls: seq<Poll>, before: LedgerFile, after: LedgerFile, log: seq<Entry>) {
    && TrueLog(world, polls, log)
    && SameKeys(after.credited, before.credited, log)
    && SameBalances(after.entries, before.entries, log)
  }

  /** The ledger after a scan of any disk: new keys, each crediting the poller with one listed outpoint's value. */
  lemma ScanExplained(world: Chains, d: Disk, p: Poll)
    requires Agrees(world, p.answers)
    ensures ExplainedBy(world, [p], d.ledger, Scanned(d, p.did, p.answers, p.crash).ledger, Committed(d, p.did, p.answers, p.crash))
  {
    assert Keys([]) == [];
    if SeeChains(Opened(d), p.did, p.answers).Some? {
      FinalOk(world, p, d);
    }
  }

  // ---------- one outpoint through a scan ----------

  function KeyOf(world: Chains, txid: JsString, vout: nat): JsString {
    Key(world.chainOf(txid, vout), txid, vout)
  }

  /**
   What a scan does to one outpoint: cached at the start, its key stays as it was; cached by the scan,
   it has a key.
   */
  ghost predicate Tracks(world: Chains, d: Disk, w: Work, txid: JsString, vout: nat) {
    var key := KeyOf(world, txid, vout);
    if Cached(d.utxos, txid, vout) then Cached(w.utxos, txid, vout) && (key in w.credited <==> key in d.ledger.credited)
    else Cached(w.utxos, txid, vout) ==> key in w.credited
  }

  lemma SeeOneTracks(world: Chains, d: Disk, w: Work, chain: JsString, did: JsString, u: Seen, txid: JsString, vout: nat)
    requires Honest(world, chain, u) && IsChain(world.chainOf(txid, vout)) && Tracks(world, d, w, txid, vout)
    ensures var r := SeeOne(w, chain, did, u);
      && Tracks(world, d, r, txid, vout) && Cached(r.utxos, u.txid, u.vout)
      && (Cached(w.utxos, txid, vout) ==> Cached(r.utxos, txid, vout))
  {
    var x := Coin(u.txid, u.vout, u.value, u.script, chain, did, false);
    CachedSnoc(w.utxos, x, txid, vout);
    CachedSnoc(w.utxos, x, u.txid, u.vout);
    if Key(chain, u.txid, u.vout) == KeyOf(world, txid, vout) {
      KeyInjective(chain, u.txid, u.vout, world.chainOf(txid, vout), txid, vout);
    }
  }

  lemma {:induction false} SeeAllTracks(world: Chains, d: Disk, w: Work, chain: JsString, did: JsString, outputs: seq<Seen>,
                                        txid: JsString, vout: nat)
    requires IsChain(world.chainOf(txid, vout)) && Tracks(world, d, w, txid, vout)
    requires forall i :: 0 <= i < |outputs| ==> Honest(world, chain, outputs[i])
    ensures var r := SeeAll(w, chain, did, outputs);
      && Tracks(world, d, r, txid, vout)
      && (Cached(w.utxos, txid, vout) ==> Cached(r.utxos, txid, vout))
      && ((exists i :: 0 <= i < |outputs| && outputs[i].txid == txid && outputs[i].vout == vout) ==> Cached(r.utxos, txid, vout))
  {
    if outputs != [] {
      var n := |outputs| - 1;
      SeeAllTracks(world, d, w, chain, did, outputs[..n], txid, vout);
      SeeOneTracks(world, d, SeeAll(w, chain, did, outputs[..n]), chain, did, outputs[n], txid, vout);
      if i :| 0 <= i < n && outputs[i].txid == txid && outputs[i].vout == vout {
        assert outputs[..n][i] == outputs[i];
      }
    }
  }

  lemma {:induction false} SeeChainsTracks(world: Chains, d: Disk, w: Work, did: JsString, answers: Answers, txid: JsString, vout: nat)
    requires IsChain(world.chainOf(txid, vout)) && Tracks(world, d, w, txid, vout)
    requires Agrees(world, answers) && SeeChains(w, did, answers).Some?
    ensures var r := SeeChains(w, did, answers).value;
      && Tracks(world, d, r, txid, vout)
      && (Cached(w.utxos, txid, vout) || Lists(answers, txid, vout) ==> Cached(r.utxos, txid, vout))
  {
    if answers != [] {
      var n := |answers| - 1;
      var front := answers[..n];
      SeeChainsTracks(world, d, w, did, front, txid, vout);
      if answers[n].1.Listed? {
        SeeAllTracks(world, d, SeeChains(w, did, front).value, answers[n].0, did, answers[n].1.outputs, txid, vout);
      }
      if Lists(answers, txid, vout) {
        var c, i :| 0 <= c < |answers| && ListsAt(answers, c, i, txid, vout);
        assert c < n ==> ListsAt(front, c, i, txid, vout);
      }
    }
  }

  // ---------- settled outpoints ----------

  /** An outpoint of value that is cached has been credited. */
  ghost predicate Settled(world: Chains, d: Disk, txid: JsString, vout: nat) {
    Cached(d.utxos, txid, vout) && world.valueOf(txid, vout) > 0 ==> KeyOf(world, txid, vout) in d.ledger.credited
  }

  /** An outpoint of value is not among credits of value 0. */
  lemma KeyBefore(world: Chains, polls: seq<Poll>, d: Disk, w: Work, txid: JsString, vout: nat)
    requires WorkOk(world, polls, d, w) && w.total == 0 && IsChain(world.chainOf(txid, vout)) && world.valueOf(txid, vout) > 0
    requires KeyOf(world, txid, vout) in w.credited
    ensures KeyOf(world, txid, vout) in d.ledger.credited
  {
    var key := KeyOf(world, txid, vout);
    if key !in d.ledger.credited {
      var j :| 0 <= j < |w.credited| && w.credited[j] == key;
      var e := w.log[j - |d.ledger.credited|];
      assert e.key == key && TrueEntry(world, polls, e);
      var t, v: nat :| IsOutpoint(world, e, t, v) && Asked(polls, e.did, t, v);
      KeyInjective(world.chainOf(t, v), t, v, world.chainOf(txid, vout), txid, vout);
      assert false;
    }
  }

  lemma FinalWork(world: Chains, d: Disk, did: JsString, answers: Answers, txid: JsString, vout: nat)
    requires Agrees(world, answers) && IsChain(world.chainOf(txid, vout)) && SeeChains(Opened(d), did, answers).Some?
    ensures var w := SeeChains(Opened(d), did, answers).value;
      && Tracks(world, d, w, txid, vout)
      && (Lists(answers, txid, vout) ==> Cached(w.utxos, txid, vout))
      && (!w.appended ==> w.utxos == d.utxos)
      && (w.total == 0 && world.valueOf(txid, vout) > 0 && KeyOf(world, txid, vout) in w.credited ==>
            KeyOf(world, txid, vout) in d.ledger.credited)
  {
    var p := Poll(did, answers, NoCrash);
    FinalOk(world, p, d);
    SeeChainsTracks(world, d, Opened(d), did, answers, txid, vout);
    var w := SeeChains(Opened(d), did, answers).value;
    if w.total == 0 && world.valueOf(txid, vout) > 0 && KeyOf(world, txid, vout) in w.credited {
      KeyBefore(world, [p], d, w, txid, vout);
    }
  }

  /** A scan, crashed or not, neither settles nor unsettles any outpoint. */
  lemma ScanKeepsSettled(world: Chains, d: Disk, did: JsString, answers: Answers, crash: Crash, txid: JsString, vout: nat)
    requires Agrees(world, answers) && IsChain(world.chainOf(txid, vout))
    ensures Settled(world, Scanned(d, did, answers, crash), txid, vout) <==> Settled(world, d, txid, vout)
  {
    if SeeChains(Opened(d), did, answers).Some? {
      FinalWork(world, d, did, answers, txid, vout);
    }
  }

  /**
   A scan of any disk that finishes leaves every outpoint it saw cached, and credits it when of value
   exactly if it was not cached without its key before, as a claim leaves it.
   */
  lemma FinishedScanSettles(world: Chains, d: Disk, did: JsString, answers: Answers, c: nat, i: nat)
    requires Agrees(world, answers) && SeeChains(Opened(d), did, answers).Some?
    requires c < |answers| && answers[c].1.Listed? && i < |answers[c].1.outputs|
    ensures var r, u := Scanned(d, did, answers, NoCrash), answers[c].1.outputs[i];
      && Cached(r.utxos, u.txid, u.vout)
      && (u.value > 0 ==>
            (Key(answers[c].0, u.txid, u.vout) in r.ledger.credited <==> Settled(world, d, u.txid, u.vout)))
  {
    var u := answers[c].1.outputs[i];
    assert Honest(world, answers[c].0, u);
    assert ListsAt(answers, c, i, u.txid, u.vout);
    FinalWork(world, d, did, answers, u.txid, u.vout);
  }

  // ---------- any run of scans ----------


  function Run(d: Disk, polls: seq<Poll>): Disk {
    if polls == [] then d
    else
      var p := polls[|polls| - 1];
      Scanned(Run(d, polls[..|polls| - 1]), p.did, p.answers, p.crash)
  }

  ghost function RunLog(d: Disk, polls: seq<Poll>): seq<Entry> {
    if polls == [] then []
    else
      var p := polls[|polls| - 1];
      RunLog(d, polls[..|polls| - 1]) + Committed(Run(d, polls[..|polls| - 1]), p.did, p.answers, p.crash)
  }

  lemma {:induction false} GainedConcat(a: seq<Entry>, b: seq<Entry>, did: JsString, c: JsString)
    ensures Gained(a + b, did, c) == Gained(a, did, c) + Gained(b, did, c)
    ensures Keys(a + b) == Keys(a) + Keys(b)
  {
    if b == [] {
      assert a + b == a;
    } else {
      var n := |b| - 1;
      assert a + b == (a + b[..n]) + [b[n]];
      assert (a + b)[..|a + b| - 1] == a + b[..n];
      GainedConcat(a, b[..n], did, c);
    }
  }

  lemma SameKeysChain(c3: seq<JsString>, c2: seq<JsString>, c1: seq<JsString>, a: seq<Entry>, b: seq<Entry>)
    requires SameKeys(c2, c1, a) && SameKeys(c3, c2, b)
    ensures SameKeys(c3, c1, a + b)
  {
    GainedConcat(a, b, [], []);
    forall i, j | 0 <= i < j < |a + b| ensures (a + b)[i].key != (a + b)[j].key {
      if i < |a| <= j {
        assert c2[|c1| + i] == a[i].key;
        assert b[j - |a|].key !in c2;
      }
    }
    forall i | 0 <= i < |a + b| ensures (a + b)[i].key !in c1 {
      if i >= |a| {
        assert b[i - |a|].key !in c2;
      }
    }
  }

  lemma SameBalancesChain(e3: Entries, e2: Entries, e1: Entries, a: seq<Entry>, b: seq<Entry>)
    requires SameBalances(e2, e1, a) && SameBalances(e3, e2, b)
    ensures SameBalances(e3, e1, a + b)
  {
    forall did, c ensures Explained(e3, e1, a + b, did, c) {
      GainedConcat(a, b, did, c);
      assert Explained(e2, e1, a, did, c) && Explained(e3, e2, b, did, c);
    }
  }

  lemma AskedMore(world: Chains, a: seq<Poll>, b: seq<Poll>, e: Entry)
    requires TrueEntry(world, a, e) || TrueEntry(world, b, e)
    ensures TrueEntry(world, a + b, e)
  {
    var polls := if TrueEntry(world, a, e) then a else b;
    var txid, vout: nat :| IsOutpoint(world, e, txid, vout) && Asked(polls, e.did, txid, vout);
    var k :| 0 <= k < |polls| && polls[k].did == e.did && Lists(polls[k].answers, txid, vout);
    assert (a + b)[if polls == a then k else |a| + k] == polls[k];
  }

  lemma ExplainedChain(world: Chains, polls: seq<Poll>, p: Poll, l1: LedgerFile, l2: LedgerFile, l3: LedgerFile, a: seq<Entry>, b: seq<Entry>)
    requires ExplainedBy(world, polls, l1, l2, a) && ExplainedBy(world, [p], l2, l3, b)
    ensures ExplainedBy(world, polls + [p], l1, l3, a + b)
  {
    forall i | 0 <= i < |a + b| ensures TrueEntry(world, polls + [p], (a + b)[i]) {
      if i < |a| {
        assert TrueEntry(world, polls, a[i]);
        AskedMore(world, polls, [p], a[i]);
      } else {
        assert TrueEntry(world, [p], b[i - |a|]);
        AskedMore(world, polls, [p], b[i - |a|]);
      }
    }
    SameKeysChain(l3.credited, l2.credited, l1.credited, a, b);
    SameBalancesChain(l3.entries, l2.entries, l1.entries, a, b);
  }

  /**
   Over any run of scans with crashes anywhere, from any files, balances are the starting balances plus
   a log of credits in which no outpoint occurs twice and none had been credited before the run.
   */
  lemma {:induction false} RunCreditsOnce(world: Chains, d: Disk, polls: seq<Poll>)
    requires forall i :: 0 <= i < |polls| ==> Agrees(world, polls[i].answers)
    ensures ExplainedBy(world, polls, d.ledger, Run(d, polls).ledger, RunLog(d, polls))
  {
    if polls == [] {
      assert Keys([]) == [];
    } else {
      var n := |polls| - 1;
      var p, m := polls[n], Run(d, polls[..n]);
      RunCreditsOnce(world, d, polls[..n]);
      ScanExplained(world, m, p);
      assert polls == polls[..n] + [p];
      ExplainedChain(world, polls[..n], p, d.ledger, m.ledger, Run(d, polls).ledger,
        RunLog(d, polls[..n]), Committed(m, p.did, p.answers, p.crash));
    }
  }

  /** Two credits of a run are never for the same outpoint. */
  lemma RunOutpointsDiffer(world: Chains, d: Disk, polls: seq<Poll>, i: nat, j: nat, txid: JsString, vout: nat)
    requires forall k :: 0 <= k < |polls| ==> Agrees(world, polls[k].answers)
    requires i < j < |RunLog(d, polls)|
    requires IsOutpoint(world, RunLog(d, polls)[i], txid, vout)
    ensures !IsOutpoint(world, RunLog(d, polls)[j], txid, vout)
  {
    RunCreditsOnce(world, d, polls);
  }

  lemma {:induction false} RunKeepsSettled(world: Chains, d: Disk, polls: seq<Poll>, txid: JsString, vout: nat)
    requires IsChain(world.chainOf(txid, vout)) && forall k :: 0 <= k < |polls| ==> Agrees(world, polls[k].answers)
    ensures Settled(world, Run(d, polls), txid, vout) <==> Settled(world, d, txid, vout)
  {
    if polls != [] {
      var n := |polls| - 1;
      var p := polls[n];
      RunKeepsSettled(world, d, polls[..n], txid, vout);
      ScanKeepsSettled(world, Run(d, polls[..n]), p.did, p.answers, p.crash, txid, vout);
    }
  }

  /**
   After any run with crashes a finished scan leaves what it saw cached, and credited exactly if the
   outpoint was not cached without its key at the start of the run.
   */
  lemma {:induction false} RunThenScanSettles(world: Chains, d: Disk, polls: seq<Poll>, p: Poll, c: nat, i: nat)
    requires forall k :: 0 <= k < |polls| ==> Agrees(world, polls[k].answers)
    requires Agrees(world, p.answers) && SeeChains(Opened(Run(d, polls)), p.did, p.answers).Some?
    requires c < |p.answers| && p.answers[c].1.Listed? && i < |p.answers[c].1.outputs|
    ensures var r, u := Scanned(Run(d, polls), p.did, p.answers, NoCrash), p.answers[c].1.outputs[i];
      && Cached(r.utxos, u.txid, u.vout)
      && (u.value > 0 ==>
            (Key(p.answers[c].0, u.txid, u.vout) in r.ledger.credited <==> Settled(world, d, u.txid, u.vout)))
  {
    var u := p.answers[c].1.outputs[i];
    assert Honest(world, p.answers[c].0, u);
    FinishedScanSettles(world, Run(d, polls), p.did, p.answers, c, i);
    RunKeepsSettled(world, d, polls, u.txid, u.vout);
  }

  /** An output claimed by hand, and the scan that lists it afterwards: no key, and no second credit. */
  lemma ClaimedThenScanned(did: JsString, txid: JsString)
    ensures var chain, u := U("tbtc4"), Seen(txid, 0, 1000, []);
      var claimed := AfterClaim(Disk(LedgerFile([], []), []), did, chain, txid, 0, Found(1000, [], UserAddress)).0;
      && BalanceOf(claimed.ledger.entries, did, UnitOf(chain)) == 1000
      && Cached(claimed.utxos, txid, 0) && Key(chain, txid, 0) !in claimed.ledger.credited
      && Scanned(claimed, did, [(chain, Listed([u]))], NoCrash) == claimed
  {
    var chain, u := U("tbtc4"), Seen(txid, 0, 1000, []);
    var claimed := AfterClaim(Disk(LedgerFile([], []), []), did, chain, txid, 0, Found(1000, [], UserAddress)).0;
    ChainText(chain);
    NamedReadOverNamedWrite([], did, 1000, UnitOf(chain), did, UnitOf(chain));
    assert claimed.utxos[0].txid == txid;
    OneOutput(claimed, did, chain, u);
  }

  /** The scan in memory when one chain lists one output. */
  lemma OneOutput(d: Disk, did: JsString, chain: JsString, u: Seen)
    ensures SeeChains(Opened(d), did, [(chain, Listed([u]))]) == Some(SeeOne(Opened(d), chain, did, u))
  {
    var answers: Answers := [(chain, Listed([u]))];
    var w, outputs := Opened(d), [u];
    assert answers[..0] == [] && SeeChains(w, did, []) == Some(w);
    assert outputs[..0] == [] && SeeAll(w, chain, did, []) == w;
    assert SeeAll(w, chain, did, outputs) == SeeOne(w, chain, did, u);
  }

  /** A coin of value cached without its key, as a claimed output is, is never credited by any run of scans. */
  lemma {:induction false} UnkeyedNeverCredited(world: Chains, d: Disk, polls: seq<Poll>, txid: JsString, vout: nat)
    requires IsChain(world.chainOf(txid, vout)) && world.valueOf(txid, vout) > 0
    requires Cached(d.utxos, txid, vout) && KeyOf(world, txid, vout) !in d.ledger.credited
    requires forall k :: 0 <= k < |polls| ==> Agrees(world, polls[k].answers)
    ensures KeyOf(world, txid, vout) !in Run(d, polls).ledger.credited
  {
    RunKeepsSettled(world, d, polls, txid, vout);
  }
}
