/**
 The web ledger (src/webledger.js): amounts per agent and currency, kept in entries that are either
 one string in the default currency or a list of currency amounts.
 */
module WebLedger {
  import opened JsText
  import opened OrderedMap

  datatype Amount = Simple(text: JsString) | Multi(cells: Pairs<JsString, JsString>)

  type Entries = Pairs<JsString, Amount>

  /** The currency parameter left out. */
  const NO_CURRENCY: JsString := []
  const SATOSHI: JsString := U("satoshi")
  const SAT: JsString := U("sat")

  // ---------- the ledger as a map ----------

  function Read(cell: Option<JsString>): int {
    if cell.Some? then ParseInt(cell.value) else 0
  }

  /** The first 'satoshi' or 'sat' amount of a list. */
  function DefaultCell(cells: Pairs<JsString, JsString>): Option<JsString> {
    if cells == [] then None
    else if cells[0].0 == SATOSHI || cells[0].0 == SAT then Some(cells[0].1)
    else DefaultCell(cells[1..])
  }

  function AmountIn(amount: Amount, currency: JsString): int {
    match amount
    case Multi(cells) => if currency != NO_CURRENCY then Read(Get(cells, currency)) else Read(DefaultCell(cells))
    case Simple(text) => if currency != NO_CURRENCY then 0 else ParseInt(text)
  }

  function BalanceOf(entries: Entries, uri: JsString, currency: JsString): int {
    match Get(entries, uri)
    case None => 0
    case Some(amount) => AmountIn(amount, currency)
  }

  /** The list form of an amount: a positive default amount moves to a 'satoshi' cell. */
  function Listed(amount: Option<Amount>): Pairs<JsString, JsString> {
    match amount
    case None => []
    case Some(Multi(cells)) => cells
    case Some(Simple(text)) => if ParseInt(text) > 0 then [(SATOSHI, StringOf(ParseInt(text)))] else []
  }

  function WithBalance(entries: Entries, uri: JsString, amount: int, currency: JsString): Entries {
    if currency == NO_CURRENCY then Put(entries, uri, Simple(StringOf(amount)))
    else Put(entries, uri, Multi(Put(Listed(Get(entries, uri)), currency, StringOf(amount))))
  }

  // ---------- the code ----------

  class Ledger {
    var entries: Entries
    var credited: seq<JsString>

    constructor (entries: Entries, credited: seq<JsString>)
      ensures this.entries == entries && this.credited == credited
    {
      this.entries := entries;
      this.credited := credited;
    }

    method GetBalance(uri: JsString, currency: JsString) returns (balance: int)
      ensures balance == BalanceOf(entries, uri, currency)
    {
      var entry := Get(entries, uri);
      if entry.None? {
        return 0;
      }
      if entry.value.Multi? {
        var target := if currency != NO_CURRENCY then Get(entry.value.cells, currency) else DefaultCell(entry.value.cells);
        return if target.Some? then ParseInt(target.value) else 0;
      }
      if currency != NO_CURRENCY {
        return 0;
      }
      return ParseInt(entry.value.text);
    }

    method SetBalance(uri: JsString, amount: int, currency: JsString)
      modifies this`entries
      ensures entries == WithBalance(old(entries), uri, amount, currency)
    {
      var entry := Get(entries, uri);
      if currency == NO_CURRENCY {
        if entry.Some? {
          entries := Put(entries, uri, Simple(StringOf(amount)));
        } else {
          PutAbsent(entries, uri, Simple(StringOf(amount)));
          entries := entries + [(uri, Simple(StringOf(amount)))];
        }
        return;
      }
      var cells: Pairs<JsString, JsString> := [];
      if entry.None? {
        PutAbsent(entries, uri, Multi([]));
        entries := entries + [(uri, Multi([]))];
      } else if entry.value.Simple? {
        var oldVal := ParseInt(entry.value.text);
        cells := if oldVal > 0 then [(SATOSHI, StringOf(oldVal))] else [];
      } else {
        cells := entry.value.cells;
      }
      var existing := Get(cells, currency);
      if existing.Some? {
        cells := Put(cells, currency, StringOf(amount));
      } else {
        PutAbsent(cells, currency, StringOf(amount));
        cells := cells + [(currency, StringOf(amount))];
      }
      PutTwice(old(entries), uri, Multi([]), Multi(cells));
      entries := Put(entries, uri, Multi(cells));
    }

    method Credit(uri: JsString, amount: int, currency: JsString) returns (newBalance: int)
      modifies this`entries
      ensures newBalance == BalanceOf(old(entries), uri, currency) + amount
      ensures entries == WithBalance(old(entries), uri, newBalance, currency)
    {
      var current := GetBalance(uri, currency);
      newBalance := current + amount;
      SetBalance(uri, newBalance, currency);
    }

    method Debit(uri: JsString, amount: int, currency: JsString) returns (success: bool, balance: int)
      modifies this`entries
      ensures success == (BalanceOf(old(entries), uri, currency) >= amount)
      ensures balance == BalanceOf(old(entries), uri, currency) - (if success then amount else 0)
      ensures entries == if success then WithBalance(old(entries), uri, balance, currency) else old(entries)
    {
      var current := GetBalance(uri, currency);
      if current < amount {
        return false, current;
      }
      balance := current - amount;
      SetBalance(uri, balance, currency);
      success := true;
    }

    method CreditOnce(key: JsString, uri: JsString, amount: int, currency: JsString) returns (didCredit: bool, balance: int)
      modifies this
      ensures didCredit == (key !in old(credited))
      ensures balance == BalanceOf(old(entries), uri, currency) + (if didCredit then amount else 0)
      ensures credited == if didCredit then old(credited) + [key] else old(credited)
      ensures entries == if didCredit then WithBalance(old(entries), uri, balance, currency) else old(entries)
    {
      if key in credited {
        balance := GetBalance(uri, currency);
        return false, balance;
      }
      balance := Credit(uri, amount, currency);
      credited := credited + [key];
      didCredit := true;
    }
  }

  // ---------- read over write, in every form of the entries ----------

  function Max0(n: int): int {
    if n > 0 then n else 0
  }

  predicate IsSimple(entries: Entries, uri: JsString) {
    Get(entries, uri).Some? && Get(entries, uri).value.Simple?
  }

  /**
   A named-currency read after a named-currency write. Only the written cell changes; the one
   other cell that can appear is 'satoshi', when a string entry turns into a list.
   */
  lemma NamedReadOverNamedWrite(e: Entries, u: JsString, n: int, cur: JsString, v: JsString, c: JsString)
    requires cur != NO_CURRENCY && c != NO_CURRENCY
    ensures BalanceOf(WithBalance(e, u, n, cur), v, c) ==
      if v == u && c == cur then n
      else if v == u && c == SATOSHI && IsSimple(e, u) then Max0(BalanceOf(e, u, NO_CURRENCY))
      else BalanceOf(e, v, c)
  {
    var cells := Listed(Get(e, u));
    GetPut(e, u, Multi(Put(cells, cur, StringOf(n))), v);
    GetPut(cells, cur, StringOf(n), c);
    ParseStringOf(n);
    if IsSimple(e, u) {
      ParseStringOf(BalanceOf(e, u, NO_CURRENCY));
    }
  }

  lemma {:induction false} DefaultCellPut(cells: Pairs<JsString, JsString>, cur: JsString, v: JsString)
    requires cur != SATOSHI && cur != SAT
    ensures DefaultCell(Put(cells, cur, v)) == DefaultCell(cells)
  {
    if cells != [] && cells[0].0 != cur {
      DefaultCellPut(cells[1..], cur, v);
    }
  }

  /**
   The default view after a write in a currency other than 'sat' and 'satoshi'. It stays as it was,
   through the string-to-list migration, exactly when it was not a negative string amount.
   */
  lemma DefaultReadOverNamedWrite(e: Entries, u: JsString, n: int, cur: JsString, v: JsString)
    requires cur != NO_CURRENCY && cur != SATOSHI && cur != SAT
    ensures BalanceOf(WithBalance(e, u, n, cur), v, NO_CURRENCY) == BalanceOf(e, v, NO_CURRENCY)
      <==> !(v == u && IsSimple(e, u) && BalanceOf(e, u, NO_CURRENCY) < 0)
    ensures v == u && IsSimple(e, u) && BalanceOf(e, u, NO_CURRENCY) < 0
      ==> BalanceOf(WithBalance(e, u, n, cur), v, NO_CURRENCY) == 0
  {
    var cells := Listed(Get(e, u));
    GetPut(e, u, Multi(Put(cells, cur, StringOf(n))), v);
    DefaultCellPut(cells, cur, StringOf(n));
    if IsSimple(e, u) {
      ParseStringOf(BalanceOf(e, u, NO_CURRENCY));
    }
  }

  /** An agent with the string amount -5 has 0 by default after a write in another currency. */
  lemma NegativeTextIsLost(u: JsString, n: int)
    ensures var e := [(u, Simple(StringOf(-5)))];
      && BalanceOf(e, u, NO_CURRENCY) == -5
      && BalanceOf(WithBalance(e, u, n, U("ltc")), u, NO_CURRENCY) == 0
  {
    var e := [(u, Simple(StringOf(-5)))];
    ParseStringOf(-5);
    assert |U("ltc")| == |SAT| == 3 && U("ltc")[0] != SAT[0] && |SATOSHI| == 7;
    DefaultReadOverNamedWrite(e, u, n, U("ltc"), u);
  }

  /** A write without a currency sets the default view and forgets the agent's named amounts. */
  lemma ReadOverDefaultWrite(e: Entries, u: JsString, n: int, v: JsString, c: JsString)
    ensures BalanceOf(WithBalance(e, u, n, NO_CURRENCY), v, c) ==
      if v != u then BalanceOf(e, v, c) else if c == NO_CURRENCY then n else 0
  {
    GetPut(e, u, Simple(StringOf(n)), v);
    ParseStringOf(n);
  }

  /** The name of the cell the default view reads, 'satoshi' or 'sat', whichever stands first. */
  function DefaultName(cells: Pairs<JsString, JsString>): Option<JsString> {
    if cells == [] then None
    else if cells[0].0 == SATOSHI || cells[0].0 == SAT then Some(cells[0].0)
    else DefaultName(cells[1..])
  }

  /** A write in 'satoshi' or 'sat' shows by default unless a cell of the other name stands first. */
  predicate Shows(e: Entries, u: JsString, cur: JsString) {
    var name := DefaultName(Listed(Get(e, u)));
    name == None || name == Some(cur)
  }

  lemma {:induction false} DefaultCellPutDefault(cells: Pairs<JsString, JsString>, cur: JsString, v: JsString)
    requires cur == SATOSHI || cur == SAT
    ensures DefaultCell(Put(cells, cur, v)) ==
      if DefaultName(cells) == None || DefaultName(cells) == Some(cur) then Some(v) else DefaultCell(cells)
    ensures DefaultName(cells) == None <==> DefaultCell(cells) == None
  {
    if cells != [] && cells[0].0 != cur {
      DefaultCellPutDefault(cells[1..], cur, v);
    }
  }

  /**
   The default view after a write in 'satoshi' or 'sat'. The written amount shows exactly when no cell
   of the other name stands first, as the migrated 'satoshi' amount of a string entry does; the view
   stays as it was exactly when the write does not show or writes what was there.
   */
  lemma SatoshiAliasesDefault(e: Entries, u: JsString, n: int, cur: JsString, v: JsString)
    requires cur == SATOSHI || cur == SAT
    ensures BalanceOf(WithBalance(e, u, n, cur), v, NO_CURRENCY) ==
      if v != u then BalanceOf(e, v, NO_CURRENCY)
      else if Shows(e, u, cur) then n
      else Read(DefaultCell(Listed(Get(e, u))))
    ensures BalanceOf(WithBalance(e, u, n, cur), v, NO_CURRENCY) == BalanceOf(e, v, NO_CURRENCY)
      <==> v != u || !Shows(e, u, cur) || n == BalanceOf(e, u, NO_CURRENCY)
  {
    var cells := Listed(Get(e, u));
    GetPut(e, u, Multi(Put(cells, cur, StringOf(n))), v);
    DefaultCellPutDefault(cells, cur, StringOf(n));
    ParseStringOf(n);
    if IsSimple(e, u) {
      ParseStringOf(BalanceOf(e, u, NO_CURRENCY));
    }
  }

  /** An agent with the string amount 100: a 'sat' write stays invisible by default, a 'satoshi' write shows. */
  lemma SatHidesBehindSatoshi(u: JsString, n: int)
    ensures var e := [(u, Simple(StringOf(100)))];
      && BalanceOf(WithBalance(e, u, n, SAT), u, NO_CURRENCY) == 100
      && BalanceOf(WithBalance(e, u, n, SATOSHI), u, NO_CURRENCY) == n
  {
    var e := [(u, Simple(StringOf(100)))];
    ParseStringOf(100);
    assert Listed(Get(e, u)) == [(SATOSHI, StringOf(100))];
    assert |SAT| != |SATOSHI|;
    SatoshiAliasesDefault(e, u, n, SAT, u);
    SatoshiAliasesDefault(e, u, n, SATOSHI, u);
  }

  // ---------- the ledger as a map from agent and currency ----------

  /** The currencies for which the ledger behaves as a plain map. */
  predicate Plain(c: JsString) {
    c != NO_CURRENCY && c != SATOSHI && c != SAT
  }

  ghost predicate Agree(e: Entries, f: Entries, v: JsString, c: JsString) {
    BalanceOf(e, v, c) == BalanceOf(f, v, c)
  }

  /**
   The ledger refines a map: with a default amount that is not negative, a write in a plain
   currency changes that cell and nothing that can be read in plain currencies or by default.
   */
  lemma PlainWriteChangesOneCell(e: Entries, u: JsString, n: int, cur: JsString)
    requires Plain(cur) && BalanceOf(e, u, NO_CURRENCY) >= 0
    ensures BalanceOf(WithBalance(e, u, n, cur), u, cur) == n
    ensures forall v, c :: ((Plain(c) || c == NO_CURRENCY) && !(v == u && c == cur)) ==>
        Agree(WithBalance(e, u, n, cur), e, v, c)
  {
    NamedReadOverNamedWrite(e, u, n, cur, u, cur);
    forall v, c | (Plain(c) || c == NO_CURRENCY) && !(v == u && c == cur)
      ensures Agree(WithBalance(e, u, n, cur), e, v, c)
    {
      if c == NO_CURRENCY {
        DefaultReadOverNamedWrite(e, u, n, cur, v);
      } else {
        NamedReadOverNamedWrite(e, u, n, cur, v, c);
      }
    }
  }

  // ---------- sums over all agents ----------

  function Total(e: Entries, c: JsString): int {
    if e == [] then 0 else AmountIn(e[0].1, c) + Total(e[1..], c)
  }

  lemma {:induction false} TotalPut(e: Entries, u: JsString, a: Amount, c: JsString)
    ensures Total(Put(e, u, a), c) == Total(e, c) - BalanceOf(e, u, c) + AmountIn(a, c)
  {
    if e != [] && e[0].0 != u {
      TotalPut(e[1..], u, a, c);
    }
  }

  /** A write moves the sum of a currency by what it moves the cell; other sums stay. */
  lemma TotalAfterWrite(e: Entries, u: JsString, n: int, cur: JsString, c: JsString)
    requires cur != NO_CURRENCY && c != NO_CURRENCY && c != SATOSHI
    ensures Total(WithBalance(e, u, n, cur), c) == Total(e, c) + (if c == cur then n - BalanceOf(e, u, cur) else 0)
  {
    var a := Multi(Put(Listed(Get(e, u)), cur, StringOf(n)));
    TotalPut(e, u, a, c);
    NamedReadOverNamedWrite(e, u, n, cur, u, c);
    GetPut(e, u, a, u);
  }
}
