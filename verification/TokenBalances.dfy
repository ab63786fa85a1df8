/**
 The balance step of a token transfer (src/token.js). The balances are a plain object, so a name
 it does not own may be one that every object inherits.
 */
module TokenBalances {
  import opened JsText
  import opened OrderedMap

  /** Text that no arithmetic reads as a number. */
  type Words = t: JsString | t != [] && (97 <= t[0] <= 122 || t[0] == 91) witness [91]

  /** What stands in the balances: an integer, text, or NaN, which is stored as null. */
  datatype Amount = Number(n: int) | Text(text: Words) | NotANumber

  type Balances = Pairs<JsString, Amount>

  const PROTO := U("__proto__")

  /** The properties every plain object inherits. */
  predicate Inherited(name: JsString) {
    || name == PROTO || name == U("constructor") || name == U("toString") || name == U("toLocaleString")
    || name == U("valueOf") || name == U("hasOwnProperty") || name == U("isPrototypeOf")
    || name == U("propertyIsEnumerable") || name == U("__defineGetter__") || name == U("__defineSetter__")
    || name == U("__lookupGetter__") || name == U("__lookupSetter__")
  }

  /** What an inherited property turns into when a number is added to it. */
  function InheritedText(name: JsString): Words {
    if name == PROTO then U("[object Object]")
    else U("function ") + (if name == U("constructor") then U("Object") else name) + U("() { [native code] }")
  }

  /** The name is the balances' own, or nothing. */
  predicate Plain(b: Balances, name: JsString) {
    Has(b, name) || !Inherited(name)
  }

  // ---------- reading, computing, writing ----------

  /** `b[name] || 0` */
  function Read(b: Balances, name: JsString): Amount {
    var own: Option<Amount> := Get(b, name);
    match own
    case Some(v) => if v.NotANumber? then Number(0) else v
    case None => if Inherited(name) then Text(InheritedText(name)) else Number(0)
  }

  /** `v < amount`, which text never is */
  predicate Below(v: Amount, amount: int) {
    v.Number? && v.n < amount
  }

  function Minus(v: Amount, amount: int): Amount {
    if v.Number? then Number(v.n - amount) else NotANumber
  }

  function Plus(v: Amount, amount: int): Amount {
    match v
    case Number(n) => Number(n + amount)
    case Text(text) => Text(text + StringOf(amount))
    case NotANumber => NotANumber
  }

  /** `b[name] = v`; the inherited `__proto__` takes no such value. */
  function Write(b: Balances, name: JsString, v: Amount): Balances {
    if name == PROTO && !Has(b, name) then b else Put(b, name, v)
  }

  predicate IsZero(v: Amount) {
    v == Number(0)
  }

  /** The entries that are not zero, in order. */
  function NonZero(b: Balances): Balances {
    Survivors(b, IsZero)
  }

  function Debited(b: Balances, from: JsString, amount: int): Balances {
    Write(b, from, Minus(Read(b, from), amount))
  }

  function Credited(b: Balances, to: JsString, amount: int): Balances {
    Write(b, to, Plus(Read(b, to), amount))
  }

  /** Balances after `amount` moves from `from` to `to`, in the order the code writes them. */
  function Moved(b: Balances, from: JsString, to: JsString, amount: int): Balances {
    NonZero(Credited(Debited(b, from, amount), to, amount))
  }

  // ---------- the code ----------

  lemma WriteDistinct(b: Balances, name: JsString, v: Amount)
    requires Distinct(b)
    ensures Distinct(Write(b, name, v))
  {
    PutKeys(b, name, v);
  }

  lemma MovedDistinct(b: Balances, from: JsString, to: JsString, amount: int)
    requires Distinct(b)
    ensures Distinct(Credited(Debited(b, from, amount), to, amount)) && Distinct(Moved(b, from, to, amount))
  {
    var debited := Debited(b, from, amount);
    WriteDistinct(b, from, Minus(Read(b, from), amount));
    WriteDistinct(debited, to, Plus(Read(debited, to), amount));
    GetSurvivor(Credited(debited, to, amount), IsZero, []);
  }

  /** `for (const [k, v] of Object.entries(balances)) if (v === 0) delete balances[k]` */
  method RemoveZeros(balances: Balances) returns (r: Balances)
    requires Distinct(balances)
    ensures r == NonZero(balances)
  {
    r := balances;
    for i := 0 to |balances|
      invariant r == NonZero(balances[..i]) + balances[i..]
    {
      SweepStep(balances, i, IsZero);
      if balances[i].1 == Number(0) {
        r := Drop(r, balances[i].0);
      }
    }
    assert balances[..|balances|] == balances;
  }

  method MoveBalances(balances: Balances, from: JsString, to: JsString, amount: int) returns (r: Balances)
    requires Distinct(balances)
    ensures r == Moved(balances, from, to, amount)
  {
    var senderBalance := Read(balances, from);
    var written := Write(balances, from, Minus(senderBalance, amount));
    var toBalance := Read(written, to);
    written := Write(written, to, Plus(toBalance, amount));
    MovedDistinct(balances, from, to, amount);
    r := RemoveZeros(written);
  }

  // ---------- what a transfer does ----------

  function Worth(v: Option<Amount>): int {
    if v.Some? && v.value.Number? then v.value.n else 0
  }

  function BalanceOf(b: Balances, who: JsString): int {
    Worth(Get(b, who))
  }

  function Total(b: Balances): int {
    if b == [] then 0 else Worth(Some(b[0].1)) + Total(b[1..])
  }

  ghost predicate Numeric(b: Balances) {
    forall i :: 0 <= i < |b| ==> b[i].1.Number?
  }

  /** Both names can be read and written as numbers. */
  predicate StaysNumeric(b: Balances, from: JsString, to: JsString) {
    if Plain(b, from) then Plain(b, to) || to == PROTO else from == to || (from == PROTO && Plain(b, to))
  }

  /** What the sender loses. */
  function Taken(b: Balances, from: JsString, amount: int): int {
    if Plain(b, from) then amount else 0
  }

  /** What the recipient gets. */
  function Given(b: Balances, from: JsString, to: JsString, amount: int): int {
    if Plain(b, to) || (from == to && to != PROTO) then amount else 0
  }

  lemma {:induction false} TotalPut(b: Balances, k: JsString, v: Amount)
    ensures Total(Put(b, k, v)) == Total(b) - BalanceOf(b, k) + Worth(Some(v))
  {
    if b != [] && b[0].0 != k {
      TotalPut(b[1..], k, v);
    }
  }

  lemma {:induction false} NumericPut(b: Balances, k: JsString, v: Amount)
    requires Numeric(b)
    ensures Numeric(Put(b, k, v)) <==> v.Number?
  {
    var r := Put(b, k, v);
    if b == [] || b[0].0 == k {
      assert r[0].1 == v;
      assert forall i :: 0 < i < |r| ==> r[i] == b[i];
    } else {
      NumericPut(b[1..], k, v);
      assert r[1..] == Put(b[1..], k, v);
      assert Numeric(r) <==> r[0].1.Number? && Numeric(r[1..]);
    }
  }

  lemma {:induction false} NonZeroTotal(b: Balances)
    ensures Total(NonZero(b)) == Total(b)
    ensures forall i :: 0 <= i < |NonZero(b)| ==> NonZero(b)[i].1 != Number(0)
    ensures Numeric(NonZero(b)) <==> Numeric(b)
  {
    if b != [] {
      NonZeroTotal(b[1..]);
      assert Numeric(b) <==> b[0].1.Number? && Numeric(b[1..]);
      var r := NonZero(b);
      if !IsZero(b[0].1) {
        assert r[1..] == NonZero(b[1..]);
        assert Numeric(r) <==> r[0].1.Number? && Numeric(r[1..]);
      }
    }
  }

  lemma OwnIsNumber(b: Balances, k: JsString)
    requires Numeric(b)
    ensures Has(b, k) <==> Get(b, k).Some?
    ensures Get(b, k).Some? ==> Get(b, k).value == Number(BalanceOf(b, k))
  {
    HasIsMember(b, k);
    GetIsPair(b, k);
  }

  /** Adding to a plain name. */
  lemma AdjustPlain(b: Balances, k: JsString, delta: int, who: JsString)
    requires Numeric(b) && Plain(b, k)
    ensures Read(b, k) == Number(BalanceOf(b, k))
    ensures var r := Write(b, k, Number(BalanceOf(b, k) + delta));
      && Numeric(r) && Total(r) == Total(b) + delta
      && BalanceOf(r, who) == BalanceOf(b, who) + (if who == k then delta else 0)
      && (Has(r, who) <==> Has(b, who) || who == k)
  {
    var v := Number(BalanceOf(b, k) + delta);
    OwnIsNumber(b, k);
    NumericPut(b, k, v);
    TotalPut(b, k, v);
    GetPut(b, k, v, who);
    HasIsMember(b, who);
    HasIsMember(Put(b, k, v), who);
  }

  lemma HoldsText(b: Balances, k: JsString)
    requires Get(b, k).Some? && !Get(b, k).value.Number?
    ensures !Numeric(b)
  {
    GetIsPair(b, k);
  }

  lemma PlainSender(b: Balances, from: JsString, to: JsString, amount: int, who: JsString)
    requires Numeric(b) && Plain(b, from)
    ensures var c := Credited(Debited(b, from, amount), to, amount);
      && (Numeric(c) <==> StaysNumeric(b, from, to))
      && (StaysNumeric(b, from, to) ==>
            && Total(c) == Total(b) - Taken(b, from, amount) + Given(b, from, to, amount)
            && BalanceOf(c, who) == BalanceOf(b, who) - (if who == from then Taken(b, from, amount) else 0)
                                                      + (if who == to then Given(b, from, to, amount) else 0))
  {
    var d := Debited(b, from, amount);
    AdjustPlain(b, from, -amount, who);
    AdjustPlain(b, from, -amount, to);
    if Plain(d, to) {
      AdjustPlain(d, to, amount, who);
    } else {
      HasIsMember(d, to);
      var v := Plus(Read(d, to), amount);
      NumericPut(d, to, v);
    }
  }

  lemma InheritedSender(b: Balances, from: JsString, to: JsString, amount: int, who: JsString)
    requires Numeric(b) && !Plain(b, from)
    ensures var c := Credited(Debited(b, from, amount), to, amount);
      && (Numeric(c) <==> StaysNumeric(b, from, to))
      && (StaysNumeric(b, from, to) ==>
            && Total(c) == Total(b) - Taken(b, from, amount) + Given(b, from, to, amount)
            && BalanceOf(c, who) == BalanceOf(b, who) - (if who == from then Taken(b, from, amount) else 0)
                                                      + (if who == to then Given(b, from, to, amount) else 0))
  {
    var d := Debited(b, from, amount);
    HasIsMember(b, from);
    if from == PROTO {
      assert d == b;
      if Plain(b, to) {
        AdjustPlain(b, to, amount, who);
      } else {
        HasIsMember(b, to);
        NumericPut(b, to, Plus(Read(b, to), amount));
      }
    } else {
      assert d == Put(b, from, NotANumber);
      GetPut(b, from, NotANumber, from);
      HasIsMember(d, from);
      var v := Plus(Read(d, to), amount);
      if from == to {
        PutTwice(b, from, NotANumber, v);
        NumericPut(b, from, v);
        TotalPut(b, from, v);
        GetPut(b, from, v, who);
      } else {
        GetPut(d, to, v, from);
        HoldsText(Credited(d, to, amount), from);
      }
    }
  }

  /**
   What a transfer does, whatever the names: the balances stay numbers exactly as `StaysNumeric` says,
   and then the sender loses what is taken and the recipient gets what is given, and nothing else changes.
   */
  lemma TransferMoves(b: Balances, from: JsString, to: JsString, amount: int, who: JsString)
    requires Distinct(b) && Numeric(b)
    ensures var m := Moved(b, from, to, amount);
      && Distinct(m)
      && (Numeric(m) <==> StaysNumeric(b, from, to))
      && (StaysNumeric(b, from, to) ==>
            && (forall i :: 0 <= i < |m| ==> m[i].1 != Number(0))
            && Total(m) == Total(b) - Taken(b, from, amount) + Given(b, from, to, amount)
            && BalanceOf(m, who) == BalanceOf(b, who) - (if who == from then Taken(b, from, amount) else 0)
                                                      + (if who == to then Given(b, from, to, amount) else 0))
  {
    var c := Credited(Debited(b, from, amount), to, amount);
    if Plain(b, from) {
      PlainSender(b, from, to, amount, who);
    } else {
      InheritedSender(b, from, to, amount, who);
    }
    MovedDistinct(b, from, to, amount);
    NonZeroTotal(c);
    GetSurvivor(c, IsZero, who);
  }

  /** Both names plain: the amount moves, also when sender and recipient are the same. */
  lemma PlainTransferMoves(b: Balances, from: JsString, to: JsString, amount: int, who: JsString)
    requires Distinct(b) && Numeric(b) && Plain(b, from) && Plain(b, to)
    ensures var m := Moved(b, from, to, amount);
      && Numeric(m) && Total(m) == Total(b)
      && BalanceOf(m, who) == BalanceOf(b, who) - (if who == from then amount else 0) + (if who == to then amount else 0)
  {
    TransferMoves(b, from, to, amount, who);
  }

  predicate KeepsTotal(b: Balances, from: JsString, to: JsString, amount: int) {
    StaysNumeric(b, from, to) && Taken(b, from, amount) == Given(b, from, to, amount)
  }

  /** The sum is kept exactly when both names read as numbers and the sender loses what the recipient gets. */
  lemma TotalKeptIff(b: Balances, from: JsString, to: JsString, amount: int)
    requires Distinct(b) && Numeric(b)
    ensures var m := Moved(b, from, to, amount);
      Numeric(m) && Total(m) == Total(b) <==> KeepsTotal(b, from, to, amount)
  {
    TransferMoves(b, from, to, amount, []);
  }

  ghost predicate NonNegative(b: Balances) {
    Numeric(b) && forall who :: BalanceOf(b, who) >= 0
  }

  /** What the recipient ends up with is not negative. */
  predicate Bears(b: Balances, from: JsString, to: JsString, amount: int) {
    BalanceOf(b, to) + Given(b, from, to, amount) >= if from == to then Taken(b, from, amount) else 0
  }

  /**
   The code checks only that what it reads for the sender is not less than the amount. Balances stay
   numbers that are not negative exactly when both names read as numbers and the recipient can bear
   what it gets.
   */
  lemma NonNegativeIff(b: Balances, from: JsString, to: JsString, amount: int)
    requires Distinct(b) && NonNegative(b) && !Below(Read(b, from), amount)
    ensures NonNegative(Moved(b, from, to, amount)) <==> StaysNumeric(b, from, to) && Bears(b, from, to, amount)
  {
    var m := Moved(b, from, to, amount);
    TransferMoves(b, from, to, amount, to);
    OwnIsNumber(b, from);
    forall who ensures StaysNumeric(b, from, to) && Bears(b, from, to, amount) ==> BalanceOf(m, who) >= 0 {
      TransferMoves(b, from, to, amount, who);
      assert BalanceOf(b, who) >= 0;
    }
  }

  /** A negative amount passes the balance check and leaves the recipient below zero. */
  lemma NegativeAmountOverdraws()
    ensures var b := [(U("a"), Number(10))];
      && NonNegative(b) && !Below(Read(b, U("a")), -5)
      && BalanceOf(Moved(b, U("a"), U("bb"), -5), U("bb")) == -5
  {
    var b := [(U("a"), Number(10))];
    assert b[1..] == [];
    forall who ensures BalanceOf(b, who) >= 0 {
      assert BalanceOf(b[1..], who) == 0;
    }
    PlainTransferMoves(b, U("a"), U("bb"), -5, U("bb"));
    assert |U("a")| != |U("bb")|;
  }

  /** Five tokens sent to "constructor" become text, and the balances no longer sum to the supply. */
  lemma InheritedNameTakesTokens()
    ensures var b := [(U("a"), Number(10))];
      && Numeric(b) && !Below(Read(b, U("a")), 5)
      && Moved(b, U("a"), U("constructor"), 5) ==
         [(U("a"), Number(5)), (U("constructor"), Text(InheritedText(U("constructor")) + U("5")))]
      && !KeepsTotal(b, U("a"), U("constructor"), 5)
  {
    var b: Balances := [(U("a"), Number(10))];
    assert b[1..] == [];
    assert |U("a")| == 1 && |U("constructor")| == 11 && |PROTO| == 9;
    var d := Debited(b, U("a"), 5);
    assert d == [(U("a"), Number(5))];
    assert d[1..] == [];
    assert StringOf(5) == U("5");
    var v := Text(InheritedText(U("constructor")) + U("5"));
    assert Credited(d, U("constructor"), 5) == Put(d, U("constructor"), v);
    assert Put(d, U("constructor"), v) == [(U("a"), Number(5)), (U("constructor"), v)];
    var c: Balances := [(U("a"), Number(5)), (U("constructor"), v)];
    assert c[1..] == [(U("constructor"), v)] && |c[1..][1..]| == 0;
    assert NonZero(c) == c;
  }
}
