/**
 JavaScript strings as sequences of UTF-16 code units, and the decimal text of integers: `String(n)`
 and `parseInt(s, 10) || 0`, with the sign, the white space and the digit prefix that `parseInt` takes.
 An integer written as text reads back as itself, which every ledger amount relies on.
 */
module JsText {
  type Unit = n: int | 0 <= n < 0x1_0000
  type JsString = seq<Unit>

  /** The code units of a literal; the literals used here are ASCII. */
  function U(s: string): (r: JsString)
    ensures |r| == |s|
  {
    seq(|s|, i requires 0 <= i < |s| => if s[i] as int < 0x1_0000 then s[i] as int else 0xFFFD)
  }

  predicate IsDigit(u: Unit) {
    48 <= u <= 57
  }

  predicate AllDigits(s: JsString) {
    forall i :: 0 <= i < |s| ==> IsDigit(s[i])
  }

  /** Decimal digits of a natural number, most significant first, no leading zero. */
  function Digits(n: nat): (r: JsString)
    ensures |r| > 0 && AllDigits(r)
  {
    if n < 10 then [48 + n] else Digits(n / 10) + [48 + n % 10]
  }

  /** `String(n)` for an integer. */
  function StringOf(n: int): JsString {
    if n < 0 then [45] + Digits(-n) else Digits(n)
  }

  function DigitsValue(s: JsString): nat
    requires AllDigits(s)
  {
    if s == [] then 0 else DigitsValue(s[..|s| - 1]) * 10 + (s[|s| - 1] - 48)
  }

  /** Length of the longest prefix of decimal digits. */
  function DigitRun(s: JsString): (n: nat)
    ensures n <= |s| && AllDigits(s[..n]) && (n < |s| ==> !IsDigit(s[n]))
  {
    if s == [] || !IsDigit(s[0]) then 0
    else
      var n := DigitRun(s[1..]);
      assert s[..n + 1] == [s[0]] + s[1..][..n];
      n + 1
  }

  /** White space and line terminators that `parseInt` skips. */
  predicate IsSpace(u: Unit) {
    || 9 <= u <= 13 || u == 32 || u == 0xA0 || u == 0x1680 || 0x2000 <= u <= 0x200A
    || u == 0x2028 || u == 0x2029 || u == 0x202F || u == 0x205F || u == 0x3000 || u == 0xFEFF
  }

  function SkipSpace(s: JsString): JsString {
    if s != [] && IsSpace(s[0]) then SkipSpace(s[1..]) else s
  }

  /** `parseInt(s, 10) || 0`: an optional sign and a digit prefix; anything else reads as 0. */
  function ParseInt(s: JsString): int {
    var t := SkipSpace(s);
    var negative := t != [] && t[0] == 45;
    var body := if t != [] && (t[0] == 45 || t[0] == 43) then t[1..] else t;
    var magnitude: int := DigitsValue(body[..DigitRun(body)]);
    if negative then -magnitude else magnitude
  }

  lemma {:induction false} DigitRunOf(ds: JsString, rest: JsString)
    requires AllDigits(ds) && (rest == [] || !IsDigit(rest[0]))
    ensures DigitRun(ds + rest) == |ds|
  {
    if ds == [] {
      assert ds + rest == rest;
    } else {
      assert (ds + rest)[1..] == ds[1..] + rest;
      DigitRunOf(ds[1..], rest);
    }
  }

  lemma {:induction false} DigitsValueOf(n: nat)
    ensures DigitsValue(Digits(n)) == n
    ensures n > 0 ==> Digits(n)[0] != 48
    ensures Digits(n)[0] == 48 ==> |Digits(n)| == 1
  {
    if n < 10 {
      assert Digits(n)[..0] == [];
    } else {
      DigitsValueOf(n / 10);
      var d := Digits(n / 10);
      assert Digits(n)[..|Digits(n)| - 1] == d;
      assert Digits(n)[0] == d[0];
    }
  }

  /** The round trip every ledger read relies on: an amount written as text reads back. */
  lemma ParseStringOf(n: int)
    ensures ParseInt(StringOf(n)) == n
  {
    var d := Digits(if n < 0 then -n else n);
    DigitsValueOf(if n < 0 then -n else n);
    DigitRunOf(d, []);
    assert d + [] == d;
    assert d[..|d|] == d;
    assert IsDigit(d[0]);
    if n < 0 {
      assert StringOf(n)[1..] == d;
    }
  }

  lemma {:induction false} SkipSpaceOf(space: JsString, t: JsString)
    requires (forall i :: 0 <= i < |space| ==> IsSpace(space[i])) && (t == [] || !IsSpace(t[0]))
    ensures SkipSpace(space + t) == t
  {
    if space == [] {
      assert space + t == t;
    } else {
      assert (space + t)[1..] == space[1..] + t;
      SkipSpaceOf(space[1..], t);
    }
  }

  /** White space, a sign or none, decimal digits or none, and the rest: the signed number of the digits, or 0. */
  lemma ParseIntReads(space: JsString, sign: JsString, digits: JsString, rest: JsString)
    requires (forall i :: 0 <= i < |space| ==> IsSpace(space[i])) && (sign == [] || sign == U("+") || sign == U("-"))
    requires AllDigits(digits) && (rest == [] || !IsDigit(rest[0]))
    requires sign == [] && digits == [] && rest != [] ==> !IsSpace(rest[0]) && rest[0] != 43 && rest[0] != 45
    ensures var magnitude: int := DigitsValue(digits);
      ParseInt(space + (sign + (digits + rest))) == if sign == U("-") then -magnitude else magnitude
  {
    var t := sign + (digits + rest);
    assert U("+") == [43] && U("-") == [45];
    SkipSpaceOf(space, t);
    DigitRunOf(digits, rest);
    assert (digits + rest)[..|digits|] == digits;
    if sign == [] {
      assert t == digits + rest;
    } else {
      assert t[1..] == digits + rest;
    }
  }
}
