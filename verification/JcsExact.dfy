/**
 The text that `jcs` writes, pinned down without its own parts (section 3.2 of RFC 8785): the order of the
 keys, the escapes and the punctuation.
 */
module JcsExact {
  import opened JsText
  import opened OrderedMap
  import opened Jcs
  import opened JcsLaws

  // ---------- the order of keys ----------

  /** a is a proper prefix of b, or has the smaller code unit at the first place where they differ. */
  ghost predicate Before(a: JsString, b: JsString) {
    || (|a| < |b| && a == b[..|a|])
    || exists k :: 0 <= k < |a| && k < |b| && FirstDiffer(a, b, k) && a[k] < b[k]
  }

  predicate FirstDiffer(a: JsString, b: JsString, k: nat)
    requires k < |a| && k < |b|
  {
    a[..k] == b[..k] && a[k] != b[k]
  }

  lemma BeforeCons(u: Unit, a: JsString, b: JsString)
    requires Before(a, b)
    ensures Before([u] + a, [u] + b)
  {
    var x, y := [u] + a, [u] + b;
    if |a| < |b| && a == b[..|a|] {
      assert y[..|x|] == [u] + b[..|a|];
    } else {
      var k :| 0 <= k < |a| && k < |b| && FirstDiffer(a, b, k) && a[k] < b[k];
      assert x[..k + 1] == [u] + a[..k] && y[..k + 1] == [u] + b[..k];
      assert FirstDiffer(x, y, k + 1);
    }
  }

  lemma {:induction false} LessIsBefore(a: JsString, b: JsString)
    requires Less(a, b)
    ensures Before(a, b)
  {
    if a == [] {
    } else if a[0] < b[0] {
      assert FirstDiffer(a, b, 0);
    } else {
      LessIsBefore(a[1..], b[1..]);
      BeforeCons(a[0], a[1..], b[1..]);
      assert a == [a[0]] + a[1..] && b == [b[0]] + b[1..];
    }
  }

  ghost predicate KeysInOrder(fields: Pairs<JsString, Json>) {
    forall i, j :: 0 <= i < j < |fields| ==> Before(fields[i].0, fields[j].0)
  }

  /** Every object, at every depth, has its keys in order. */
  ghost predicate InOrder(v: Json)
    decreases v
  {
    match v
    case Arr(items) => forall i :: 0 <= i < |items| ==> InOrder(items[i])
    case Obj(fields) => KeysInOrder(fields) && forall i :: 0 <= i < |fields| ==> InOrder(fields[i].1)
    case _ => true
  }

  lemma {:induction false} CanonIsSame(v: Json)
    requires WellFormed(v)
    ensures Same(v, Canon(v))
    decreases v
  {
    match v
    case Arr(items) =>
      CanonItemsAt(items);
      forall i | 0 <= i < |items| ensures Same(items[i], CanonItems(items)[i]) {
        CanonIsSame(items[i]);
      }
    case Obj(fields) =>
      var sorted := SortByKey(CanonFields(fields));
      forall k ensures Has(fields, k) <==> Has(sorted, k) {
        SortedCanonGet(fields, k);
        HasIsMember(sorted, k);
      }
      forall i | 0 <= i < |fields|
        ensures Get(sorted, fields[i].0).Some? && Same(fields[i].1, Get(sorted, fields[i].0).value)
      {
        GetMember(fields, i);
        SortedCanonGet(fields, fields[i].0);
        CanonIsSame(fields[i].1);
      }
    case _ =>
  }

  lemma {:induction false} CanonIsInOrder(v: Json)
    requires WellFormed(v)
    ensures InOrder(Canon(v))
    decreases v
  {
    match v
    case Arr(items) =>
      CanonItemsAt(items);
      forall i | 0 <= i < |items| ensures InOrder(CanonItems(items)[i]) {
        CanonIsInOrder(items[i]);
      }
    case Obj(fields) =>
      var sorted := SortByKey(CanonFields(fields));
      CanonFieldsGet(fields, []);
      SortSorts(CanonFields(fields));
      forall i, j | 0 <= i < j < |sorted| ensures Before(sorted[i].0, sorted[j].0) {
        LessIsBefore(sorted[i].0, sorted[j].0);
      }
      forall i | 0 <= i < |sorted| ensures InOrder(sorted[i].1) {
        var k := sorted[i].0;
        SortedDistinct(sorted);
        GetMember(sorted, i);
        SortedCanonGet(fields, k);
        GetIsPair(fields, k);
        CanonIsInOrder(Get(fields, k).value);
      }
    case _ =>
  }

  lemma SortedDistinct<V>(m: Pairs<JsString, V>)
    requires Sorted(m)
    ensures Distinct(m)
  {
    forall i, j | 0 <= i < j < |m| ensures m[i].0 != m[j].0 {
      LessIsStrictOrder(m[i].0, m[i].0, m[i].0);
    }
  }

  /** What a reader gets from the text: the value itself, with the keys of every object in order. */
  lemma JcsReads(v: Json)
    requires WellFormed(v)
    ensures Parse(Jcs.Jcs(v)).Some? && Parse(Jcs.Jcs(v)).value.1 == []
    ensures Same(v, Parse(Jcs.Jcs(v)).value.0) && InOrder(Parse(Jcs.Jcs(v)).value.0)
  {
    ParseJcs(v, []);
    assert Jcs.Jcs(v) + [] == Jcs.Jcs(v);
    CanonIsSame(v);
    CanonIsInOrder(v);
  }

  // ---------- escapes ----------

  const HEX := U("0123456789abcdef")

  /** Half of a surrogate pair, next to its other half. */
  predicate Paired(s: JsString, i: nat)
    requires i < |s|
  {
    || (0xD800 <= s[i] <= 0xDBFF && i + 1 < |s| && 0xDC00 <= s[i + 1] <= 0xDFFF)
    || (0xDC00 <= s[i] <= 0xDFFF && i > 0 && 0xD800 <= s[i - 1] <= 0xDBFF)
  }

  /** How one code unit of a string is written (section 3.2.2.2 of RFC 8785; single surrogates as ECMAScript does). */
  function Spelling(s: JsString, i: nat): JsString
    requires i < |s|
  {
    var u := s[i];
    if u == 8 then U("\\b")
    else if u == 9 then U("\\t")
    else if u == 10 then U("\\n")
    else if u == 12 then U("\\f")
    else if u == 13 then U("\\r")
    else if u == 34 then U("\\\"")
    else if u == 92 then U("\\\\")
    else if u < 32 || (0xD800 <= u <= 0xDFFF && !Paired(s, i)) then
      U("\\u") + [HEX[u / 4096], HEX[u / 256 % 16], HEX[u / 16 % 16], HEX[u % 16]]
    else [u]
  }

  function SpellingFrom(s: JsString, i: nat): JsString
    requires i <= |s|
    decreases |s| - i
  {
    if i == |s| then [] else Spelling(s, i) + SpellingFrom(s, i + 1)
  }

  lemma HexIs(d: nat)
    requires d < 16
    ensures HexDigit(d) == HEX[d]
  {
  }

  lemma HexDigits(u: Unit)
    ensures u / 4096 == u / 16 / 16 / 16 < 16 && u / 256 == u / 16 / 16
  {
  }

  lemma HexText(u: Unit, a: nat, b: nat, c: nat, d: nat)
    requires a == u / 16 / 16 / 16 < 16 && b == u / 16 / 16 % 16 && c == u / 16 % 16 && d == u % 16
    ensures UnicodeEscape(u) == U("\\u") + [HEX[a], HEX[b], HEX[c], HEX[d]]
  {
    HexIs(a);
    HexIs(b);
    HexIs(c);
    HexIs(d);
  }

  lemma LoneIsUnpaired(s: JsString, i: nat)
    requires i < |s|
    ensures IsLone(s, i) <==> 0xD800 <= s[i] <= 0xDFFF && !Paired(s, i)
  {
  }

  lemma SpelledAsEscaped(s: JsString, i: nat)
    requires i < |s|
    ensures Escape(s, i) == Spelling(s, i)
  {
    var u := s[i];
    LoneIsUnpaired(s, i);
    if u < 32 || IsLone(s, i) {
      HexDigits(u);
      HexText(u, u / 16 / 16 / 16, u / 16 / 16 % 16, u / 16 % 16, u % 16);
    }
  }

  lemma {:induction false} SpelledFrom(s: JsString, i: nat)
    requires i <= |s|
    ensures EscapeFrom(s, i) == SpellingFrom(s, i)
    decreases |s| - i
  {
    if i < |s| {
      SpelledAsEscaped(s, i);
      SpelledFrom(s, i + 1);
    }
  }

  /** The text of a string, unit by unit, between double quotes. */
  lemma StringText(s: JsString)
    ensures Jcs.Jcs(Str(s)) == U("\"") + SpellingFrom(s, 0) + U("\"")
  {
    SpelledFrom(s, 0);
  }

  // ---------- punctuation ----------

  lemma ThreeItems(x: Json, y: Json, z: Json)
    ensures JcsItems([x, y, z]) == [Jcs.Jcs(x), Jcs.Jcs(y), Jcs.Jcs(z)]
  {
    assert [x, y, z][1..] == [y, z] && [y, z][1..] == [z] && [z][1..] == [];
    assert JcsItems([z]) == [Jcs.Jcs(z)];
    assert JcsItems([y, z]) == [Jcs.Jcs(y), Jcs.Jcs(z)];
  }

  lemma MinusTen()
    ensures StringOf(-10) == [45, 49, 48]
  {
    assert Digits(10) == Digits(1) + [48] == [49, 48];
  }

  lemma JoinThree(x: JsString, y: JsString, z: JsString)
    ensures Join([x, y, z]) == x + [COMMA] + y + [COMMA] + z
  {
    assert [x, y, z][1..] == [y, z] && [y, z][1..] == [z];
    assert Join([y, z]) == y + [COMMA] + z;
  }

  lemma PlainText(u: Unit)
    requires 97 <= u <= 122
    ensures Quote([u]) == [34, u, 34]
  {
    assert EscapeFrom([u], 1) == [];
    assert Escape([u], 0) == [u];
    assert EscapeFrom([u], 0) == [u];
  }

  lemma SortsThree(x: JsString, y: JsString, z: JsString)
    ensures SortByKey([([98], x), ([97], y), ([99], z)]) == [([97], y), ([98], x), ([99], z)]
  {
    var m: Pairs<JsString, JsString> := [([98], x), ([97], y), ([99], z)];
    assert m[1..] == [([97], y), ([99], z)] && m[1..][1..] == [([99], z)];
    assert SortByKey(m[1..][1..]) == [([99], z)];
    assert SortByKey(m[1..]) == [([97], y), ([99], z)];
    assert Insert(m[0], [([99], z)]) == [([98], x), ([99], z)];
  }

  lemma MembersOfThree(p: (JsString, JsString), q: (JsString, JsString), r: (JsString, JsString))
    ensures Members([p, q, r]) ==
      [Quote(p.0) + [COLON] + p.1, Quote(q.0) + [COLON] + q.1, Quote(r.0) + [COLON] + r.1]
  {
    assert [p, q, r][1..] == [q, r] && [q, r][1..] == [r] && [r][1..] == [];
    assert Members([r]) == [Quote(r.0) + [COLON] + r.1];
    assert Members([q, r]) == [Quote(q.0) + [COLON] + q.1, Quote(r.0) + [COLON] + r.1];
  }

  lemma MemberText(u: Unit, x: JsString, front: JsString)
    requires 97 <= u <= 122 && front == [34, u, 34, 58]
    ensures Quote([u]) + [COLON] + x == front + x
  {
    PlainText(u);
  }

  lemma FieldTexts(x: Json, y: Json, z: Json, a: JsString, b: JsString, c: JsString)
    requires a == [97] && b == [98] && c == [99]
    ensures SortByKey(JcsFields([(b, x), (a, y), (c, z)])) == [(a, Jcs.Jcs(y)), (b, Jcs.Jcs(x)), (c, Jcs.Jcs(z))]
  {
    var m: Pairs<JsString, Json> := [(b, x), (a, y), (c, z)];
    assert m[1..] == [(a, y), (c, z)] && m[1..][1..] == [(c, z)];
    assert JcsFields(m[1..][1..]) == [(c, Jcs.Jcs(z))];
    assert JcsFields(m[1..]) == [(a, Jcs.Jcs(y)), (c, Jcs.Jcs(z))];
    assert JcsFields(m) == [(b, Jcs.Jcs(x)), (a, Jcs.Jcs(y)), (c, Jcs.Jcs(z))];
    SortsThree(Jcs.Jcs(x), Jcs.Jcs(y), Jcs.Jcs(z));
  }

  lemma Commas(x: JsString, y: JsString, z: JsString, a: JsString, b: JsString, c: JsString)
    requires a == U("\"a\":") && b == U(",\"b\":") && c == U(",\"c\":")
    ensures [123] + ([34, 97, 34, 58] + x + [44] + ([34, 98, 34, 58] + y) + [44] + ([34, 99, 34, 58] + z)) + [125]
         == U("{") + a + x + b + y + c + z + U("}")
  {
    assert a == [34, 97, 34, 58] && b == [44] + [34, 98, 34, 58] && c == [44] + [34, 99, 34, 58];
  }

  /** An object is written in braces, its members in key order, with commas and colons and no white space. */
  lemma ObjectText(x: Json, y: Json, z: Json)
    ensures Jcs.Jcs(Obj([(U("b"), x), (U("a"), y), (U("c"), z)])) ==
      U("{") + U("\"a\":") + Jcs.Jcs(y) + U(",\"b\":") + Jcs.Jcs(x) + U(",\"c\":") + Jcs.Jcs(z) + U("}")
    ensures Jcs.Jcs(Obj([])) == U("{}")
  {
    var a, b, c := U("a"), U("b"), U("c");
    assert a == [97] && b == [98] && c == [99];
    var p, q, r := Jcs.Jcs(y), Jcs.Jcs(x), Jcs.Jcs(z);
    FieldTexts(x, y, z, a, b, c);
    MembersOfThree((a, p), (b, q), (c, r));
    MemberText(97, p, [34, 97, 34, 58]);
    MemberText(98, q, [34, 98, 34, 58]);
    MemberText(99, r, [34, 99, 34, 58]);
    JoinThree([34, 97, 34, 58] + p, [34, 98, 34, 58] + q, [34, 99, 34, 58] + r);
    Commas(p, q, r, U("\"a\":"), U(",\"b\":"), U(",\"c\":"));
  }

  /** An array is written in brackets, its items in order. */
  lemma ArrayText(x: Json, y: Json, z: Json)
    ensures Jcs.Jcs(Arr([x, y, z])) == U("[") + Jcs.Jcs(x) + U(",") + Jcs.Jcs(y) + U(",") + Jcs.Jcs(z) + U("]")
    ensures Jcs.Jcs(Arr([])) == U("[]")
  {
    ThreeItems(x, y, z);
    JoinThree(Jcs.Jcs(x), Jcs.Jcs(y), Jcs.Jcs(z));
    assert U("[") == [LBRACKET] && U(",") == [COMMA] && U("]") == [RBRACKET];
  }

  /** The three words, and a number in decimal. */
  lemma WordTexts()
    ensures Jcs.Jcs(Null) == U("null") && Jcs.Jcs(Bool(true)) == U("true") && Jcs.Jcs(Bool(false)) == U("false")
    ensures Jcs.Jcs(Num(-10)) == U("-10")
  {
    MinusTen();
  }
}
