/** JSON values and the text json.dumps(value, sort_keys=True, separators=(",", ":"))
    prints for them (sections 4, 5 and 7 of RFC 8259; ASCII output, no spaces). */
module JsonPrinting {
  import opened Collections
  import opened Sorting

  /** A Python string, as code points. */
  predicate CodePoints(t: seq<int>) { forall i :: 0 <= i < |t| ==> 0 <= t[i] < 0x110000 }

  type RawText = t: seq<int> | CodePoints(t) witness []

  predicate HighSurrogate(c: int) { 0xD800 <= c < 0xDC00 }

  predicate LowSurrogate(c: int) { 0xDC00 <= c < 0xE000 }

  predicate PairAt(t: seq<int>, i: int)
    requires 0 <= i < |t| - 1
  {
    HighSurrogate(t[i]) && LowSurrogate(t[i + 1])
  }

  /** A JSON decoder joins an escaped surrogate pair into one code point, so no
      text it yields holds a high surrogate directly before a low one. */
  predicate Decoded(t: RawText) { forall i :: 0 <= i < |t| - 1 ==> !PairAt(t, i) }

  type Text = t: RawText | Decoded(t) witness []

  predicate NumberChar(c: char) {
    '0' <= c <= '9' || c == '-' || c == '+' || c == '.' || c == 'e' || c == 'E'
  }

  predicate IsNumber(s: string) {
    && s != "" && ('0' <= s[0] <= '9' || s[0] == '-')
    && forall i :: 0 <= i < |s| ==> NumberChar(s[i])
  }

  type Literal = s: string | IsNumber(s) witness "0"

  /** A key with something attached; comparisons look at the key alone. */
  datatype Keyed<V> = Keyed(key: Text, it: V)

  /** A number is the text it prints as; an object holds its members in
      insertion order. */
  datatype Json =
    | Null
    | Bool(b: bool)
    | Number(literal: Literal)
    | Str(text: Text)
    | Arr(items: seq<Json>)
    | Obj(members: seq<Keyed<Json>>)

  predicate DistinctKeys<V>(ms: seq<Keyed<V>>) {
    forall i, j :: 0 <= i < j < |ms| ==> ms[i].key != ms[j].key
  }

  /** No object, at any depth, repeats a key: a Python dict cannot. */
  predicate Valid(v: Json) {
    match v
    case Arr(items) => forall x :: x in items ==> Valid(x)
    case Obj(members) => DistinctKeys(members) && forall m :: m in members ==> Valid(m.it)
    case _ => true
  }

  // ----- orders ----------------------------------------------------------------------

  function CodePoint(c: int): int { c }

  function CharCode(c: char): int { c as int }

  predicate LexLe<T>(a: seq<T>, b: seq<T>, code: T -> int) {
    a == [] || (b != [] && (code(a[0]) < code(b[0]) ||
                            (code(a[0]) == code(b[0]) && LexLe(a[1..], b[1..], code))))
  }

  lemma {:induction false} LexTotal<T>(a: seq<T>, b: seq<T>, code: T -> int)
    ensures LexLe(a, b, code) || LexLe(b, a, code)
  {
    if a != [] && b != [] { LexTotal(a[1..], b[1..], code); }
  }

  lemma {:induction false} LexTransitive<T>(a: seq<T>, b: seq<T>, c: seq<T>, code: T -> int)
    requires LexLe(a, b, code) && LexLe(b, c, code)
    ensures LexLe(a, c, code)
  {
    if a != [] && code(a[0]) == code(b[0]) && code(b[0]) == code(c[0]) {
      LexTransitive(a[1..], b[1..], c[1..], code);
    }
  }

  lemma {:induction false} LexAntisymmetric<T(!new)>(a: seq<T>, b: seq<T>, code: T -> int)
    requires forall x, y :: code(x) == code(y) ==> x == y
    requires LexLe(a, b, code) && LexLe(b, a, code)
    ensures a == b
  {
    if a != [] {
      LexAntisymmetric(a[1..], b[1..], code);
      assert a == [a[0]] + a[1..] && b == [b[0]] + b[1..];
    }
  }

  predicate KeyLe<V>(a: Keyed<V>, b: Keyed<V>) { LexLe(a.key, b.key, CodePoint) }

  lemma KeyLeIsPreorder<V(!new)>()
    ensures TotalPreorder<Keyed<V>>(KeyLe)
  {
    forall x: Keyed<V>, y: Keyed<V> ensures KeyLe(x, y) || KeyLe(y, x) {
      LexTotal(x.key, y.key, CodePoint);
    }
    forall x: Keyed<V>, y: Keyed<V>, z: Keyed<V> | KeyLe(x, y) && KeyLe(y, z)
      ensures KeyLe(x, z)
    {
      LexTransitive(x.key, y.key, z.key, CodePoint);
    }
  }

  // ----- the printer -------------------------------------------------------------------

  function HexDigit(n: int): char
    requires 0 <= n < 16
  {
    "0123456789abcdef"[n]
  }

  function Hex4(n: int): string
    requires 0 <= n < 0x10000
  {
    [HexDigit(n / 16 / 16 / 16), HexDigit(n / 16 / 16 % 16), HexDigit(n / 16 % 16), HexDigit(n % 16)]
  }

  function EscapeUnit(u: int): string
    requires 0 <= u < 0x10000
  {
    if u == 0x22 then "\\\""
    else if u == 0x5C then "\\\\"
    else if u == 0x0A then "\\n"
    else if u == 0x0D then "\\r"
    else if u == 0x09 then "\\t"
    else if u == 0x0C then "\\f"
    else if u == 0x08 then "\\b"
    else if 0x20 <= u < 0x7F then [u as char]
    else "\\u" + Hex4(u)
  }

  predicate UnitSeq(us: seq<int>) { forall i :: 0 <= i < |us| ==> 0 <= us[i] < 0x10000 }

  /** A code point above U+FFFF is written as a surrogate pair. */
  function Units(t: RawText): (us: seq<int>)
    ensures UnitSeq(us)
  {
    if t == [] then []
    else if t[0] < 0x10000 then [t[0]] + Units(t[1..])
    else [0xD800 + (t[0] - 0x10000) / 0x400, 0xDC00 + (t[0] - 0x10000) % 0x400] + Units(t[1..])
  }

  function EscapeUnits(us: seq<int>): string
    requires UnitSeq(us)
  {
    if us == [] then "" else EscapeUnit(us[0]) + EscapeUnits(us[1..])
  }

  function Quote(t: RawText): string { "\"" + EscapeUnits(Units(t)) + "\"" }

  function Print(v: Json): string {
    match v
    case Null => "null"
    case Bool(b) => if b then "true" else "false"
    case Number(literal) => literal
    case Str(text) => Quote(text)
    case Arr(items) => "[" + PrintItems(items, "")
    case Obj(members) => "{" + PrintEntries(Sort(PrintMembers(members), KeyLe), "")
  }

  /** The items, each but the first after a comma, and the closing bracket. */
  function PrintItems(xs: seq<Json>, separator: string): string {
    if xs == [] then "]" else separator + Print(xs[0]) + PrintItems(xs[1..], ",")
  }

  function PrintMembers(ms: seq<Keyed<Json>>): (es: seq<Keyed<string>>)
    ensures |es| == |ms|
    ensures forall i :: 0 <= i < |ms| ==> es[i].key == ms[i].key
  {
    if ms == [] then []
    else [Keyed(ms[0].key, Print(ms[0].it))] + PrintMembers(ms[1..])
  }

  function PrintEntry(key: Text, printed: string): string { Quote(key) + ":" + printed }

  function PrintEntries(es: seq<Keyed<string>>, separator: string): string {
    if es == [] then "}"
    else separator + PrintEntry(es[0].key, es[0].it) + PrintEntries(es[1..], ",")
  }

  /** Members are in key order at every depth, as `normalized` leaves them. */
  predicate KeysSorted(v: Json) {
    match v
    case Arr(items) => forall x :: x in items ==> KeysSorted(x)
    case Obj(members) =>
      && (forall i, j :: 0 <= i < j < |members| ==> KeyLe(members[i], members[j]))
      && forall m :: m in members ==> KeysSorted(m.it)
    case _ => true
  }

  lemma SortedMembersPrint(ms: seq<Keyed<Json>>)
    requires Sorted(ms, KeyLe)
    ensures Sort(PrintMembers(ms), KeyLe) == PrintMembers(ms)
  {
    var es := PrintMembers(ms);
    forall i, j | 0 <= i < j < |es| ensures KeyLe(es[i], es[j]) {
      assert KeyLe(ms[i], ms[j]);
    }
    SortKeepsSorted(es, KeyLe);
  }
}
