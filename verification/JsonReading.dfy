/** A reader of compact ASCII JSON text, after sections 2 to 7 of RFC 8259 but with a single
    spelling for every value: no space outside strings, and the escape of each character
    fixed. Exactly the printed text of a value is read as that value. */
module JsonReading {
  import opened Collections
  import opened Sorting
  import opened JsonPrinting

  /** What was read, and the text after it. */
  datatype Reading<+T> = Stuck | Read(value: T, rest: string)

  // ----- strings ---------------------------------------------------------------------------

  /** Lower-case hexadecimal digits only. */
  function HexValue(c: char): (n: int)
    ensures -1 <= n < 16
  {
    if '0' <= c <= '9' then c as int - 48
    else if 'a' <= c <= 'f' then c as int - 87
    else -1
  }

  /** Printable ASCII stands for itself, and five controls have a letter of their own. */
  predicate SpelledShort(u: int) { 32 <= u <= 126 || u in {8, 9, 10, 12, 13} }

  /** One UTF-16 unit of a string. */
  function ReadUnit(s: string): (r: Reading<int>)
    ensures r.Read? ==> 0 <= r.value < 65536 && |r.rest| < |s|
  {
    if s == "" then Stuck
    else if s[0] != '\\' then
      if ' ' <= s[0] <= '~' && s[0] != '"' then Read(s[0] as int, s[1..]) else Stuck
    else if |s| < 2 then Stuck
    else
      match s[1]
      case '"' => Read(34, s[2..])
      case '\\' => Read(92, s[2..])
      case 'b' => Read(8, s[2..])
      case 't' => Read(9, s[2..])
      case 'n' => Read(10, s[2..])
      case 'f' => Read(12, s[2..])
      case 'r' => Read(13, s[2..])
      case 'u' => ReadHex(s[2..])
      case _ => Stuck
  }

  function ReadHex(s: string): (r: Reading<int>)
    ensures r.Read? ==> 0 <= r.value < 65536 && |r.rest| < |s|
  {
    if |s| < 4 || HexValue(s[0]) < 0 || HexValue(s[1]) < 0 || HexValue(s[2]) < 0 || HexValue(s[3]) < 0 then Stuck
    else
      var u := 16 * (16 * (16 * HexValue(s[0]) + HexValue(s[1])) + HexValue(s[2])) + HexValue(s[3]);
      if SpelledShort(u) then Stuck else Read(u, s[4..])
  }

  /** The units up to the closing quote. */
  function ReadUnits(s: string): (r: Reading<seq<int>>)
    ensures r.Read? ==> UnitSeq(r.value) && |r.rest| < |s|
    decreases |s|
  {
    if s == "" then Stuck
    else if s[0] == '"' then Read([], s[1..])
    else
      var u := ReadUnit(s);
      if u.Stuck? then Stuck
      else
        var us := ReadUnits(u.rest);
        if us.Stuck? then Stuck else Read([u.value] + us.value, us.rest)
  }

  lemma DecodedCons(c: int, rest: RawText)
    requires 0 <= c < 0x110000 && Decoded(rest)
    requires rest != [] ==> !(HighSurrogate(c) && LowSurrogate(rest[0]))
    ensures CodePoints([c] + rest) && Decoded([c] + rest)
  {
    var t: RawText := [c] + rest;
    forall i | 0 <= i < |t| - 1 ensures !PairAt(t, i) {
      if i > 0 { assert !PairAt(rest, i - 1); }
    }
  }

  /** Surrogate pairs are joined into the code point they encode. */
  function Joined(us: seq<int>): (t: RawText)
    requires UnitSeq(us)
    ensures Decoded(t)
    ensures us != [] ==> t != [] && (t[0] == us[0] || t[0] >= 65536)
  {
    if us == [] then []
    else if |us| > 1 && HighSurrogate(us[0]) && LowSurrogate(us[1]) then
      var c := 65536 + 1024 * (us[0] - 0xD800) + (us[1] - 0xDC00);
      DecodedCons(c, Joined(us[2..]));
      [c] + Joined(us[2..])
    else
      DecodedCons(us[0], Joined(us[1..]));
      [us[0]] + Joined(us[1..])
  }

  function ReadText(s: string): (r: Reading<Text>)
    ensures r.Read? ==> |r.rest| < |s|
  {
    if s == "" || s[0] != '"' then Stuck
    else
      var us := ReadUnits(s[1..]);
      if us.Stuck? then Stuck
      else
        var t: Text := Joined(us.value);
        Read(t, us.rest)
  }

  // ----- values ------------------------------------------------------------------------------

  /** How far number characters go. */
  function NumberEnd(s: string): (n: nat)
    ensures n <= |s| && forall i :: 0 <= i < n ==> NumberChar(s[i])
  {
    if s == "" || !NumberChar(s[0]) then 0 else 1 + NumberEnd(s[1..])
  }

  function ReadWord(s: string, word: string, v: Json): (r: Reading<Json>)
    requires word != ""
    ensures r.Read? ==> |r.rest| < |s|
  {
    if word <= s then Read(v, s[|word|..]) else Stuck
  }

  function ReadValue(s: string): (r: Reading<Json>)
    ensures r.Read? ==> |r.rest| < |s|
    decreases |s|, 0
  {
    if s == "" then Stuck
    else
      match s[0]
      case 'n' => ReadWord(s, "null", Null)
      case 't' => ReadWord(s, "true", Bool(true))
      case 'f' => ReadWord(s, "false", Bool(false))
      case '"' => var t := ReadText(s); if t.Stuck? then Stuck else Read(Str(t.value), t.rest)
      case '[' =>
        if |s| > 1 && s[1] == ']' then Read(Arr([]), s[2..])
        else var xs := ReadItems(s[1..]); if xs.Stuck? then Stuck else Read(Arr(xs.value), xs.rest)
      case '{' =>
        if |s| > 1 && s[1] == '}' then Read(Obj([]), s[2..])
        else var ms := ReadMembers(s[1..]); if ms.Stuck? then Stuck else Read(Obj(ms.value), ms.rest)
      case _ =>
        if IsNumber(s[..NumberEnd(s)]) then Read(Number(s[..NumberEnd(s)]), s[NumberEnd(s)..]) else Stuck
  }

  /** One or more items, a comma between two, and the closing bracket. */
  function ReadItems(s: string): (r: Reading<seq<Json>>)
    ensures r.Read? ==> r.value != [] && |r.rest| < |s|
    decreases |s|, 1
  {
    var v := ReadValue(s);
    if v.Stuck? || v.rest == "" then Stuck
    else if v.rest[0] == ']' then Read([v.value], v.rest[1..])
    else if v.rest[0] != ',' then Stuck
    else
      var more := ReadItems(v.rest[1..]);
      if more.Stuck? then Stuck else Read([v.value] + more.value, more.rest)
  }

  /** A key, a colon and a value. */
  function ReadMember(s: string): (r: Reading<Keyed<Json>>)
    ensures r.Read? ==> |r.rest| < |s|
    decreases |s|, 1
  {
    var k := ReadText(s);
    if k.Stuck? || k.rest == "" || k.rest[0] != ':' then Stuck
    else
      var v := ReadValue(k.rest[1..]);
      if v.Stuck? then Stuck else Read(Keyed(k.value, v.value), v.rest)
  }

  /** One or more members, a comma between two, and the closing brace. */
  function ReadMembers(s: string): (r: Reading<seq<Keyed<Json>>>)
    ensures r.Read? ==> r.value != [] && |r.rest| < |s|
    decreases |s|, 2
  {
    var m := ReadMember(s);
    if m.Stuck? || m.rest == "" then Stuck
    else if m.rest[0] == '}' then Read([m.value], m.rest[1..])
    else if m.rest[0] != ',' then Stuck
    else
      var more := ReadMembers(m.rest[1..]);
      if more.Stuck? then Stuck else Read([m.value] + more.value, more.rest)
  }

  // ----- printed strings are read back ------------------------------------------------------------

  lemma HexRead(n: int)
    requires 0 <= n < 16
    ensures HexValue(HexDigit(n)) == n
  {
  }

  lemma Hex4Read(u: int, r: string)
    requires 0 <= u < 65536 && !SpelledShort(u)
    ensures ReadHex(Hex4(u) + r) == Read(u, r)
  {
    var s := Hex4(u) + r;
    HexRead(u / 16 / 16 / 16);
    HexRead(u / 16 / 16 % 16);
    HexRead(u / 16 % 16);
    HexRead(u % 16);
    assert s[0] == Hex4(u)[0] && s[1] == Hex4(u)[1] && s[2] == Hex4(u)[2] && s[3] == Hex4(u)[3];
    assert s[4..] == r;
  }

  lemma EscapedUnitRead(e: string, r: string)
    requires |e| == 2 && e[0] == '\\' && ReadUnit(e).Read?
    ensures ReadUnit(e + r) == Read(ReadUnit(e).value, r)
  {
    assert (e + r)[0] == e[0] && (e + r)[1] == e[1] && (e + r)[2..] == r;
  }

  lemma UnitRead(u: int, r: string)
    requires 0 <= u < 65536
    ensures ReadUnit(EscapeUnit(u) + r) == Read(u, r)
    ensures (EscapeUnit(u) + r)[0] != '"'
  {
    var e := EscapeUnit(u);
    assert (e + r)[0] == e[0];
    if |e| == 1 {
      assert (e + r)[1..] == r;
    } else if |e| == 2 {
      EscapedUnitRead(e, r);
    } else {
      Hex4Read(u, r);
      assert (e + r)[1] == 'u' && (e + r)[2..] == Hex4(u) + r;
    }
  }

  lemma {:induction false} UnitsRead(us: seq<int>, r: string)
    requires UnitSeq(us)
    ensures ReadUnits(EscapeUnits(us) + "\"" + r) == Read(us, r)
  {
    if us == [] {
      assert EscapeUnits(us) + "\"" + r == "\"" + r;
    } else {
      var tail := EscapeUnits(us[1..]) + "\"" + r;
      assert EscapeUnits(us) + "\"" + r == EscapeUnit(us[0]) + tail;
      UnitRead(us[0], tail);
      UnitsRead(us[1..], r);
      SplitFirst(us);
    }
  }

  lemma DecodedTail(t: Text)
    requires t != []
    ensures Decoded(t[1..])
  {
    forall i | 0 <= i < |t[1..]| - 1 ensures !PairAt(t[1..], i) {
      assert !PairAt(t, i + 1);
    }
  }

  lemma {:induction false} UnitsJoined(t: Text)
    ensures Joined(Units(t)) == t
  {
    if t != [] {
      DecodedTail(t);
      UnitsJoined(t[1..]);
      SplitFirst(t);
      if t[0] < 65536 {
        assert Units(t)[1..] == Units(t[1..]);
        if |t| > 1 && HighSurrogate(t[0]) {
          assert !PairAt(t, 0);
          assert Units(t)[1] == Units(t[1..])[0];
        }
      } else {
        assert Units(t)[2..] == Units(t[1..]);
      }
    }
  }

  lemma TextRead(t: Text, r: string)
    ensures ReadText(Quote(t) + r) == Read(t, r)
  {
    var s := Quote(t) + r;
    assert s[1..] == EscapeUnits(Units(t)) + "\"" + r;
    UnitsRead(Units(t), r);
    UnitsJoined(t);
  }

  // ----- printed values are read back -------------------------------------------------------------

  /** What may follow a value inside a JSON text. */
  predicate Delimited(r: string) { r == "" || r[0] == ',' || r[0] == ']' || r[0] == '}' }

  lemma {:induction false} NumberRuns(a: string, r: string)
    requires Delimited(r) && forall i :: 0 <= i < |a| ==> NumberChar(a[i])
    ensures NumberEnd(a + r) == |a|
  {
    if a == "" {
      assert a + r == r;
    } else {
      assert (a + r)[1..] == a[1..] + r;
      NumberRuns(a[1..], r);
    }
  }

  lemma NumberRead(literal: Literal, r: string)
    requires Delimited(r)
    ensures ReadValue(literal + r) == Read(Number(literal), r)
  {
    var s := literal + r;
    NumberRuns(literal, r);
    assert s[0] == literal[0] && s[..|literal|] == literal && s[|literal|..] == r;
  }

  lemma WordRead(word: string, v: Json, r: string)
    requires word != ""
    ensures ReadWord(word + r, word, v) == Read(v, r)
  {
    assert (word + r)[|word|..] == r && word <= word + r;
  }

  /** The text of some items, and of some members, up to the closing character. */
  function ItemsText(xs: seq<Json>): string { PrintItems(xs, "") }

  function MembersText(ms: seq<Keyed<Json>>): string { PrintEntries(PrintMembers(ms), "") }

  /** What follows the first item, and the first member. */
  function ItemsTail(xs: seq<Json>): string { if xs == [] then "]" else "," + ItemsText(xs) }

  function MembersTail(ms: seq<Keyed<Json>>): string { if ms == [] then "}" else "," + MembersText(ms) }

  lemma ItemsShape(xs: seq<Json>)
    requires xs != []
    ensures ItemsText(xs) == Print(xs[0]) + ItemsTail(xs[1..])
  {
    var tail := xs[1..];
    assert "" + Print(xs[0]) == Print(xs[0]);
    if tail != [] {
      assert "" + Print(tail[0]) == Print(tail[0]);
      RegroupThree(",", Print(tail[0]), PrintItems(tail[1..], ","));
      assert PrintItems(tail, ",") == ItemsTail(tail);
    } else {
      assert PrintItems(tail, ",") == "]";
    }
  }

  lemma EntriesShape(es: seq<Keyed<string>>)
    requires es != []
    ensures PrintEntries(es, "") == PrintEntry(es[0].key, es[0].it) + PrintEntries(es[1..], ",")
    ensures es[1..] == [] ==> PrintEntries(es[1..], ",") == "}"
    ensures es[1..] != [] ==> PrintEntries(es[1..], ",") == "," + PrintEntries(es[1..], "")
  {
    var tail := es[1..];
    assert "" + PrintEntry(es[0].key, es[0].it) == PrintEntry(es[0].key, es[0].it);
    if tail != [] {
      var first := PrintEntry(tail[0].key, tail[0].it);
      assert "" + first == first;
      assert "," + first + PrintEntries(tail[1..], ",") == "," + (first + PrintEntries(tail[1..], ","));
    }
  }

  lemma MembersShape(ms: seq<Keyed<Json>>)
    requires ms != []
    ensures MembersText(ms) == PrintEntry(ms[0].key, Print(ms[0].it)) + MembersTail(ms[1..])
    ensures MembersText(ms) != "" && MembersText(ms)[0] == '"'
  {
    var es := PrintMembers(ms);
    assert es[1..] == PrintMembers(ms[1..]) && es[0] == Keyed(ms[0].key, Print(ms[0].it));
    EntriesShape(es);
  }

  lemma PrintStart(v: Json)
    ensures Print(v) != "" && Print(v)[0] !in [',', ']', '}']
  {
  }

  lemma ArrayRead(xs: seq<Json>, printed: string, r: string)
    requires if xs == [] then printed == "]" else ReadItems(printed + r) == Read(xs, r) && printed[..1] != "]"
    requires printed != ""
    ensures ReadValue("[" + printed + r) == Read(Arr(xs), r)
  {
    var s := "[" + printed + r;
    assert s[0] == '[' && s[1] == printed[0] && s[1..] == printed + r;
    if xs == [] { assert s[2..] == r; }
  }

  lemma ObjectRead(ms: seq<Keyed<Json>>, printed: string, r: string)
    requires if ms == [] then printed == "}" else ReadMembers(printed + r) == Read(ms, r) && printed[..1] != "}"
    requires printed != ""
    ensures ReadValue("{" + printed + r) == Read(Obj(ms), r)
  {
    var s := "{" + printed + r;
    assert s[0] == '{' && s[1] == printed[0] && s[1..] == printed + r;
    if ms == [] { assert s[2..] == r; }
  }

  lemma StringRead(t: Text, r: string)
    ensures ReadValue(Quote(t) + r) == Read(Str(t), r)
  {
    TextRead(t, r);
    assert (Quote(t) + r)[0] == '"';
  }

  /** The printed text of a key-sorted value is read back as that value, and ends where it
      ends, wherever a value may stand. */
  lemma {:induction false} PrintedIsRead(v: Json, r: string)
    requires KeysSorted(v) && Delimited(r)
    ensures ReadValue(Print(v) + r) == Read(v, r)
    decreases v, 1
  {
    match v {
      case Null => WordRead("null", Null, r);
      case Bool(b) => WordRead(if b then "true" else "false", v, r);
      case Number(literal) => NumberRead(literal, r);
      case Str(text) => StringRead(text, r);
      case Arr(items) =>
        if items != [] { ItemsRead(items, r); }
        ArrayRead(items, ItemsText(items), r);
      case Obj(members) =>
        SortedMembersPrint(members);
        if members != [] { MembersRead(members, r); }
        ObjectRead(members, MembersText(members), r);
    }
  }

  lemma ItemReadThen(s: string, v: Json, more: seq<Json>, tail: string, r: string)
    requires ReadValue(s) == Read(v, tail + r)
    requires if more == [] then tail == "]"
             else |tail| > 1 && tail[0] == ',' && ReadItems(tail[1..] + r) == Read(more, r)
    ensures ReadItems(s) == Read([v] + more, r)
  {
    assert (tail + r)[1..] == tail[1..] + r;
    if more == [] { assert tail[1..] + r == r && [v] + more == [v]; }
  }

  lemma {:induction false} ItemsRead(xs: seq<Json>, r: string)
    requires xs != [] && forall x :: x in xs ==> KeysSorted(x)
    ensures ItemsText(xs) != "" && ItemsText(xs)[..1] != "]"
    ensures ReadItems(ItemsText(xs) + r) == Read(xs, r)
    decreases xs, 0
  {
    ItemsShape(xs);
    PrintStart(xs[0]);
    var tail := ItemsTail(xs[1..]);
    RegroupThree(Print(xs[0]), tail, r);
    PrintedIsRead(xs[0], tail + r);
    if xs[1..] != [] {
      ItemsRead(xs[1..], r);
      assert tail[1..] == ItemsText(xs[1..]);
    }
    ItemReadThen(ItemsText(xs) + r, xs[0], xs[1..], tail, r);
    SplitFirst(xs);
  }

  lemma MemberReads(s: string, k: Text, tail: string, v: Json, r: string)
    requires ReadText(s) == Read(k, tail) && tail != "" && tail[0] == ':' && ReadValue(tail[1..]) == Read(v, r)
    ensures ReadMember(s) == Read(Keyed(k, v), r)
  {
  }

  lemma MemberRead(k: Text, printed: string, v: Json, r: string)
    requires ReadValue(printed + r) == Read(v, r)
    ensures ReadMember(PrintEntry(k, printed) + r) == Read(Keyed(k, v), r)
  {
    var tail := ":" + (printed + r);
    RegroupFour(Quote(k), ":", printed, r);
    TextRead(k, tail);
    assert tail[1..] == printed + r;
    MemberReads(PrintEntry(k, printed) + r, k, tail, v, r);
  }

  lemma MemberReadThen(s: string, m: Keyed<Json>, more: seq<Keyed<Json>>, tail: string, r: string)
    requires ReadMember(s) == Read(m, tail + r)
    requires if more == [] then tail == "}"
             else |tail| > 1 && tail[0] == ',' && ReadMembers(tail[1..] + r) == Read(more, r)
    ensures ReadMembers(s) == Read([m] + more, r)
  {
    assert (tail + r)[1..] == tail[1..] + r;
    if more == [] { assert tail[1..] + r == r && [m] + more == [m]; }
  }

  lemma {:induction false} MembersRead(ms: seq<Keyed<Json>>, r: string)
    requires ms != [] && forall m :: m in ms ==> KeysSorted(m.it)
    ensures MembersText(ms) != "" && MembersText(ms)[..1] != "}"
    ensures ReadMembers(MembersText(ms) + r) == Read(ms, r)
    decreases ms, 0
  {
    MembersShape(ms);
    var first, tail := PrintEntry(ms[0].key, Print(ms[0].it)), MembersTail(ms[1..]);
    RegroupThree(first, tail, r);
    PrintedIsRead(ms[0].it, tail + r);
    MemberRead(ms[0].key, Print(ms[0].it), ms[0].it, tail + r);
    if ms[1..] != [] {
      MembersRead(ms[1..], r);
      assert tail[1..] == MembersText(ms[1..]);
    }
    MemberReadThen(MembersText(ms) + r, ms[0], ms[1..], tail, r);
    SplitFirst(ms);
  }

  // ----- nothing else is read ------------------------------------------------------------------------

  lemma Sixteenth(u: int, x: int, y: int)
    requires u == 16 * x + y && 0 <= y < 16
    ensures u / 16 == x && u % 16 == y
  {
  }

  lemma HexDigits(u: int, y: int, x: int, a: int, b: int, c: int, d: int)
    requires 0 <= a < 16 && 0 <= b < 16 && 0 <= c < 16 && 0 <= d < 16
    requires x == 16 * a + b && y == 16 * x + c && u == 16 * y + d
    ensures 0 <= u < 65536 && Hex4(u) == [HexDigit(a), HexDigit(b), HexDigit(c), HexDigit(d)]
  {
    Sixteenth(x, a, b);
    Sixteenth(y, x, c);
    Sixteenth(u, y, d);
    assert u / 16 / 16 == x;
    assert u / 16 / 16 / 16 == a;
  }

  lemma HexSpelled(c: char)
    requires HexValue(c) >= 0
    ensures HexDigit(HexValue(c)) == c
  {
  }

  lemma HexSound(s: string, u: int, r: string)
    requires ReadHex(s) == Read(u, r)
    ensures s == Hex4(u) + r && !SpelledShort(u)
  {
    var a, b, c, d := HexValue(s[0]), HexValue(s[1]), HexValue(s[2]), HexValue(s[3]);
    HexDigits(u, 16 * (16 * a + b) + c, 16 * a + b, a, b, c, d);
    HexSpelled(s[0]);
    HexSpelled(s[1]);
    HexSpelled(s[2]);
    HexSpelled(s[3]);
    assert Hex4(u) == [s[0], s[1], s[2], s[3]];
    SplitFour(s);
  }

  lemma UnitSound(s: string, u: int, r: string)
    requires ReadUnit(s) == Read(u, r)
    ensures s == EscapeUnit(u) + r
  {
    if s[0] != '\\' {
      SplitFirst(s);
    } else {
      SplitTwo(s);
      if s[1] == 'u' {
        HexSound(s[2..], u, r);
        RegroupThree("\\u", Hex4(u), r);
      }
    }
  }

  lemma {:induction false} UnitsSound(s: string, us: seq<int>, r: string)
    requires ReadUnits(s) == Read(us, r)
    ensures s == EscapeUnits(us) + "\"" + r
    decreases |s|
  {
    if s[0] == '"' {
      assert s == "\"" + s[1..];
    } else {
      var u := ReadUnit(s);
      UnitSound(s, u.value, u.rest);
      UnitsSound(u.rest, us[1..], r);
      assert s == EscapeUnit(us[0]) + (EscapeUnits(us[1..]) + "\"" + r);
    }
  }

  lemma PairUnits(high: int, low: int)
    requires HighSurrogate(high) && LowSurrogate(low)
    ensures var c := 65536 + 1024 * (high - 0xD800) + (low - 0xDC00);
      Units([c]) == [high, low]
  {
    var x, y := high - 0xD800, low - 0xDC00;
    assert (1024 * x + y) / 1024 == x && (1024 * x + y) % 1024 == y;
  }

  lemma UnitsCons(c: int, rest: RawText)
    requires 0 <= c < 0x110000
    ensures Units([c] + rest) == Units([c]) + Units(rest)
  {
    var t: RawText := [c] + rest;
    assert t[1..] == rest && [c][1..] == [];
  }

  lemma {:induction false} JoinedUnits(us: seq<int>)
    requires UnitSeq(us)
    ensures Units(Joined(us)) == us
  {
    if us == [] {
    } else if |us| > 1 && HighSurrogate(us[0]) && LowSurrogate(us[1]) {
      JoinedUnits(us[2..]);
      PairUnits(us[0], us[1]);
      UnitsCons(65536 + 1024 * (us[0] - 0xD800) + (us[1] - 0xDC00), Joined(us[2..]));
      assert us == [us[0], us[1]] + us[2..];
    } else {
      JoinedUnits(us[1..]);
      UnitsCons(us[0], Joined(us[1..]));
      SplitFirst(us);
    }
  }

  lemma TextSound(s: string, t: Text, r: string)
    requires ReadText(s) == Read(t, r)
    ensures s == Quote(t) + r
  {
    var us := ReadUnits(s[1..]);
    UnitsSound(s[1..], us.value, r);
    JoinedUnits(us.value);
    assert s == "\"" + s[1..];
  }

  lemma WordSound(s: string, word: string, v: Json, r: string)
    requires word != "" && ReadWord(s, word, v) == Read(v, r)
    ensures s == word + r
  {
    assert s == s[..|word|] + s[|word|..];
  }

  lemma PlainSound(s: string, v: Json, r: string)
    requires ReadValue(s) == Read(v, r) && !v.Arr? && !v.Obj?
    ensures s == Print(v) + r
  {
    match v {
      case Null => WordSound(s, "null", v, r);
      case Bool(b) => WordSound(s, if b then "true" else "false", v, r);
      case Number(literal) => assert s == literal + r;
      case Str(text) => TextSound(s, text, r);
    }
  }

  lemma ArraySound(s: string, xs: seq<Json>, r: string)
    requires ReadValue(s) == Read(Arr(xs), r)
    ensures s[0] == '[' && if xs == [] then s == "[" + "]" + r else ReadItems(s[1..]) == Read(xs, r)
  {
    if xs == [] { SplitTwo(s); }
  }

  lemma ObjectSound(s: string, ms: seq<Keyed<Json>>, r: string)
    requires ReadValue(s) == Read(Obj(ms), r)
    ensures s[0] == '{' && if ms == [] then s == "{" + "}" + r else ReadMembers(s[1..]) == Read(ms, r)
  {
    if ms == [] { SplitTwo(s); }
  }

  /** Whatever is read as a key-sorted value is its printed text. */
  lemma {:induction false} OnlyPrintedIsRead(s: string, v: Json, r: string)
    requires ReadValue(s) == Read(v, r) && KeysSorted(v)
    ensures s == Print(v) + r
    decreases |s|, 1
  {
    match v {
      case Arr(items) => OnlyArrayRead(s, items, r);
      case Obj(members) =>
        OnlyObjectRead(s, members, r);
        SortedMembersPrint(members);
      case _ => PlainSound(s, v, r);
    }
  }

  lemma OnlyArrayRead(s: string, xs: seq<Json>, r: string)
    requires ReadValue(s) == Read(Arr(xs), r) && forall x :: x in xs ==> KeysSorted(x)
    ensures s == "[" + ItemsText(xs) + r
    decreases |s|, 0
  {
    ArraySound(s, xs, r);
    if xs != [] {
      OnlyItemsRead(s[1..], xs, r);
      SplitFirst(s);
    }
  }

  lemma OnlyObjectRead(s: string, ms: seq<Keyed<Json>>, r: string)
    requires ReadValue(s) == Read(Obj(ms), r) && forall m :: m in ms ==> KeysSorted(m.it)
    ensures s == "{" + MembersText(ms) + r
    decreases |s|, 0
  {
    ObjectSound(s, ms, r);
    if ms != [] {
      OnlyMembersRead(s[1..], ms, r);
      SplitFirst(s);
    }
  }

  lemma CommaFirst(rest: string, text: string, r: string)
    requires rest != "" && rest[0] == ',' && rest[1..] == text + r
    ensures rest == "," + text + r
  {
    SplitFirst(rest);
  }

  lemma Compose(s: string, first: string, tail: string, r: string, text: string)
    requires s == first + (tail + r) && text == first + tail
    ensures s == text + r
  {
  }

  lemma ItemsSplit(s: string, xs: seq<Json>, r: string)
    requires ReadItems(s) == Read(xs, r)
    ensures xs != [] && ReadValue(s).Read? && ReadValue(s).value == xs[0] && ReadValue(s).rest != ""
    ensures var rest := ReadValue(s).rest;
      if xs[1..] == [] then rest == "]" + r else rest[0] == ',' && ReadItems(rest[1..]) == Read(xs[1..], r)
  {
    SplitFirst(ReadValue(s).rest);
    if ReadValue(s).rest[0] == ',' { assert ([xs[0]] + ReadItems(ReadValue(s).rest[1..]).value)[1..] == xs[1..]; }
  }

  lemma {:induction false} OnlyItemsRead(s: string, xs: seq<Json>, r: string)
    requires ReadItems(s) == Read(xs, r) && forall x :: x in xs ==> KeysSorted(x)
    ensures xs != [] && s == ItemsText(xs) + r
    decreases |s|, 2
  {
    ItemsSplit(s, xs, r);
    var rest := ReadValue(s).rest;
    OnlyPrintedIsRead(s, xs[0], rest);
    ItemsShape(xs);
    if xs[1..] != [] {
      OnlyItemsRead(rest[1..], xs[1..], r);
      CommaFirst(rest, ItemsText(xs[1..]), r);
    }
    Compose(s, Print(xs[0]), ItemsTail(xs[1..]), r, ItemsText(xs));
  }

  lemma OnlyMemberRead(s: string, m: Keyed<Json>, r: string)
    requires ReadMember(s) == Read(m, r) && KeysSorted(m.it)
    ensures s == PrintEntry(m.key, Print(m.it)) + r
    decreases |s|, 2
  {
    var k := ReadText(s);
    TextSound(s, k.value, k.rest);
    OnlyPrintedIsRead(k.rest[1..], m.it, r);
    SplitFirst(k.rest);
    RegroupFour(Quote(m.key), ":", Print(m.it), r);
  }

  lemma MembersSplit(s: string, ms: seq<Keyed<Json>>, r: string)
    requires ReadMembers(s) == Read(ms, r)
    ensures ms != [] && ReadMember(s).Read? && ReadMember(s).value == ms[0] && ReadMember(s).rest != ""
    ensures var rest := ReadMember(s).rest;
      if ms[1..] == [] then rest == "}" + r else rest[0] == ',' && ReadMembers(rest[1..]) == Read(ms[1..], r)
  {
    SplitFirst(ReadMember(s).rest);
    if ReadMember(s).rest[0] == ',' { assert ([ms[0]] + ReadMembers(ReadMember(s).rest[1..]).value)[1..] == ms[1..]; }
  }

  lemma {:induction false} OnlyMembersRead(s: string, ms: seq<Keyed<Json>>, r: string)
    requires ReadMembers(s) == Read(ms, r) && forall m :: m in ms ==> KeysSorted(m.it)
    ensures ms != [] && s == MembersText(ms) + r
    decreases |s|, 3
  {
    MembersSplit(s, ms, r);
    var rest, first := ReadMember(s).rest, PrintEntry(ms[0].key, Print(ms[0].it));
    OnlyMemberRead(s, ms[0], rest);
    MembersShape(ms);
    if ms[1..] != [] {
      OnlyMembersRead(rest[1..], ms[1..], r);
      CommaFirst(rest, MembersText(ms[1..]), r);
    }
    Compose(s, first, MembersTail(ms[1..]), r, MembersText(ms));
  }

  // ----- main results -----------------------------------------------------------------------------------

  /** A text is the printed text of a key-sorted value exactly when it is read as that value
      to its end. */
  lemma PrintedExactly(s: string, v: Json)
    requires KeysSorted(v)
    ensures s == Print(v) <==> ReadValue(s) == Read(v, "")
  {
    assert Print(v) + "" == Print(v);
    PrintedIsRead(v, "");
    if ReadValue(s) == Read(v, "") { OnlyPrintedIsRead(s, v, ""); }
  }

  /** So the printed text determines the value and where it ends. */
  lemma PrintDetermines(a: Json, b: Json, r: string, s: string)
    requires KeysSorted(a) && KeysSorted(b)
    requires Print(a) + r == Print(b) + s && Delimited(r) && Delimited(s)
    ensures a == b && r == s
  {
    PrintedIsRead(a, r);
    PrintedIsRead(b, s);
  }

  /** No escape is a prefix of another, and none starts with the closing quote. */
  lemma EscapeUnitPrefixFree(u: int, v: int, r: string, s: string)
    requires 0 <= u < 65536 && 0 <= v < 65536
    requires EscapeUnit(u) + r == EscapeUnit(v) + s
    ensures u == v && r == s
  {
    UnitRead(u, r);
    UnitRead(v, s);
  }

  lemma QuotedUnits(t: RawText)
    ensures ReadUnits(Quote(t)[1..]) == Read(Units(t), "")
  {
    UnitsRead(Units(t), "");
    assert Quote(t)[1..] == EscapeUnits(Units(t)) + "\"" + "";
  }

  /** Two texts print alike exactly when their UTF-16 units agree. */
  lemma {:induction false} TextsPrintAlike(t: RawText, u: RawText)
    ensures Quote(t) == Quote(u) <==> Units(t) == Units(u)
  {
    QuotedUnits(t);
    QuotedUnits(u);
  }

  /** Without the decoder's guarantee the printer is not injective: two lone surrogates and
      the code point they encode print alike. */
  lemma {:induction false} SplitPairPrintsAlike()
    ensures var split: RawText, joined: RawText := [0xD83D, 0xDE00], [0x1F600];
            split != joined && Quote(split) == Quote(joined)
  {
    var split: RawText, joined: RawText := [0xD83D, 0xDE00], [0x1F600];
    assert Units(split[1..]) == [0xDE00];
    assert Units(split) == [0xD83D, 0xDE00] == Units(joined);
  }
}
