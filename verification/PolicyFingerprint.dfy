/** The order-insensitive policy fingerprint of scripts/privacyAwsReadOnly.py:
    `normalized`, and the text that `policy_hash` feeds to SHA-256. */
module PolicyFingerprint {
  import opened Sorting
  import opened JsonPrinting
  import opened JsonReading

  // ----- the code ---------------------------------------------------------------------

  predicate PrintLe(a: Json, b: Json) { LexLe(Print(a), Print(b), CharCode) }

  function Normalized(v: Json): Json {
    match v
    case Arr(items) => Arr(Sort(NormalizedItems(items), PrintLe))
    case Obj(members) => Obj(Sort(NormalizedMembers(members), KeyLe))
    case _ => v
  }

  function NormalizedItems(xs: seq<Json>): (ys: seq<Json>)
    ensures |ys| == |xs|
    ensures forall i :: 0 <= i < |xs| ==> ys[i] == Normalized(xs[i])
  {
    if xs == [] then [] else [Normalized(xs[0])] + NormalizedItems(xs[1..])
  }

  function NormalizedMembers(ms: seq<Keyed<Json>>): (ns: seq<Keyed<Json>>)
    ensures |ns| == |ms|
    ensures forall i :: 0 <= i < |ms| ==> ns[i] == Keyed(ms[i].key, Normalized(ms[i].it))
  {
    if ms == [] then []
    else [Keyed(ms[0].key, Normalized(ms[0].it))] + NormalizedMembers(ms[1..])
  }

  /** The text hashed. */
  function Fingerprint(v: Json): string { Print(Normalized(v)) }

  // ----- what it should mean: the same value up to order --------------------------------

  function Without<T>(xs: seq<T>, j: nat): seq<T>
    requires j < |xs|
  {
    xs[..j] + xs[j + 1..]
  }

  /** The same up to the order of array items and object members at every depth:
      strike out the first item together with some item of the other list that is
      the same, until both are empty. */
  ghost predicate Same(a: Json, b: Json)
    decreases a, 1
  {
    match a
    case Arr(items) => b.Arr? && SameItems(items, b.items)
    case Obj(members) => b.Obj? && SameMembers(members, b.members)
    case _ => a == b
  }

  ghost predicate SameItems(xs: seq<Json>, ys: seq<Json>)
    decreases xs, 0
  {
    if xs == [] then ys == []
    else exists j :: 0 <= j < |ys| && Same(xs[0], ys[j]) && SameItems(xs[1..], Without(ys, j))
  }

  ghost predicate SameMembers(ms: seq<Keyed<Json>>, ns: seq<Keyed<Json>>)
    decreases ms, 0
  {
    if ms == [] then ns == []
    else exists j :: 0 <= j < |ns| && ms[0].key == ns[j].key && Same(ms[0].it, ns[j].it) &&
                     SameMembers(ms[1..], Without(ns, j))
  }

  // ----- the sort keys are total orders on what is sorted --------------------------------

  lemma PrintLeIsPreorder()
    ensures TotalPreorder(PrintLe)
  {
    forall x: Json, y: Json ensures PrintLe(x, y) || PrintLe(y, x) {
      LexTotal(Print(x), Print(y), CharCode);
    }
    forall x: Json, y: Json, z: Json | PrintLe(x, y) && PrintLe(y, z) ensures PrintLe(x, z) {
      LexTransitive(Print(x), Print(y), Print(z), CharCode);
    }
  }

  lemma SamePrintSameValue(a: Json, b: Json)
    requires KeysSorted(a) && KeysSorted(b) && Print(a) == Print(b)
    ensures a == b
  {
    assert Print(a) + "" == Print(b) + "";
    PrintDetermines(a, b, "", "");
  }

  lemma PrintLeSeparates(xs: seq<Json>)
    requires forall x :: x in xs ==> KeysSorted(x)
    ensures Separates(xs, PrintLe)
  {
    forall x, y | x in xs && y in xs && PrintLe(x, y) && PrintLe(y, x) ensures x == y {
      LexAntisymmetric(Print(x), Print(y), CharCode);
      SamePrintSameValue(x, y);
    }
  }

  lemma KeyLeSeparates<V(!new)>(ms: seq<Keyed<V>>)
    requires DistinctKeys(ms)
    ensures Separates(ms, KeyLe)
  {
    forall x, y | x in ms && y in ms && KeyLe(x, y) && KeyLe(y, x) ensures x == y {
      LexAntisymmetric(x.key, y.key, CodePoint);
      var i :| 0 <= i < |ms| && ms[i] == x;
      var j :| 0 <= j < |ms| && ms[j] == y;
    }
  }

  lemma {:induction false} NormalizedKeysSorted(v: Json)
    ensures KeysSorted(Normalized(v))
  {
    match v {
      case Arr(items) =>
        var ys := NormalizedItems(items);
        forall y | y in ys ensures KeysSorted(y) {
          var i :| 0 <= i < |ys| && ys[i] == y;
          NormalizedKeysSorted(items[i]);
        }
        SortPermutes(ys, PrintLe);
        SameElements(Sort(ys, PrintLe), ys);
      case Obj(members) =>
        var ns := NormalizedMembers(members);
        forall n | n in ns ensures KeysSorted(n.it) {
          var i :| 0 <= i < |ns| && ns[i] == n;
          NormalizedKeysSorted(members[i].it);
        }
        SortPermutes(ns, KeyLe);
        SameElements(Sort(ns, KeyLe), ns);
        KeyLeIsPreorder<Json>();
        SortSorts(ns, KeyLe);
      case _ =>
    }
  }

  lemma NormalizedItemsKeysSorted(xs: seq<Json>)
    ensures forall y :: y in NormalizedItems(xs) ==> KeysSorted(y)
  {
    forall y | y in NormalizedItems(xs) ensures KeysSorted(y) {
      var i :| 0 <= i < |xs| && NormalizedItems(xs)[i] == y;
      NormalizedKeysSorted(xs[i]);
    }
  }

  // ----- same values have one normal form -------------------------------------------------

  lemma WithoutMultiset<T>(xs: seq<T>, j: nat)
    requires j < |xs|
    ensures multiset(xs) == multiset{xs[j]} + multiset(Without(xs, j))
  {
    assert xs == xs[..j] + [xs[j]] + xs[j + 1..];
  }

  /** Striking the head of one list and its match in another keeps the multisets in step. */
  lemma StruckAlike<T>(us: seq<T>, vs: seq<T>, j: nat)
    requires us != [] && j < |vs| && us[0] == vs[j]
    ensures multiset(us) == multiset(vs) <==> multiset(us[1..]) == multiset(Without(vs, j))
  {
    WithoutMultiset(us, 0);
    WithoutMultiset(vs, j);
    assert Without(us, 0) == us[1..];
    var head := multiset{us[0]};
    assert multiset(us) - head == multiset(us[1..]);
    assert multiset(vs) - head == multiset(Without(vs, j));
  }

  lemma WithoutTail<T>(xs: seq<T>, j: nat)
    requires 0 < j < |xs|
    ensures Without(xs, j) == [xs[0]] + Without(xs[1..], j - 1)
  {
  }

  lemma {:induction false} NormalizedItemsWithout(xs: seq<Json>, j: nat)
    requires j < |xs|
    ensures NormalizedItems(Without(xs, j)) == Without(NormalizedItems(xs), j)
  {
    if j == 0 {
      assert Without(xs, 0) == xs[1..];
    } else {
      NormalizedItemsWithout(xs[1..], j - 1);
      WithoutTail(xs, j);
      WithoutTail(NormalizedItems(xs), j);
    }
  }

  lemma {:induction false} NormalizedMembersWithout(ms: seq<Keyed<Json>>, j: nat)
    requires j < |ms|
    ensures NormalizedMembers(Without(ms, j)) == Without(NormalizedMembers(ms), j)
  {
    if j == 0 {
      assert Without(ms, 0) == ms[1..];
    } else {
      NormalizedMembersWithout(ms[1..], j - 1);
      WithoutTail(ms, j);
      WithoutTail(NormalizedMembers(ms), j);
    }
  }

  lemma {:induction false} SameNormalizes(a: Json, b: Json)
    requires Valid(a) && Valid(b) && Same(a, b)
    ensures Normalized(a) == Normalized(b)
    decreases a, 1
  {
    match a {
      case Arr(items) =>
        SameItemsNormalize(items, b.items);
        PrintLeIsPreorder();
        NormalizedItemsKeysSorted(items);
        PrintLeSeparates(NormalizedItems(items));
        SortCanonical(NormalizedItems(items), NormalizedItems(b.items), PrintLe);
      case Obj(members) =>
        SameMembersNormalize(members, b.members);
        KeyLeIsPreorder<Json>();
        KeyLeSeparates(NormalizedMembers(members));
        SortCanonical(NormalizedMembers(members), NormalizedMembers(b.members), KeyLe);
      case _ =>
    }
  }

  lemma {:induction false} SameItemsNormalize(xs: seq<Json>, ys: seq<Json>)
    requires forall v :: v in xs || v in ys ==> Valid(v)
    requires SameItems(xs, ys)
    ensures multiset(NormalizedItems(xs)) == multiset(NormalizedItems(ys))
    decreases xs, 0
  {
    if xs != [] {
      var j :| 0 <= j < |ys| && Same(xs[0], ys[j]) && SameItems(xs[1..], Without(ys, j));
      SameNormalizes(xs[0], ys[j]);
      SameItemsNormalize(xs[1..], Without(ys, j));
      NormalizedItemsWithout(ys, j);
      StruckAlike(NormalizedItems(xs), NormalizedItems(ys), j);
    }
  }

  lemma {:induction false} SameMembersNormalize(ms: seq<Keyed<Json>>, ns: seq<Keyed<Json>>)
    requires forall m :: m in ms || m in ns ==> Valid(m.it)
    requires SameMembers(ms, ns)
    ensures multiset(NormalizedMembers(ms)) == multiset(NormalizedMembers(ns))
    decreases ms, 0
  {
    if ms != [] {
      var j :| 0 <= j < |ns| && ms[0].key == ns[j].key && Same(ms[0].it, ns[j].it) &&
               SameMembers(ms[1..], Without(ns, j));
      SameNormalizes(ms[0].it, ns[j].it);
      SameMembersNormalize(ms[1..], Without(ns, j));
      NormalizedMembersWithout(ns, j);
      StruckAlike(NormalizedMembers(ms), NormalizedMembers(ns), j);
    }
  }

  // ----- one normal form only for same values ----------------------------------------------

  lemma {:induction false} NormalizedSame(a: Json, b: Json)
    requires Normalized(a) == Normalized(b)
    ensures Same(a, b)
    decreases a, 1
  {
    match a {
      case Arr(items) =>
        SortPermutes(NormalizedItems(items), PrintLe);
        SortPermutes(NormalizedItems(b.items), PrintLe);
        NormalizedSameItems(items, b.items);
      case Obj(members) =>
        SortPermutes(NormalizedMembers(members), KeyLe);
        SortPermutes(NormalizedMembers(b.members), KeyLe);
        NormalizedSameMembers(members, b.members);
      case _ =>
    }
  }

  lemma MatchOf<T>(us: seq<T>, vs: seq<T>) returns (j: nat)
    requires us != [] && multiset(us) == multiset(vs)
    ensures j < |vs| && vs[j] == us[0]
    ensures multiset(us[1..]) == multiset(Without(vs, j))
  {
    SameElements(us, vs);
    assert us[0] in us;
    j :| 0 <= j < |vs| && vs[j] == us[0];
    StruckAlike(us, vs, j);
  }

  lemma {:induction false} NormalizedSameItems(xs: seq<Json>, ys: seq<Json>)
    requires multiset(NormalizedItems(xs)) == multiset(NormalizedItems(ys))
    ensures SameItems(xs, ys)
    decreases xs, 0
  {
    assert |multiset(NormalizedItems(xs))| == |xs| && |multiset(NormalizedItems(ys))| == |ys|;
    if xs != [] {
      var j := MatchOf(NormalizedItems(xs), NormalizedItems(ys));
      NormalizedItemsWithout(ys, j);
      NormalizedSame(xs[0], ys[j]);
      NormalizedSameItems(xs[1..], Without(ys, j));
    }
  }

  lemma {:induction false} NormalizedSameMembers(ms: seq<Keyed<Json>>, ns: seq<Keyed<Json>>)
    requires multiset(NormalizedMembers(ms)) == multiset(NormalizedMembers(ns))
    ensures SameMembers(ms, ns)
    decreases ms, 0
  {
    assert |multiset(NormalizedMembers(ms))| == |ms| && |multiset(NormalizedMembers(ns))| == |ns|;
    if ms != [] {
      var j := MatchOf(NormalizedMembers(ms), NormalizedMembers(ns));
      NormalizedMembersWithout(ns, j);
      NormalizedSame(ms[0].it, ns[j].it);
      NormalizedSameMembers(ms[1..], Without(ns, j));
    }
  }

  // ----- main results ------------------------------------------------------------------------

  /** `normalized` is canonical, and so is the text hashed: they agree on two values
      exactly when the values are the same up to order at every depth. */
  lemma FingerprintIsCanonical(a: Json, b: Json)
    requires Valid(a) && Valid(b)
    ensures Normalized(a) == Normalized(b) <==> Same(a, b)
    ensures Fingerprint(a) == Fingerprint(b) <==> Same(a, b)
  {
    if Same(a, b) {
      SameNormalizes(a, b);
    }
    if Fingerprint(a) == Fingerprint(b) {
      NormalizedKeysSorted(a);
      NormalizedKeysSorted(b);
      SamePrintSameValue(Normalized(a), Normalized(b));
    }
    if Normalized(a) == Normalized(b) {
      NormalizedSame(a, b);
    }
  }

  lemma SortedOnce<T(!new)>(xs: seq<T>, le: (T, T) -> bool)
    requires TotalPreorder(le)
    ensures Sort(Sort(xs, le), le) == Sort(xs, le)
    ensures forall y :: y in Sort(xs, le) ==> y in xs
  {
    SortSorts(xs, le);
    SortKeepsSorted(Sort(xs, le), le);
    SortPermutes(xs, le);
    SameElements(Sort(xs, le), xs);
  }

  lemma NormalItemsFixed(ys: seq<Json>)
    requires forall y :: y in ys ==> Normalized(y) == y
    ensures NormalizedItems(ys) == ys
  {
  }

  lemma NormalMembersFixed(ns: seq<Keyed<Json>>)
    requires forall n :: n in ns ==> Normalized(n.it) == n.it
    ensures NormalizedMembers(ns) == ns
  {
  }

  lemma {:induction false} NormalizedIdempotent(v: Json)
    ensures Normalized(Normalized(v)) == Normalized(v)
  {
    match v {
      case Arr(items) =>
        var ys := NormalizedItems(items);
        PrintLeIsPreorder();
        SortedOnce(ys, PrintLe);
        forall y | y in Sort(ys, PrintLe) ensures Normalized(y) == y {
          var i :| 0 <= i < |items| && ys[i] == y;
          NormalizedIdempotent(items[i]);
        }
        NormalItemsFixed(Sort(ys, PrintLe));
      case Obj(members) =>
        var ns := NormalizedMembers(members);
        KeyLeIsPreorder<Json>();
        SortedOnce(ns, KeyLe);
        forall n | n in Sort(ns, KeyLe) ensures Normalized(n.it) == n.it {
          var i :| 0 <= i < |members| && ns[i] == n;
          NormalizedIdempotent(members[i].it);
        }
        NormalMembersFixed(Sort(ns, KeyLe));
      case _ =>
    }
  }

  /** Normalizing only reorders: nothing is added, lost or changed. */
  lemma NormalizedIsSame(v: Json)
    ensures Same(v, Normalized(v))
  {
    NormalizedIdempotent(v);
    NormalizedSame(v, Normalized(v));
  }

  // ----- the text hashed -----------------------------------------------------------------------

  /** The text hashed is the one compact JSON text of the normal form: a text is it exactly
      when the reader reads it to its end as the normal form. */
  lemma FingerprintReadsBack(v: Json, s: string)
    ensures s == Fingerprint(v) <==> ReadValue(s) == Read(Normalized(v), "")
  {
    NormalizedKeysSorted(v);
    PrintedExactly(s, Normalized(v));
  }

  /** The first difference decides, and a prefix comes first. */
  ghost predicate Precedes<T>(a: seq<T>, b: seq<T>, code: T -> int) {
    exists k :: 0 <= k <= |a| && k <= |b| && a[..k] == b[..k] &&
                (k == |a| || (k < |b| && code(a[k]) < code(b[k])))
  }

  lemma {:induction false} LexPrecedes<T(!new)>(a: seq<T>, b: seq<T>, code: T -> int)
    requires forall x, y :: code(x) == code(y) ==> x == y
    requires LexLe(a, b, code)
    ensures Precedes(a, b, code)
  {
    if a == [] {
      assert a[..0] == b[..0];
    } else if code(a[0]) < code(b[0]) {
      assert a[..0] == b[..0];
    } else {
      LexPrecedes(a[1..], b[1..], code);
      var x, y := a[1..], b[1..];
      var k :| 0 <= k <= |x| && k <= |y| && x[..k] == y[..k] && (k == |x| || (k < |y| && code(x[k]) < code(y[k])));
      assert a[..k + 1] == [a[0]] + x[..k] && b[..k + 1] == [b[0]] + y[..k];
    }
  }

  /** At every depth array items ascend by their printed text and object members by key, both
      character by character. */
  ghost predicate InOrder(v: Json) {
    match v
    case Arr(items) =>
      && (forall i, j :: 0 <= i < j < |items| ==> Precedes(Print(items[i]), Print(items[j]), (c: char) => c as int))
      && forall x :: x in items ==> InOrder(x)
    case Obj(members) =>
      && (forall i, j :: 0 <= i < j < |members| ==> Precedes(members[i].key, members[j].key, (c: int) => c))
      && forall m :: m in members ==> InOrder(m.it)
    case _ => true
  }

  lemma PrintOrder(a: Json, b: Json)
    requires PrintLe(a, b)
    ensures Precedes(Print(a), Print(b), (c: char) => c as int)
  {
    SameCodes(Print(a), Print(b), CharCode, (c: char) => c as int);
    LexPrecedes(Print(a), Print(b), (c: char) => c as int);
  }

  lemma KeyOrder(a: Text, b: Text)
    requires LexLe(a, b, CodePoint)
    ensures Precedes(a, b, (c: int) => c)
  {
    SameCodes(a, b, CodePoint, (c: int) => c);
    LexPrecedes(a, b, (c: int) => c);
  }

  lemma {:induction false} SameCodes<T(!new)>(a: seq<T>, b: seq<T>, code: T -> int, same: T -> int)
    requires (forall x :: code(x) == same(x)) && LexLe(a, b, code)
    ensures LexLe(a, b, same)
  {
    if a != [] && code(a[0]) == code(b[0]) { SameCodes(a[1..], b[1..], code, same); }
  }

  lemma {:induction false} NormalizedInOrder(v: Json)
    ensures InOrder(Normalized(v))
  {
    match v {
      case Arr(items) =>
        var ys := NormalizedItems(items);
        PrintLeIsPreorder();
        SortSorts(ys, PrintLe);
        SortedOnce(ys, PrintLe);
        var sorted := Sort(ys, PrintLe);
        forall i, j | 0 <= i < j < |sorted|
          ensures Precedes(Print(sorted[i]), Print(sorted[j]), (c: char) => c as int)
        {
          PrintOrder(sorted[i], sorted[j]);
        }
        forall y | y in sorted ensures InOrder(y) {
          var i :| 0 <= i < |items| && ys[i] == y;
          NormalizedInOrder(items[i]);
        }
      case Obj(members) =>
        var ns := NormalizedMembers(members);
        KeyLeIsPreorder<Json>();
        SortSorts(ns, KeyLe);
        SortedOnce(ns, KeyLe);
        var sorted := Sort(ns, KeyLe);
        forall i, j | 0 <= i < j < |sorted| ensures Precedes(sorted[i].key, sorted[j].key, (c: int) => c) {
          KeyOrder(sorted[i].key, sorted[j].key);
        }
        forall n | n in sorted ensures InOrder(n.it) {
          var i :| 0 <= i < |members| && ns[i] == n;
          NormalizedInOrder(members[i].it);
        }
      case _ =>
    }
  }
}
