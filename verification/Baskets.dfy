/** Usable previous orders and their basket signatures
    (speedy-dispatcher/src/manualPreviousOrder.ts). Quantities are exact reals. */
module Baskets {
  import opened Collections
  import opened Options
  import opened Sorting

  /** A name that is not a string, or a quantity that is not finite, is None. */
  datatype Item = Item(name: Option<string>, quantity: Option<real>)

  datatype Order = Order(id: string, items: Option<seq<Item>>, paymentMethod: Option<string>)

  datatype FieldItem = FieldItem(itemName: string, quantity: real)

  datatype Fields = Fields(items: seq<FieldItem>, paymentMethod: Option<string>)

  /** One line of the quantity map. */
  datatype Entry = Entry(name: string, total: real)

  /** The text operations of the runtime: trimming to nothing, the normal form of a
      name (trimmed, single spaces, lower case), and the collation behind localeCompare. */
  datatype TextRules = TextRules(
    blank: string -> bool,
    normalize: string -> string,
    le: (string, string) -> bool)
  {
    predicate EntryLe(a: Entry, b: Entry) { le(a.name, b.name) }
  }

  predicate KnownPayment(payment: Option<string>) {
    payment == Some("CASH") || payment == Some("DEBIT") || payment == Some("VISA") ||
    payment == Some("MASTERCARD") || payment == Some("ETRANSFER")
  }

  predicate UsableItem(rules: TextRules, item: Item) {
    item.name.Some? && !rules.blank(item.name.value) &&
    item.quantity.Some? && item.quantity.value > 0.0
  }

  predicate UsableItems(rules: TextRules, items: seq<Item>) {
    forall item :: item in items ==> UsableItem(rules, item)
  }

  predicate Usable(rules: TextRules, order: Order) {
    order.items.Some? && order.items.value != [] && UsableItems(rules, order.items.value)
  }

  function LoadItems(rules: TextRules, items: seq<Item>): (fs: seq<FieldItem>)
    requires UsableItems(rules, items)
    ensures |fs| == |items| && Positive(fs)
    ensures forall i :: 0 <= i < |fs| ==>
              UsableItem(rules, items[i]) &&
              fs[i] == FieldItem(items[i].name.value, items[i].quantity.value)
  {
    if items == [] then []
    else
      assert UsableItem(rules, items[0]);
      [FieldItem(items[0].name.value, items[0].quantity.value)] + LoadItems(rules, items[1..])
  }

  /** The whole order or nothing. */
  function GetPreviousOrderFields(rules: TextRules, order: Order): Option<Fields> {
    if !Usable(rules, order) then None
    else Some(Fields(LoadItems(rules, order.items.value),
                     if KnownPayment(order.paymentMethod) then order.paymentMethod else None))
  }

  /** The whole order or nothing: every item with its name and quantity, and the payment if
      it is one of five; nothing exactly if there is no item, or one without a proper name
      or quantity. */
  lemma FieldsAreTheOrder(rules: TextRules, order: Order)
    ensures var fields := GetPreviousOrderFields(rules, order);
      && (fields.Some? ==>
            && order.items.Some? && order.items.value != [] && |fields.value.items| == |order.items.value|
            && (forall i :: 0 <= i < |order.items.value| ==>
                  var (item, field) := (order.items.value[i], fields.value.items[i]);
                  item == Item(Some(field.itemName), Some(field.quantity)) &&
                  !rules.blank(field.itemName) && field.quantity > 0.0)
            && fields.value.paymentMethod ==
               (if order.paymentMethod.Some? &&
                   order.paymentMethod.value in ["CASH", "DEBIT", "VISA", "MASTERCARD", "ETRANSFER"]
                then order.paymentMethod else None))
      && (fields.None? ==>
            || order.items.None? || order.items.value == []
            || exists i :: 0 <= i < |order.items.value| && !ProperItem(rules, order.items.value[i]))
  {
    if order.items.Some? && !UsableItems(rules, order.items.value) {
      var item :| item in order.items.value && !UsableItem(rules, item);
      var i :| 0 <= i < |order.items.value| && order.items.value[i] == item;
      assert !ProperItem(rules, order.items.value[i]);
    }
  }

  predicate ProperItem(rules: TextRules, item: Item) {
    item.name.Some? && item.quantity.Some? && !rules.blank(item.name.value) && 0.0 < item.quantity.value
  }

  // ----- the quantity map and the signature ----------------------------------------------

  /** `quantities.set(name, (quantities.get(name) ?? 0) + quantity)`: an updated line
      keeps its place. */
  function AddTo(entries: seq<Entry>, name: string, quantity: real): seq<Entry> {
    if entries == [] then [Entry(name, quantity)]
    else if entries[0].name == name then [Entry(name, entries[0].total + quantity)] + entries[1..]
    else [entries[0]] + AddTo(entries[1..], name, quantity)
  }

  function Quantities(rules: TextRules, items: seq<FieldItem>): seq<Entry> {
    if items == [] then []
    else
      var last := |items| - 1;
      AddTo(Quantities(rules, items[..last]), rules.normalize(items[last].itemName), items[last].quantity)
  }

  /** JSON.stringify of the sorted lines determines them, so the lines stand for it. */
  function Signature(rules: TextRules, fields: Fields): seq<Entry> {
    Sort(Quantities(rules, fields.items), rules.EntryLe)
  }

  method SignatureOf(rules: TextRules, fields: Fields) returns (signature: seq<Entry>)
    ensures signature == Signature(rules, fields)
  {
    var quantities: seq<Entry> := [];
    for i := 0 to |fields.items|
      invariant quantities == Quantities(rules, fields.items[..i])
    {
      var item := fields.items[i];
      assert fields.items[..i + 1][..i] == fields.items[..i];
      quantities := AddTo(quantities, rules.normalize(item.itemName), item.quantity);
    }
    assert fields.items[..|fields.items|] == fields.items;
    signature := Sort(quantities, rules.EntryLe);
  }

  // ----- what a basket is ---------------------------------------------------------------------

  /** The total quantity of a normalized name. */
  function Total(rules: TextRules, items: seq<FieldItem>, name: string): real {
    if items == [] then 0.0
    else
      var last := |items| - 1;
      Total(rules, items[..last], name) +
      (if rules.normalize(items[last].itemName) == name then items[last].quantity else 0.0)
  }

  ghost predicate SameBasket(rules: TextRules, a: seq<FieldItem>, b: seq<FieldItem>) {
    forall name :: Total(rules, a, name) == Total(rules, b, name)
  }

  predicate Positive(items: seq<FieldItem>) {
    forall i :: 0 <= i < |items| ==> items[i].quantity > 0.0
  }

  predicate DistinctNames(entries: seq<Entry>) {
    forall i, j :: 0 <= i < j < |entries| ==> entries[i].name != entries[j].name
  }

  /** The lines are exactly the names with a positive total, once each. */
  ghost predicate Tallies(entries: seq<Entry>, rules: TextRules, items: seq<FieldItem>) {
    && DistinctNames(entries)
    && forall e: Entry :: e in entries <==> e.total > 0.0 && e.total == Total(rules, items, e.name)
  }

  lemma {:induction false} AddToNames(entries: seq<Entry>, name: string, quantity: real, other: string)
    requires other != name && forall e :: e in entries ==> e.name != other
    ensures forall e :: e in AddTo(entries, name, quantity) ==> e.name != other
  {
    if entries != [] && entries[0].name != name {
      AddToNames(entries[1..], name, quantity, other);
    }
  }

  lemma {:induction false} AddToDistinct(entries: seq<Entry>, name: string, quantity: real)
    requires DistinctNames(entries)
    ensures DistinctNames(AddTo(entries, name, quantity))
  {
    if entries != [] && entries[0].name != name {
      AddToNames(entries[1..], name, quantity, entries[0].name);
      AddToDistinct(entries[1..], name, quantity);
    }
  }

  lemma {:induction false} AddToMembers(entries: seq<Entry>, name: string, quantity: real, e: Entry)
    requires DistinctNames(entries)
    ensures e.name != name ==> (e in AddTo(entries, name, quantity) <==> e in entries)
    ensures e.name == name ==>
              (e in AddTo(entries, name, quantity) <==>
               Entry(name, e.total - quantity) in entries ||
               ((forall o :: o in entries ==> o.name != name) && e.total == quantity))
  {
    if entries != [] {
      var tail := entries[1..];
      SplitFirst(entries);
      InCons(entries[0], tail);
      if entries[0].name == name {
        InCons(Entry(name, entries[0].total + quantity), tail);
      } else {
        AddToMembers(tail, name, quantity, e);
        InCons(entries[0], AddTo(tail, name, quantity));
      }
    }
  }

  lemma {:induction false} QuantitiesTally(rules: TextRules, items: seq<FieldItem>)
    requires Positive(items)
    ensures Tallies(Quantities(rules, items), rules, items)
    ensures forall name :: Total(rules, items, name) >= 0.0
  {
    if items != [] {
      var last := |items| - 1;
      var before := items[..last];
      QuantitiesTally(rules, before);
      var entries, name, q := Quantities(rules, before), rules.normalize(items[last].itemName), items[last].quantity;
      var had := Entry(name, Total(rules, before, name));
      assert had.total > 0.0 <==> had in entries;
      forall e: Entry
        ensures e in AddTo(entries, name, q) <==> e.total > 0.0 && e.total == Total(rules, items, e.name)
      {
        AddToMembers(entries, name, q, e);
      }
      AddToDistinct(entries, name, q);
    }
  }

  // ----- equal signatures and equal baskets ------------------------------------------------------

  lemma {:induction false} TalliesAgree(rules: TextRules, a: seq<FieldItem>, b: seq<FieldItem>)
    requires Positive(a) && Positive(b)
    ensures SameBasket(rules, a, b) <==>
            multiset(Quantities(rules, a)) == multiset(Quantities(rules, b))
  {
    var xs, ys := Quantities(rules, a), Quantities(rules, b);
    QuantitiesTally(rules, a);
    QuantitiesTally(rules, b);
    if SameBasket(rules, a, b) {
      DistinctSameMembers(xs, ys);
    }
    if multiset(xs) == multiset(ys) {
      SameElements(xs, ys);
      forall name ensures Total(rules, a, name) == Total(rules, b, name) {
        var x, y := Entry(name, Total(rules, a, name)), Entry(name, Total(rules, b, name));
        assert x in xs <==> x.total > 0.0;
        assert y in ys <==> y.total > 0.0;
      }
    }
  }

  lemma DistinctCount(xs: seq<Entry>, e: Entry)
    requires DistinctNames(xs)
    ensures multiset(xs)[e] == if e in xs then 1 else 0
  {
    if e in xs {
      var i :| 0 <= i < |xs| && xs[i] == e;
      assert xs == xs[..i] + [e] + xs[i + 1..];
      assert e !in xs[..i] && e !in xs[i + 1..];
    }
  }

  lemma DistinctSameMembers(xs: seq<Entry>, ys: seq<Entry>)
    requires DistinctNames(xs) && DistinctNames(ys) && forall e :: e in xs <==> e in ys
    ensures multiset(xs) == multiset(ys)
  {
    forall e: Entry ensures multiset(xs)[e] == multiset(ys)[e] {
      DistinctCount(xs, e);
      DistinctCount(ys, e);
    }
  }

  /** Equal signatures always mean equal baskets. Conversely equal baskets have equal
      signatures, whatever the item order or splitting, if the collation separates the
      names of the basket. */
  lemma SignatureIsBasket(rules: TextRules, a: Fields, b: Fields)
    requires TotalPreorder(rules.EntryLe) && Positive(a.items) && Positive(b.items)
    ensures Signature(rules, a) == Signature(rules, b) ==> SameBasket(rules, a.items, b.items)
    ensures SameBasket(rules, a.items, b.items) && Separates(Quantities(rules, a.items), rules.EntryLe) ==>
            Signature(rules, a) == Signature(rules, b)
  {
    var xs, ys := Quantities(rules, a.items), Quantities(rules, b.items);
    TalliesAgree(rules, a.items, b.items);
    SortPermutes(xs, rules.EntryLe);
    SortPermutes(ys, rules.EntryLe);
    if multiset(xs) == multiset(ys) && Separates(xs, rules.EntryLe) {
      SortCanonical(xs, ys, rules.EntryLe);
    }
  }

  /** Lines already in normal form, as order items. */
  function AsItems(entries: seq<Entry>): (items: seq<FieldItem>)
    ensures |items| == |entries|
    ensures forall i :: 0 <= i < |items| ==> items[i] == FieldItem(entries[i].name, entries[i].total)
  {
    if entries == [] then [] else [FieldItem(entries[0].name, entries[0].total)] + AsItems(entries[1..])
  }

  ghost predicate Normal(rules: TextRules, entries: seq<Entry>) {
    forall e :: e in entries ==> rules.normalize(e.name) == e.name
  }

  lemma {:induction false} AddToNew(entries: seq<Entry>, name: string, quantity: real)
    requires forall e :: e in entries ==> e.name != name
    ensures AddTo(entries, name, quantity) == entries + [Entry(name, quantity)]
  {
    if entries != [] {
      AddToNew(entries[1..], name, quantity);
      assert entries == [entries[0]] + entries[1..];
    }
  }

  lemma {:induction false} QuantitiesOfEntries(rules: TextRules, entries: seq<Entry>)
    requires DistinctNames(entries) && Normal(rules, entries)
    ensures Quantities(rules, AsItems(entries)) == entries
  {
    if entries != [] {
      var last := |entries| - 1;
      QuantitiesOfEntries(rules, entries[..last]);
      assert AsItems(entries)[..last] == AsItems(entries[..last]);
      AddToNew(entries[..last], entries[last].name, entries[last].total);
      SplitLast(entries);
    }
  }

  /** Any arrangement of a basket's lines is an order with that basket. */
  lemma ArrangementIsBasket(rules: TextRules, a: Fields, lines: seq<Entry>)
    requires Positive(a.items) && multiset(lines) == multiset(Quantities(rules, a.items))
    requires forall name :: rules.normalize(rules.normalize(name)) == rules.normalize(name)
    ensures Positive(AsItems(lines)) && SameBasket(rules, a.items, AsItems(lines))
    ensures Quantities(rules, AsItems(lines)) == lines
  {
    var xs := Quantities(rules, a.items);
    QuantitiesTally(rules, a.items);
    QuantitiesAreNormal(rules, a.items);
    SameElements(lines, xs);
    DistinctByCount(xs, lines);
    QuantitiesOfEntries(rules, lines);
    forall k | 0 <= k < |lines| ensures lines[k].total > 0.0 { assert lines[k] in xs; }
    TalliesAgree(rules, a.items, AsItems(lines));
  }

  /** The condition is exact: where the collation ties two names of a basket, another
      order has the same basket and a different signature. */
  lemma TiedNamesSplitABasket(rules: TextRules, a: Fields) returns (b: Fields)
    requires TotalPreorder(rules.EntryLe) && Positive(a.items)
    requires forall name :: rules.normalize(rules.normalize(name)) == rules.normalize(name)
    requires !Separates(Quantities(rules, a.items), rules.EntryLe)
    ensures Positive(b.items) && SameBasket(rules, a.items, b.items)
    ensures Signature(rules, a) != Signature(rules, b)
  {
    var xs := Quantities(rules, a.items);
    var sorted := Sort(xs, rules.EntryLe);
    SortPermutes(xs, rules.EntryLe);
    SortSorts(xs, rules.EntryLe);
    SameElements(sorted, xs);
    var x, y :| x in xs && y in xs && rules.EntryLe(x, y) && rules.EntryLe(y, x) && x != y;
    var swapped := SwapTied(sorted, x, y, rules.EntryLe);
    ArrangementIsBasket(rules, a, swapped);
    SortKeepsSorted(swapped, rules.EntryLe);
    b := Fields(AsItems(swapped), None);
  }

  /** One word in two encodings: the last letter with its accent, or a plain letter and a
      combining accent. Trimming, collapsing spaces and lower case leave both as they are. */
  const COMPOSED: string := "caf\U{e9}"
  const DECOMPOSED: string := "cafe\U{301}"

  /** The collation ties canonically equivalent texts, so two orders with the same two items
      in opposite order have different signatures. */
  lemma ItemOrderSplitsABasket(rules: TextRules) returns (a: Order, b: Order)
    requires TotalPreorder(rules.EntryLe)
    requires !rules.blank(COMPOSED) && rules.normalize(COMPOSED) == COMPOSED
    requires !rules.blank(DECOMPOSED) && rules.normalize(DECOMPOSED) == DECOMPOSED
    requires rules.le(COMPOSED, DECOMPOSED) && rules.le(DECOMPOSED, COMPOSED)
    ensures a.items == Some([Item(Some(COMPOSED), Some(1.0)), Item(Some(DECOMPOSED), Some(1.0))])
    ensures b.items == Some([Item(Some(DECOMPOSED), Some(1.0)), Item(Some(COMPOSED), Some(1.0))])
    ensures var fa, fb := GetPreviousOrderFields(rules, a), GetPreviousOrderFields(rules, b);
      fa.Some? && fb.Some? && SameBasket(rules, fa.value.items, fb.value.items) &&
      Signature(rules, fa.value) != Signature(rules, fb.value)
  {
    assert COMPOSED[3] != DECOMPOSED[3];
    a, b := PairOrder(COMPOSED, DECOMPOSED), PairOrder(DECOMPOSED, COMPOSED);
    PairSignature(rules, COMPOSED, DECOMPOSED);
    PairSignature(rules, DECOMPOSED, COMPOSED);
  }

  function PairOrder(first: string, second: string): Order {
    Order("id", Some([Item(Some(first), Some(1.0)), Item(Some(second), Some(1.0))]), None)
  }

  lemma PairSignature(rules: TextRules, first: string, second: string)
    requires !rules.blank(first) && rules.normalize(first) == first && first != second
    requires !rules.blank(second) && rules.normalize(second) == second && rules.le(first, second)
    ensures var fields := GetPreviousOrderFields(rules, PairOrder(first, second));
      && fields.Some?
      && Signature(rules, fields.value) == [Entry(first, 1.0), Entry(second, 1.0)]
      && forall name :: Total(rules, fields.value.items, name) == if name == first || name == second then 1.0 else 0.0
  {
    var items := PairOrder(first, second).items.value;
    assert forall item :: item in items ==> UsableItem(rules, item);
    var loaded := GetPreviousOrderFields(rules, PairOrder(first, second)).value.items;
    assert loaded == [FieldItem(first, 1.0), FieldItem(second, 1.0)];
    assert loaded[..1] == [FieldItem(first, 1.0)] && loaded[..1][..0] == [];
    assert Quantities(rules, loaded[..1]) == [Entry(first, 1.0)];
    AddToNew([Entry(first, 1.0)], second, 1.0);
    assert Quantities(rules, loaded) == [Entry(first, 1.0)] + [Entry(second, 1.0)];
    forall name ensures Total(rules, loaded, name) == if name == first || name == second then 1.0 else 0.0 {
      assert Total(rules, loaded[..1], name) == if name == first then 1.0 else 0.0;
    }
    assert [Entry(first, 1.0)] + [Entry(second, 1.0)] == [Entry(first, 1.0), Entry(second, 1.0)];
    SortKeepsSorted([Entry(first, 1.0), Entry(second, 1.0)], rules.EntryLe);
  }

  lemma SwapTied(xs: seq<Entry>, x: Entry, y: Entry, le: (Entry, Entry) -> bool) returns (ys: seq<Entry>)
    requires TotalPreorder(le) && Sorted(xs, le) && x in xs && y in xs && x != y
    requires le(x, y) && le(y, x)
    ensures multiset(ys) == multiset(xs) && Sorted(ys, le) && ys != xs
  {
    var i :| 0 <= i < |xs| && xs[i] == x;
    var j :| 0 <= j < |xs| && xs[j] == y;
    ys := xs[i := y][j := x];
    assert ys[i] != xs[i];
    SwapKeepsMultiset(xs, i, j);
    SwapKeepsSorted(xs, i, j, le);
  }

  lemma {:induction false} QuantitiesAreNormal(rules: TextRules, items: seq<FieldItem>)
    requires forall name :: rules.normalize(rules.normalize(name)) == rules.normalize(name)
    ensures Normal(rules, Quantities(rules, items))
  {
    if items != [] {
      var last := |items| - 1;
      QuantitiesAreNormal(rules, items[..last]);
      AddToNormal(rules, Quantities(rules, items[..last]), rules.normalize(items[last].itemName), items[last].quantity);
    }
  }

  lemma {:induction false} AddToNormal(rules: TextRules, entries: seq<Entry>, name: string, quantity: real)
    requires Normal(rules, entries) && rules.normalize(name) == name
    ensures Normal(rules, AddTo(entries, name, quantity))
  {
    if entries != [] && entries[0].name != name {
      AddToNormal(rules, entries[1..], name, quantity);
    }
  }

  lemma SwapKeepsMultiset(xs: seq<Entry>, i: nat, j: nat)
    requires i < |xs| && j < |xs|
    ensures multiset(xs[i := xs[j]][j := xs[i]]) == multiset(xs)
  {
  }

  lemma SwapKeepsSorted(xs: seq<Entry>, i: nat, j: nat, le: (Entry, Entry) -> bool)
    requires i < |xs| && j < |xs| && TotalPreorder(le) && Sorted(xs, le)
    requires le(xs[i], xs[j]) && le(xs[j], xs[i])
    ensures Sorted(xs[i := xs[j]][j := xs[i]], le)
  {
  }

  lemma TwiceCounted(xs: seq<Entry>, i: nat, j: nat)
    requires i < j < |xs| && xs[i] == xs[j]
    ensures multiset(xs)[xs[i]] >= 2
  {
    assert xs == xs[..i] + [xs[i]] + xs[i + 1..j] + [xs[j]] + xs[j + 1..];
  }

  lemma DistinctByCount(xs: seq<Entry>, ys: seq<Entry>)
    requires DistinctNames(xs) && multiset(xs) == multiset(ys)
    ensures DistinctNames(ys)
  {
    SameElements(xs, ys);
    forall i, j | 0 <= i < j < |ys| ensures ys[i].name != ys[j].name {
      assert ys[i] in xs && ys[j] in xs;
      if ys[i] == ys[j] { TwiceCounted(ys, i, j); }
      DistinctCount(xs, ys[i]);
    }
  }
}
