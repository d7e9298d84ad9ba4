/** The previous-order history: the server's cursor pages
    (src/controllers/customer.controller.ts), the client's page-by-page loop
    (speedy-dispatcher/src/LoadPreviousOrder.tsx) and the selection of the two
    newest different baskets (speedy-dispatcher/src/manualPreviousOrder.ts). */
module PreviousOrders {
  import opened Baskets
  import opened Collections
  import opened Options

  // ----- the selection ------------------------------------------------------------------

  function Sig(rules: TextRules, order: Order): seq<Entry>
    requires Usable(rules, order)
  {
    Signature(rules, GetPreviousOrderFields(rules, order).value)
  }

  /** Usable, and of a basket none of the selected orders has. */
  predicate IsNew(rules: TextRules, selected: seq<Order>, order: Order) {
    Usable(rules, order) &&
    forall s :: s in selected && Usable(rules, s) ==> Sig(rules, s) != Sig(rules, order)
  }

  /** The loop of getDistinctPreviousOrders from a selection on. */
  function Continue(rules: TextRules, selected: seq<Order>, orders: seq<Order>): seq<Order>
    decreases |orders|
  {
    if orders == [] || |selected| >= 2 then selected
    else Continue(rules, if IsNew(rules, selected, orders[0]) then selected + [orders[0]] else selected, orders[1..])
  }

  function Distinct(rules: TextRules, orders: seq<Order>): seq<Order> { Continue(rules, [], orders) }

  method GetDistinctPreviousOrders(rules: TextRules, orders: seq<Order>) returns (selected: seq<Order>)
    ensures selected == Distinct(rules, orders)
  {
    selected := [];
    var signatures: set<seq<Entry>> := {};
    for i := 0 to |orders|
      invariant |selected| < 2 && forall s :: s in selected ==> Usable(rules, s)
      invariant forall s :: s in selected ==> Sig(rules, s) in signatures
      invariant forall g :: g in signatures ==> exists s :: s in selected && Sig(rules, s) == g
      invariant Continue(rules, selected, orders[i..]) == Distinct(rules, orders)
    {
      assert orders[i..][0] == orders[i] && orders[i..][1..] == orders[i + 1..];
      var fields := GetPreviousOrderFields(rules, orders[i]);
      if fields.None? { continue; }
      var signature := SignatureOf(rules, fields.value);
      if signature in signatures { continue; }
      assert orders[i] in selected + [orders[i]];
      signatures := signatures + {signature};
      selected := selected + [orders[i]];
      if |selected| == 2 { break; }
    }
  }

  // ----- what is selected --------------------------------------------------------------------

  ghost predicate NoneUsable(rules: TextRules, orders: seq<Order>, from: int, upto: int)
    requires 0 <= from && upto <= |orders|
  {
    forall k :: from <= k < upto ==> !Usable(rules, orders[k])
  }

  /** Between the two indices every usable order has the basket of `order`. */
  ghost predicate OnlyRepeats(rules: TextRules, orders: seq<Order>, from: int, upto: int, order: Order)
    requires Usable(rules, order) && 0 <= from && upto <= |orders|
  {
    forall k :: from <= k < upto && Usable(rules, orders[k]) ==> Sig(rules, orders[k]) == Sig(rules, order)
  }

  /** The newest usable order, then the newest usable order with a different basket,
      with nothing eligible between or before them, and nothing else. */
  ghost predicate NewestTwo(rules: TextRules, orders: seq<Order>, r: seq<Order>) {
    if r == [] then NoneUsable(rules, orders, 0, |orders|)
    else if |r| == 1 then
      exists i :: 0 <= i < |orders| && orders[i] == r[0] && Usable(rules, r[0]) &&
                  NoneUsable(rules, orders, 0, i) && OnlyRepeats(rules, orders, i, |orders|, r[0])
    else
      |r| == 2 &&
      exists i, j :: 0 <= i < j < |orders| && orders[i] == r[0] && orders[j] == r[1] &&
                     Usable(rules, r[0]) && Usable(rules, r[1]) && Sig(rules, r[0]) != Sig(rules, r[1]) &&
                     NoneUsable(rules, orders, 0, i) && OnlyRepeats(rules, orders, i, j, r[0])
  }

  lemma ContinueAt(rules: TextRules, selected: seq<Order>, orders: seq<Order>, k: nat)
    requires k < |orders| && |selected| < 2
    ensures Continue(rules, selected, orders[k..]) ==
            Continue(rules, if IsNew(rules, selected, orders[k]) then selected + [orders[k]] else selected,
                     orders[k + 1..])
  {
    assert orders[k..][0] == orders[k] && orders[k..][1..] == orders[k + 1..];
  }

  lemma PairSelected(rules: TextRules, orders: seq<Order>, i: nat, k: nat)
    requires i < k < |orders| && Usable(rules, orders[i]) && IsNew(rules, [orders[i]], orders[k])
    requires NoneUsable(rules, orders, 0, i) && OnlyRepeats(rules, orders, i, k, orders[i])
    ensures NewestTwo(rules, orders, [orders[i], orders[k]])
  {
    assert orders[i] in [orders[i]];
  }

  lemma OneSelected(rules: TextRules, orders: seq<Order>, i: nat)
    requires i < |orders| && Usable(rules, orders[i])
    requires NoneUsable(rules, orders, 0, i) && OnlyRepeats(rules, orders, i, |orders|, orders[i])
    ensures NewestTwo(rules, orders, [orders[i]])
  {
  }

  lemma PairEnds(rules: TextRules, orders: seq<Order>, i: nat, k: nat)
    requires i < k < |orders| && IsNew(rules, [orders[i]], orders[k])
    ensures Continue(rules, [orders[i]], orders[k..]) == [orders[i], orders[k]]
  {
    ContinueAt(rules, [orders[i]], orders, k);
    assert [orders[i]] + [orders[k]] == [orders[i], orders[k]];
  }

  lemma {:induction false} SecondSelected(rules: TextRules, orders: seq<Order>, i: nat, k: nat)
    requires i < k <= |orders| && Usable(rules, orders[i])
    requires NoneUsable(rules, orders, 0, i) && OnlyRepeats(rules, orders, i, k, orders[i])
    ensures NewestTwo(rules, orders, Continue(rules, [orders[i]], orders[k..]))
    decreases |orders| - k
  {
    if k == |orders| {
      assert orders[k..] == [];
      OneSelected(rules, orders, i);
    } else if IsNew(rules, [orders[i]], orders[k]) {
      PairEnds(rules, orders, i, k);
      PairSelected(rules, orders, i, k);
    } else {
      ContinueAt(rules, [orders[i]], orders, k);
      RepeatsOn(rules, orders, i, k);
      SecondSelected(rules, orders, i, k + 1);
    }
  }

  lemma RepeatsOn(rules: TextRules, orders: seq<Order>, i: nat, k: nat)
    requires i < k < |orders| && Usable(rules, orders[i]) && OnlyRepeats(rules, orders, i, k, orders[i])
    requires !IsNew(rules, [orders[i]], orders[k])
    ensures OnlyRepeats(rules, orders, i, k + 1, orders[i])
  {
    assert forall s :: s in [orders[i]] ==> s == orders[i];
  }

  lemma {:induction false} FirstSelected(rules: TextRules, orders: seq<Order>, i: nat)
    requires i <= |orders| && NoneUsable(rules, orders, 0, i)
    ensures NewestTwo(rules, orders, Continue(rules, [], orders[i..]))
    decreases |orders| - i
  {
    if i == |orders| {
      assert orders[i..] == [];
    } else {
      ContinueAt(rules, [], orders, i);
      if Usable(rules, orders[i]) {
        assert [] + [orders[i]] == [orders[i]];
        SecondSelected(rules, orders, i, i + 1);
      } else {
        FirstSelected(rules, orders, i + 1);
      }
    }
  }

  lemma DistinctIsNewestTwo(rules: TextRules, orders: seq<Order>)
    ensures NewestTwo(rules, orders, Distinct(rules, orders))
  {
    assert orders[0..] == orders;
    FirstSelected(rules, orders, 0);
  }

  // ----- selecting page by page ------------------------------------------------------------------

  lemma {:induction false} ContinueConcat(rules: TextRules, selected: seq<Order>, a: seq<Order>, b: seq<Order>)
    ensures Continue(rules, selected, a + b) == Continue(rules, Continue(rules, selected, a), b)
    decreases |a|
  {
    if a == [] {
      assert a + b == b;
    } else if |selected| < 2 {
      assert (a + b)[0] == a[0] && (a + b)[1..] == a[1..] + b;
      ContinueConcat(rules, if IsNew(rules, selected, a[0]) then selected + [a[0]] else selected, a[1..], b);
    }
  }

  /** Every member was new when it was selected. */
  ghost predicate Selection(rules: TextRules, selected: seq<Order>) {
    |selected| <= 2 && forall i :: 0 <= i < |selected| ==> IsNew(rules, selected[..i], selected[i])
  }

  lemma {:induction false} ContinueSelects(rules: TextRules, selected: seq<Order>, orders: seq<Order>)
    requires Selection(rules, selected)
    ensures Selection(rules, Continue(rules, selected, orders))
    decreases |orders|
  {
    if orders != [] && |selected| < 2 {
      if IsNew(rules, selected, orders[0]) {
        var more := selected + [orders[0]];
        forall i | 0 <= i < |more| ensures IsNew(rules, more[..i], more[i]) {
          assert more[..i] == selected[..i];
          assert selected[..|selected|] == selected;
        }
        ContinueSelects(rules, more, orders[1..]);
      } else {
        ContinueSelects(rules, selected, orders[1..]);
      }
    }
  }

  lemma {:induction false} Reselect(rules: TextRules, selected: seq<Order>, k: nat)
    requires Selection(rules, selected) && k <= |selected|
    ensures Continue(rules, selected[..k], selected[k..]) == selected
    decreases |selected| - k
  {
    if k == |selected| {
      assert selected[..k] == selected;
    } else {
      assert selected[k..][0] == selected[k] && selected[k..][1..] == selected[k + 1..];
      assert selected[..k] + [selected[k]] == selected[..k + 1];
      assert IsNew(rules, selected[..k], selected[k]);
      Reselect(rules, selected, k + 1);
    }
  }

  /** Selecting from the earlier selection and the next page is selecting from all so far. */
  lemma DistinctByPages(rules: TextRules, a: seq<Order>, b: seq<Order>)
    ensures Distinct(rules, Distinct(rules, a) + b) == Distinct(rules, a + b)
  {
    var r := Distinct(rules, a);
    ContinueSelects(rules, [], a);
    Reselect(rules, r, 0);
    assert r[..0] == [] && r[0..] == r;
    ContinueConcat(rules, [], r, b);
    ContinueConcat(rules, [], a, b);
  }

  /** Two selected orders are final: older pages cannot matter. */
  lemma TwoSuffice(rules: TextRules, a: seq<Order>, b: seq<Order>)
    requires |Distinct(rules, a)| >= 2
    ensures Distinct(rules, a + b) == Distinct(rules, a)
  {
    ContinueConcat(rules, [], a, b);
  }

  // ----- the server's pages ------------------------------------------------------------------------

  const PAGE_SIZE: int := 20

  datatype Reply = BadReply | Page(orders: seq<Order>, nextCursor: Option<string>)

  predicate DistinctOrderIds(orders: seq<Order>) {
    forall i, j :: 0 <= i < j < |orders| ==> orders[i].id != orders[j].id
  }

  function IndexOf(orders: seq<Order>, id: string): (i: nat)
    ensures i <= |orders|
    ensures i < |orders| ==> orders[i].id == id
  {
    if orders == [] || orders[0].id == id then 0 else 1 + IndexOf(orders[1..], id)
  }

  predicate ValidCursor(rules: TextRules, cursor: string) {
    !rules.blank(cursor) && |cursor| <= 200
  }

  /** A page of twenty rows, and its last id as the next cursor if a twenty-first row
      exists. */
  function PageFrom(rest: seq<Order>): Reply {
    var rows := if |rest| > PAGE_SIZE + 1 then rest[..PAGE_SIZE + 1] else rest;
    if |rows| > PAGE_SIZE then Page(rows[..PAGE_SIZE], Some(rows[PAGE_SIZE - 1].id)) else Page(rows, None)
  }

  /** The page of the orders, newest first, after the cursor. */
  function ServerPage(rules: TextRules, orders: seq<Order>, cursor: Option<string>): Reply {
    if cursor.Some? && !ValidCursor(rules, cursor.value) then BadReply
    else if cursor.None? then PageFrom(orders)
    else
      var at := IndexOf(orders, cursor.value);
      PageFrom(if at < |orders| then orders[at + 1..] else [])
  }

  lemma {:induction false} IndexOfAt(orders: seq<Order>, i: nat)
    requires i < |orders| && DistinctOrderIds(orders)
    ensures IndexOf(orders, orders[i].id) == i
  {
    if i > 0 { IndexOfAt(orders[1..], i - 1); }
  }

  /** A cursor that is blank or too long is refused; one of no order of the customer has
      nothing after it. */
  lemma OddCursors(rules: TextRules, orders: seq<Order>, cursor: string)
    ensures ServerPage(rules, orders, Some(cursor)) == BadReply <==> rules.blank(cursor) || |cursor| > 200
    ensures !rules.blank(cursor) && |cursor| <= 200 && (forall order :: order in orders ==> order.id != cursor) ==>
              ServerPage(rules, orders, Some(cursor)) == Page([], None)
  {
    if IndexOf(orders, cursor) < |orders| { assert orders[IndexOf(orders, cursor)] in orders; }
  }

  /** The cursor that asks for page k of a history. */
  function WalkCursor(history: seq<Order>, k: nat): Option<string>
    requires PAGE_SIZE * k <= |history|
  {
    if k == 0 then None else Some(history[PAGE_SIZE * k - 1].id)
  }

  function PageOf(history: seq<Order>, k: nat): seq<Order>
    requires PAGE_SIZE * k <= |history|
  {
    if PAGE_SIZE * (k + 1) <= |history| then history[PAGE_SIZE * k..PAGE_SIZE * (k + 1)]
    else history[PAGE_SIZE * k..]
  }

  /** Cursors are usable as such. */
  predicate ProperIds(rules: TextRules, history: seq<Order>) {
    DistinctOrderIds(history) &&
    forall o :: o in history ==> o.id != "" && ValidCursor(rules, o.id)
  }

  lemma PagesOfTwenty(history: seq<Order>, k: nat)
    requires PAGE_SIZE * k <= |history|
    ensures 20 * k <= |history|
    ensures PageOf(history, k) == history[20 * k..if 20 * (k + 1) < |history| then 20 * (k + 1) else |history|]
  {
  }

  lemma ServerPageAfter(rules: TextRules, orders: seq<Order>, at: nat)
    requires at < |orders| && ProperIds(rules, orders)
    ensures ServerPage(rules, orders, Some(orders[at].id)) == PageFrom(orders[at + 1..])
  {
    assert orders[at] in orders;
    IndexOfAt(orders, at);
  }

  lemma PageFromAt(history: seq<Order>, k: nat)
    requires PAGE_SIZE * k <= |history|
    ensures PageFrom(history[PAGE_SIZE * k..]) ==
            Page(PageOf(history, k),
                 if PAGE_SIZE * (k + 1) < |history| then WalkCursor(history, k + 1) else None)
  {
    var m := PAGE_SIZE * k;
    var rest := history[m..];
    if |rest| > PAGE_SIZE {
      assert rest[..PAGE_SIZE] == PageOf(history, k);
      assert rest[PAGE_SIZE - 1] == history[m + PAGE_SIZE - 1];
    }
  }

  /** Page k of the walk is the k-th twenty of the history as it was at the start, even
      when newer orders have come in front since. */
  lemma WalkPage(rules: TextRules, newer: seq<Order>, history: seq<Order>, k: nat)
    requires PAGE_SIZE * k <= |history| && ProperIds(rules, newer + history)
    requires k == 0 ==> newer == []
    ensures ServerPage(rules, newer + history, WalkCursor(history, k)) ==
            Page(PageOf(history, k),
                 if PAGE_SIZE * (k + 1) < |history| then WalkCursor(history, k + 1) else None)
  {
    var orders := newer + history;
    PageFromAt(history, k);
    if k == 0 {
      assert orders == history == history[PAGE_SIZE * k..];
    } else {
      var at := |newer| + PAGE_SIZE * k - 1;
      assert orders[at] == history[PAGE_SIZE * k - 1];
      ServerPageAfter(rules, orders, at);
      assert orders[at + 1..] == history[PAGE_SIZE * k..];
    }
  }

  // ----- the client's loop -----------------------------------------------------------------------------

  datatype Status = Loading | Failed | Ready

  datatype History = History(status: Status, orders: seq<Order>, hasHistory: bool)

  /** The k-th reply to a cursor. */
  type Server = (nat, Option<string>) -> Reply

  /** A next cursor that is absent or empty ends the walk. */
  function NextCursor(reply: Reply): Option<string>
    requires reply.Page?
  {
    if reply.nextCursor == Some("") then None else reply.nextCursor
  }

  /** The server answers from this history, with `newer(k)` in front at the k-th fetch. */
  ghost predicate Honest(rules: TextRules, server: Server, history: seq<Order>, newer: nat -> seq<Order>) {
    && newer(0) == []
    && (forall k: nat :: ProperIds(rules, newer(k) + history))
    && (forall k: nat, cursor :: server(k, cursor) == ServerPage(rules, newer(k) + history, cursor))
  }

  ghost predicate CursorsFrom(server: Server, ids: set<string>) {
    forall k: nat, cursor ::
      server(k, cursor).Page? && NextCursor(server(k, cursor)).Some? ==> NextCursor(server(k, cursor)).value in ids
  }

  /** The cursors an honest walk has been given up to page k. */
  ghost predicate Walked(history: seq<Order>, k: nat, visited: set<string>)
    requires PAGE_SIZE * k <= |history|
  {
    forall id :: id in visited ==> exists j :: 1 <= j <= k && history[PAGE_SIZE * j - 1].id == id
  }

  /** The state of an honest walk before page k is fetched. */
  ghost predicate Walking(
    history: seq<Order>, k: nat, cursor: Option<string>, visited: set<string>, fetched: seq<Order>)
  {
    && PAGE_SIZE * k <= |history|
    && cursor == WalkCursor(history, k)
    && fetched == history[..PAGE_SIZE * k]
    && Walked(history, k, visited)
  }

  lemma HonestPage(rules: TextRules, server: Server, history: seq<Order>, newer: nat -> seq<Order>,
                   k: nat, cursor: Option<string>, visited: set<string>, fetched: seq<Order>)
    requires Honest(rules, server, history, newer) && Walking(history, k, cursor, visited, fetched)
    ensures server(k, cursor) == Page(PageOf(history, k), NextCursor(server(k, cursor)))
    ensures var next := NextCursor(server(k, cursor));
      if next.None? then fetched + PageOf(history, k) == history
      else next.value !in visited &&
           Walking(history, k + 1, next, visited + {next.value}, fetched + PageOf(history, k))
  {
    WalkPage(rules, newer(k), history, k);
    if PAGE_SIZE * (k + 1) < |history| {
      NextCursorIsNew(rules, newer(k), history, k, visited);
      assert fetched + PageOf(history, k) == history[..PAGE_SIZE * (k + 1)];
    }
  }

  /** The id a page ends on is usable as a cursor and has never been one. */
  lemma NextCursorIsNew(rules: TextRules, newer: seq<Order>, history: seq<Order>, k: nat, visited: set<string>)
    requires ProperIds(rules, newer + history) && PAGE_SIZE * (k + 1) < |history| && Walked(history, k, visited)
    ensures var id := history[PAGE_SIZE * (k + 1) - 1].id;
      id != "" && id !in visited && Walked(history, k + 1, visited + {id})
  {
    var last := PAGE_SIZE * (k + 1) - 1;
    assert (newer + history)[|newer| + last] == history[last];
    assert history[last] in newer + history;
    HistoryIdsDistinct(newer, history);
  }

  lemma HistoryIdsDistinct(newer: seq<Order>, history: seq<Order>)
    requires DistinctOrderIds(newer + history)
    ensures DistinctOrderIds(history)
  {
    forall i, j | 0 <= i < j < |history| ensures history[i].id != history[j].id {
      assert (newer + history)[|newer| + i] == history[i];
      assert (newer + history)[|newer| + j] == history[j];
    }
  }

  /** Stopping early or at the end, the selection is that of the whole history. */
  lemma StopIsFinal(rules: TextRules, history: seq<Order>, fetched: seq<Order>)
    requires fetched <= history && (fetched == history || |Distinct(rules, fetched)| >= 2)
    ensures Distinct(rules, fetched) == Distinct(rules, history)
    ensures fetched != [] <==> history != []
  {
    assert history == fetched + history[|fetched|..];
    if |Distinct(rules, fetched)| >= 2 {
      TwoSuffice(rules, fetched, history[|fetched|..]);
    }
  }

  /** One turn against an honest server ends with the selection of the whole history, or
      goes on with the walk. */
  lemma HonestTurn(rules: TextRules, server: Server, history: seq<Order>, newer: nat -> seq<Order>,
                   k: nat, cursor: Option<string>, visited: set<string>, fetched: seq<Order>)
    requires Honest(rules, server, history, newer) && Walking(history, k, cursor, visited, fetched)
    ensures server(k, cursor).Page?
    ensures var (all, next) := (fetched + server(k, cursor).orders, NextCursor(server(k, cursor)));
      if |Distinct(rules, all)| < 2 && next.Some?
      then next.value !in visited && Walking(history, k + 1, next, visited + {next.value}, all)
      else Distinct(rules, all) == Distinct(rules, history) && (all != [] <==> history != [])
  {
    HonestPage(rules, server, history, newer, k, cursor, visited, fetched);
    var all, next := fetched + server(k, cursor).orders, NextCursor(server(k, cursor));
    if next.None? || |Distinct(rules, all)| >= 2 { StopIsFinal(rules, history, all); }
  }

  /** One turn of the loop: the newest instance of each basket is kept across pages. */
  method ShowPage(rules: TextRules, h: History, ghost fetched: seq<Order>, reply: Reply)
    returns (shown: History, cursor: Option<string>)
    requires reply.Page?
    requires h.orders == Distinct(rules, fetched) && (h.hasHistory <==> fetched != [])
    ensures shown.orders == Distinct(rules, fetched + reply.orders)
    ensures shown.hasHistory <==> fetched + reply.orders != []
    ensures cursor == NextCursor(reply)
    ensures shown.status == if |shown.orders| < 2 && cursor.Some? then Loading else Ready
  {
    DistinctByPages(rules, fetched, reply.orders);
    var orders := GetDistinctPreviousOrders(rules, h.orders + reply.orders);
    cursor := NextCursor(reply);
    shown := History(if |orders| < 2 && cursor.Some? then Loading else Ready,
                     orders, h.hasHistory || reply.orders != []);
  }

  function Gained(reply: Reply): seq<Order> { if reply.Page? then reply.orders else [] }

  /** The orders of the pages fetched, newest first. */
  function OrdersOf(replies: seq<Reply>): seq<Order> {
    if replies == [] then [] else OrdersOf(replies[..|replies| - 1]) + Gained(replies[|replies| - 1])
  }

  /** The cursor the k-th fetch asks with. */
  function CursorAt(replies: seq<Reply>, k: nat): Option<string>
    requires k <= |replies|
  {
    if k == 0 || replies[k - 1].BadReply? then None else NextCursor(replies[k - 1])
  }

  /** The cursors the replies hand out. */
  function CursorsOf(replies: seq<Reply>): set<string> {
    if replies == [] then {}
    else
      var last := replies[|replies| - 1];
      CursorsOf(replies[..|replies| - 1]) +
      (if last.Page? && NextCursor(last).Some? then {NextCursor(last).value} else {})
  }

  /** The replies are the server's, each to the cursor of the one before; and after each the
      walk goes on: a page, the selection still short, and a cursor not seen before. */
  predicate GoesOn(rules: TextRules, server: Server, replies: seq<Reply>) {
    replies == [] ||
    var (init, last) := (replies[..|replies| - 1], replies[|replies| - 1]);
    && GoesOn(rules, server, init) && last == server(|init|, CursorAt(init, |init|))
    && last.Page? && NextCursor(last).Some? && NextCursor(last).value !in CursorsOf(init)
    && |Distinct(rules, OrdersOf(replies))| < 2
  }

  /** How the walk ends after one more reply: an error if that is bad, ready if two orders
      were found or no cursor is left, and an error if its cursor was seen before. */
  function EndStatus(rules: TextRules, replies: seq<Reply>, last: Reply): Status {
    EndFor(rules, OrdersOf(replies) + Gained(last), CursorsOf(replies), last)
  }

  function EndFor(rules: TextRules, fetched: seq<Order>, visited: set<string>, last: Reply): Status {
    if last.BadReply? then Failed
    else if |Distinct(rules, fetched)| >= 2 || NextCursor(last).None? then Ready
    else if NextCursor(last).value in visited then Failed
    else Loading
  }

  lemma OrdersOfMore(replies: seq<Reply>, reply: Reply)
    ensures OrdersOf(replies + [reply]) == OrdersOf(replies) + Gained(reply)
  {
    assert (replies + [reply])[..|replies|] == replies;
  }

  lemma WalkGoesOn(rules: TextRules, server: Server, replies: seq<Reply>, reply: Reply)
    requires GoesOn(rules, server, replies) && reply == server(|replies|, CursorAt(replies, |replies|))
    requires EndStatus(rules, replies, reply) == Loading
    ensures GoesOn(rules, server, replies + [reply])
    ensures OrdersOf(replies + [reply]) == OrdersOf(replies) + Gained(reply)
    ensures CursorsOf(replies + [reply]) == CursorsOf(replies) + {NextCursor(reply).value}
    ensures CursorAt(replies + [reply], |replies| + 1) == NextCursor(reply)
  {
    assert (replies + [reply])[..|replies|] == replies;
  }

  /** The replies so far walk an honest server's history. */
  ghost predicate OnTrack(history: seq<Order>, replies: seq<Reply>) {
    Walking(history, |replies|, CursorAt(replies, |replies|), CursorsOf(replies), OrdersOf(replies))
  }

  /** Against an honest server the walk stays on the history until it is ready, with the
      selection of all of it. */
  lemma HonestReply(rules: TextRules, server: Server, history: seq<Order>, newer: nat -> seq<Order>,
                    replies: seq<Reply>)
    requires Honest(rules, server, history, newer) && GoesOn(rules, server, replies) && OnTrack(history, replies)
    ensures var reply := server(|replies|, CursorAt(replies, |replies|));
      var all := OrdersOf(replies + [reply]);
      if EndStatus(rules, replies, reply) == Loading then OnTrack(history, replies + [reply])
      else
        && EndStatus(rules, replies, reply) == Ready
        && Distinct(rules, all) == Distinct(rules, history) && (all != [] <==> history != [])
  {
    var k := |replies|;
    var reply := server(k, CursorAt(replies, k));
    HonestTurn(rules, server, history, newer, k, CursorAt(replies, k), CursorsOf(replies), OrdersOf(replies));
    OrdersOfMore(replies, reply);
    if EndStatus(rules, replies, reply) == Loading { WalkGoesOn(rules, server, replies, reply); }
  }

  lemma {:induction false} HonestOnTrack(rules: TextRules, server: Server, history: seq<Order>,
                                         newer: nat -> seq<Order>, replies: seq<Reply>)
    requires Honest(rules, server, history, newer) && GoesOn(rules, server, replies)
    ensures OnTrack(history, replies)
  {
    if replies != [] {
      var init, last := replies[..|replies| - 1], replies[|replies| - 1];
      HonestOnTrack(rules, server, history, newer, init);
      HonestReply(rules, server, history, newer, init);
      SplitLast(replies);
    }
  }

  /** However long the walk, an honest server brings it to the selection of the whole
      history. */
  lemma HonestEnd(rules: TextRules, server: Server, history: seq<Order>, newer: nat -> seq<Order>,
                  replies: seq<Reply>, last: Reply)
    requires Honest(rules, server, history, newer) && GoesOn(rules, server, replies)
    requires last == server(|replies|, CursorAt(replies, |replies|)) && EndStatus(rules, replies, last) != Loading
    ensures EndStatus(rules, replies, last) == Ready
    ensures Distinct(rules, OrdersOf(replies + [last])) == Distinct(rules, history)
    ensures OrdersOf(replies + [last]) != [] <==> history != []
  {
    HonestOnTrack(rules, server, history, newer, replies);
    HonestReply(rules, server, history, newer, replies);
  }

  /** One turn of the loop, up to where it stops or goes on. */
  method Turn(rules: TextRules, h: History, visited: set<string>, reply: Reply, ghost fetched: seq<Order>)
    returns (shown: History, cursor: Option<string>)
    requires h.orders == Distinct(rules, fetched) && (h.hasHistory <==> fetched != [])
    ensures shown.status == EndFor(rules, fetched + Gained(reply), visited, reply)
    ensures shown.orders == Distinct(rules, fetched + Gained(reply))
    ensures shown.hasHistory <==> fetched + Gained(reply) != []
    ensures reply.Page? ==> cursor == NextCursor(reply)
  {
    if reply.BadReply? {
      assert fetched + Gained(reply) == fetched;
      return h.(status := Failed), None;
    }
    shown, cursor := ShowPage(rules, h, fetched, reply);
    if shown.status == Loading && cursor.value in visited { shown := shown.(status := Failed); }
  }

  /** The walk. The server fixes every reply and the end, and what is shown is one selection
      over the pages fetched; there are no more turns than cursors, and one. */
  method WalkHistory(rules: TextRules, server: Server, ghost ids: set<string>)
    returns (h: History, ghost replies: seq<Reply>, ghost last: Reply)
    requires CursorsFrom(server, ids)
    ensures GoesOn(rules, server, replies) && last == server(|replies|, CursorAt(replies, |replies|))
    ensures h.status == EndStatus(rules, replies, last) != Loading
    ensures h.orders == Distinct(rules, OrdersOf(replies + [last]))
    ensures h.hasHistory <==> OrdersOf(replies + [last]) != []
    ensures |replies| <= |ids|
  {
    var cursor: Option<string> := None;
    var visited: set<string> := {};
    h, replies := History(Loading, [], false), [];
    while true
      invariant |replies| == |visited| <= |ids| && visited <= ids && visited == CursorsOf(replies)
      invariant cursor == CursorAt(replies, |replies|) && GoesOn(rules, server, replies)
      invariant h.orders == Distinct(rules, OrdersOf(replies)) && (h.hasHistory <==> OrdersOf(replies) != [])
      decreases |ids| - |visited|
    {
      var reply := server(|visited|, cursor);
      last := reply;
      OrdersOfMore(replies, reply);
      h, cursor := Turn(rules, h, visited, reply, OrdersOf(replies));
      if h.status != Loading { return; }
      WalkGoesOn(rules, server, replies, reply);
      replies := replies + [reply];
      visited := visited + {cursor.value};
      SubsetSize(visited, ids);
    }
  }

  /** It ends against any server whose cursors come from a finite set, in at most one fetch
      more than there are cursors, and an honest server makes what is shown the selection
      over the whole history. */
  method FetchHistory(rules: TextRules, server: Server, ghost ids: set<string>,
                      ghost history: seq<Order>, ghost newer: nat -> seq<Order>)
    returns (h: History, ghost replies: seq<Reply>, ghost last: Reply)
    requires CursorsFrom(server, ids)
    ensures GoesOn(rules, server, replies) && last == server(|replies|, CursorAt(replies, |replies|))
    ensures h.status == EndStatus(rules, replies, last) != Loading
    ensures h.orders == Distinct(rules, OrdersOf(replies + [last]))
    ensures h.hasHistory <==> OrdersOf(replies + [last]) != []
    ensures |replies| <= |ids|
    ensures Honest(rules, server, history, newer) ==>
              h.status == Ready && h.orders == Distinct(rules, history) && (h.hasHistory <==> history != [])
  {
    h, replies, last := WalkHistory(rules, server, ids);
    if Honest(rules, server, history, newer) { HonestEnd(rules, server, history, newer, replies, last); }
  }
}
