/** Runs of single-order events: the price levels always agree with the tracked orders. */
module BitstampOrders {
  import opened Options
  import opened PriceLevels
  import opened MapSums
  import opened LobFilters
  import opened BitstampMessages
  import opened BitstampSpec

  // A message that carries no list of levels, so only orders can change the book.
  predicate NoLevelList(msg: Message) {
    !(msg.L2Snapshot? && msg.snapshot.Some?) && !(msg.L2Update? && msg.payload.BookPayload?)
  }

  predicate IsOrder(msg: Message) {
    msg.L2Update? && msg.payload.OrderPayload?
  }

  ghost predicate OrderRun(msgs: seq<Message>) {
    forall m :: m in msgs ==> NoLevelList(m)
  }

  // ----- levels against orders -----

  ghost predicate LevelAgrees(b: Book, side: Side, price: real) {
    Lookup(b.On(side), price) == NonZero(Total(AtLevel(b.orders, side, price)))
  }

  ghost predicate AgreesOutside(b: Book, places: set<(Side, real)>) {
    forall side, price :: (side, price) !in places ==> LevelAgrees(b, side, price)
  }

  // A price is a level exactly when the orders there have a non-zero sum, which it stores.
  ghost predicate Agreement(b: Book) {
    forall side, price :: LevelAgrees(b, side, price)
  }

  function Place(orders: Orders, id: nat): set<(Side, real)> {
    if id in orders then {(orders[id].side, orders[id].price)} else {}
  }

  // Changing one order disturbs no level but the one it leaves and the one it joins.
  lemma {:induction false} OtherLevelsAgree(b: Book, orders: Orders, id: nat)
    requires Agreement(b)
    requires orders - {id} == b.orders - {id}
    ensures AgreesOutside(b.(orders := orders), Place(b.orders, id) + Place(orders, id))
  {
    forall side, price | (side, price) !in Place(b.orders, id) + Place(orders, id)
      ensures LevelAgrees(b.(orders := orders), side, price)
    {
      assert LevelAgrees(b, side, price);
      forall k ensures Lookup(AtLevel(orders, side, price), k) == Lookup(AtLevel(b.orders, side, price), k) {
        assert k != id ==> Lookup(orders - {id}, k) == Lookup(b.orders - {id}, k);
      }
      SameLookups(AtLevel(orders, side, price), AtLevel(b.orders, side, price));
    }
  }

  lemma {:induction false} RebuiltAgrees(b: Book, places: set<(Side, real)>, side: Side, price: real)
    requires AgreesOutside(b, places)
    ensures AgreesOutside(Rebuilt(b, side, price), places - {(side, price)})
  {
    forall s, p | (s, p) !in places - {(side, price)} ensures LevelAgrees(Rebuilt(b, side, price), s, p) {
      assert (s, p) !in places ==> LevelAgrees(b, s, p);
    }
  }

  // Rebuilding the one or two levels an event touches restores agreement everywhere.
  lemma {:induction false} OrderKeepsAgreement(b: Book, e: OrderEntry)
    requires Agreement(b)
    ensures Agreement(OrderApplied(b, e))
  {
    if e.price.Some? && e.amount.Some? {
      var info := OrderInfo(e.price.value, e.amount.value, SideOf(e));
      var added, removed := b.orders[e.id := info], b.orders - {e.id};
      assert added - {e.id} == b.orders - {e.id};
      OtherLevelsAgree(b, added, e.id);
      OtherLevelsAgree(b, removed, e.id);
      var places := Place(b.orders, e.id) + Place(added, e.id);
      if e.id in b.orders {
        var was := b.orders[e.id];
        RebuiltAgrees(b.(orders := removed), {(was.side, was.price)}, was.side, was.price);
        RebuiltAgrees(b.(orders := added), places, was.side, was.price);
        RebuiltAgrees(Rebuilt(b.(orders := added), was.side, was.price), places - {(was.side, was.price)},
                      info.side, info.price);
        assert places - {(was.side, was.price)} - {(info.side, info.price)} == {};
      } else {
        RebuiltAgrees(b.(orders := added), places, info.side, info.price);
        assert places - {(info.side, info.price)} == {};
      }
      assert AgreesOutside(OrderApplied(b, e), {}) || OrderApplied(b, e) == b;
    }
  }

  lemma {:induction false} EmptyAgrees()
    ensures Agreement(EMPTY_BOOK)
  {
    forall side, price ensures LevelAgrees(EMPTY_BOOK, side, price) {
      assert AtLevel(map[], side, price) == map[];
    }
  }

  // Every run of order events from an empty book, under any filter, keeps levels and orders in step.
  lemma {:induction false} OrderRunAgrees(msgs: seq<Message>, filter: Option<LobFilter>, depth: nat)
    requires OrderRun(msgs)
    ensures Agreement(ProcessedAll(EMPTY_BOOK, msgs, filter, depth))
  {
    if msgs == [] {
      EmptyAgrees();
    } else {
      var front, last := msgs[..|msgs| - 1], msgs[|msgs| - 1];
      OrderRunAgrees(front, filter, depth);
      assert last in msgs;
      if IsOrder(last) {
        OrderKeepsAgreement(ProcessedAll(EMPTY_BOOK, front, filter, depth), last.payload.entry);
      }
    }
  }

  // ----- which orders are live -----

  // The entries that pass the filter, in order.
  ghost function Accepted(msgs: seq<Message>, filter: Option<LobFilter>, depth: nat): seq<OrderEntry> {
    if msgs == [] then []
    else
      var front, last := msgs[..|msgs| - 1], msgs[|msgs| - 1];
      var before := Accepted(front, filter, depth);
      var b := ProcessedAll(EMPTY_BOOK, front, filter, depth);
      if IsOrder(last) && (filter.None? || OrderKept(b, last.payload.entry, filter.value))
      then before + [last.payload.entry] else before
  }

  // The life of one order id on its own: zero ends it, a negative amount cannot start it.
  function LiveOrder(es: seq<OrderEntry>, id: nat): Option<OrderInfo> {
    if es == [] then None
    else
      var was, e := LiveOrder(es[..|es| - 1], id), es[|es| - 1];
      if e.id != id || e.price.None? || e.amount.None? then was
      else if e.amount.value == 0.0 || (e.amount.value < 0.0 && was.None?) then None
      else Some(OrderInfo(e.price.value, e.amount.value, if e.orderType == 0 then Bid else Ask))
  }

  lemma {:induction false} OrderAppliedAt(b: Book, e: OrderEntry, id: nat, es: seq<OrderEntry>)
    requires Lookup(b.orders, id) == LiveOrder(es, id)
    ensures Lookup(OrderApplied(b, e).orders, id) == LiveOrder(es + [e], id)
  {
    assert (es + [e])[..|es|] == es;
  }

  // The order map holds, per id, what that id's own accepted entries say.
  lemma {:induction false} OrdersAreLive(msgs: seq<Message>, filter: Option<LobFilter>, depth: nat, id: nat)
    requires OrderRun(msgs)
    ensures Lookup(ProcessedAll(EMPTY_BOOK, msgs, filter, depth).orders, id)
         == LiveOrder(Accepted(msgs, filter, depth), id)
  {
    if msgs != [] {
      var front, last := msgs[..|msgs| - 1], msgs[|msgs| - 1];
      OrdersAreLive(front, filter, depth, id);
      assert last in msgs;
      var es := Accepted(front, filter, depth);
      assert es + [] == es;
      if IsOrder(last) {
        OrderAppliedAt(ProcessedAll(EMPTY_BOOK, front, filter, depth), last.payload.entry, id, es);
      }
    }
  }

  // No filter keeps a removal out, and a removed order stays gone until its id is seen again.
  lemma {:induction false} RemovedStaysRemoved(before: seq<Message>, e: OrderEntry, us: Option<nat>,
                                               after: seq<Message>,
                                               filter: Option<LobFilter>, depth: nat)
    requires OrderRun(before) && OrderRun(after)
    requires e.price.Some? && e.amount == Some(0.0)
    requires forall m :: m in after && IsOrder(m) ==> m.payload.entry.id != e.id
    ensures e.id !in ProcessedAll(EMPTY_BOOK, before + [L2Update(OrderPayload(e), us)] + after, filter, depth).orders
  {
    var upTo := before + [L2Update(OrderPayload(e), us)];
    assert upTo[..|before|] == before;
    ProcessedAllAppend(EMPTY_BOOK, upTo, after, filter, depth);
    AbsentStaysAbsent(ProcessedAll(EMPTY_BOOK, upTo, filter, depth), after, e.id, filter, depth);
  }

  lemma {:induction false} AbsentStaysAbsent(b: Book, msgs: seq<Message>, id: nat, filter: Option<LobFilter>,
                                             depth: nat)
    requires OrderRun(msgs) && id !in b.orders
    requires forall m :: m in msgs && IsOrder(m) ==> m.payload.entry.id != id
    ensures id !in ProcessedAll(b, msgs, filter, depth).orders
  {
    if msgs != [] {
      AbsentStaysAbsent(b, msgs[..|msgs| - 1], id, filter, depth);
      assert msgs[|msgs| - 1] in msgs;
    }
  }

  // ----- best price and total size -----

  ghost predicate PositiveOrders(b: Book) {
    forall id :: id in b.orders ==> b.orders[id].size > 0.0
  }

  ghost predicate NonNegativeOrders(msgs: seq<Message>) {
    forall m :: m in msgs && IsOrder(m) && m.payload.entry.amount.Some? ==> m.payload.entry.amount.value >= 0.0
  }

  lemma {:induction false} OrderRunPositive(msgs: seq<Message>, filter: Option<LobFilter>, depth: nat)
    requires OrderRun(msgs) && NonNegativeOrders(msgs)
    ensures PositiveOrders(ProcessedAll(EMPTY_BOOK, msgs, filter, depth))
  {
    if msgs != [] {
      var front, last := msgs[..|msgs| - 1], msgs[|msgs| - 1];
      OrderRunPositive(front, filter, depth);
      assert last in msgs;
      if IsOrder(last) {
        OrderKeepsPositive(ProcessedAll(EMPTY_BOOK, front, filter, depth), last.payload.entry);
      }
    }
  }

  lemma {:induction false} OrderKeepsPositive(b: Book, e: OrderEntry)
    requires PositiveOrders(b) && (e.amount.Some? ==> e.amount.value >= 0.0)
    ensures PositiveOrders(OrderApplied(b, e))
  {
  }

  lemma {:induction false} LevelIffLiveOrder(b: Book, side: Side, price: real)
    requires Agreement(b) && PositiveOrders(b)
    ensures price in b.On(side)
       <==> exists id :: id in b.orders && b.orders[id].side == side && b.orders[id].price == price
  {
    assert LevelAgrees(b, side, price);
    var there := AtLevel(b.orders, side, price);
    TotalOfPositive(there);
    if there != map[] {
      var id :| id in there;
      assert id in b.orders;
    }
    if id :| id in b.orders && b.orders[id].side == side && b.orders[id].price == price {
      assert id in there;
    }
  }

  // The best price of a side is the best price among its live orders.
  lemma {:induction false} BestIsBestLiveOrder(msgs: seq<Message>, filter: Option<LobFilter>, depth: nat, side: Side)
    requires OrderRun(msgs) && NonNegativeOrders(msgs)
    ensures var b := ProcessedAll(EMPTY_BOOK, msgs, filter, depth);
      match Best(side, b.On(side))
      case None => forall id :: id in b.orders ==> b.orders[id].side != side
      case Some(p) =>
        && (exists id :: id in b.orders && b.orders[id].side == side && b.orders[id].price == p)
        && (forall id :: id in b.orders && b.orders[id].side == side ==> !Better(side, b.orders[id].price, p))
  {
    var b := ProcessedAll(EMPTY_BOOK, msgs, filter, depth);
    OrderRunAgrees(msgs, filter, depth);
    OrderRunPositive(msgs, filter, depth);
    forall id | id in b.orders && b.orders[id].side == side ensures b.orders[id].price in b.On(side) {
      LevelIffLiveOrder(b, side, b.orders[id].price);
    }
    var best := Best(side, b.On(side));
    if best.Some? {
      LevelIffLiveOrder(b, side, best.value);
    }
  }

  ghost function SizesOn(orders: Orders, side: Side): map<nat, real> {
    map id | id in orders && orders[id].side == side :: orders[id].size
  }

  ghost function PricesOn(orders: Orders, side: Side): map<nat, real> {
    map id | id in orders && orders[id].side == side :: orders[id].price
  }

  // The total over the levels of a side is the total over its live orders.
  lemma {:induction false} TotalIsLiveTotal(msgs: seq<Message>, filter: Option<LobFilter>, depth: nat, side: Side)
    requires OrderRun(msgs)
    ensures var b := ProcessedAll(EMPTY_BOOK, msgs, filter, depth);
      Total(b.On(side)) == Total(SizesOn(b.orders, side))
  {
    var b := ProcessedAll(EMPTY_BOOK, msgs, filter, depth);
    OrderRunAgrees(msgs, filter, depth);
    var sizes, prices := SizesOn(b.orders, side), PricesOn(b.orders, side);
    forall p ensures Lookup(b.On(side), p) == NonZero(Total(Group(sizes, prices, p))) {
      assert LevelAgrees(b, side, p);
      assert Group(sizes, prices, p) == AtLevel(b.orders, side, p);
    }
    GroupedTotal(sizes, prices, b.On(side));
  }

  // ----- size bound -----

  ghost predicate AtMost(b: Book, max: nat) {
    |b.bids| <= max && |b.asks| <= max
  }

  lemma {:induction false} RebuiltSize(b: Book, side: Side, price: real, max: nat)
    requires AtMost(b, max)
    requires price in b.On(side) || |b.On(side)| < max
    ensures AtMost(Rebuilt(b, side, price), max)
  {
    var total := Total(AtLevel(b.orders, side, price));
    assert (b.On(side) - {price}).Keys == b.On(side).Keys - {price};
    assert b.On(side)[price := total].Keys == b.On(side).Keys + {price};
  }

  lemma {:induction false} KeptPriceFits(b: Book, e: OrderEntry, max: nat)
    requires OrderKept(b, e, MaxLevel(max)) && e.amount.value > 0.0
    ensures e.price.value in b.On(SideOf(e)) || |b.On(SideOf(e))| < max
  {
  }

  // The price an order leaves already is a level, so only the price it joins can be new.
  lemma {:induction false} AppliedSize(b: Book, e: OrderEntry, max: nat)
    requires AtMost(b, max) && e.price.Some? && e.amount.Some? && e.amount.value >= 0.0
    requires e.amount.value > 0.0 ==> e.price.value in b.On(SideOf(e)) || |b.On(SideOf(e))| < max
    requires e.id in b.orders ==> b.orders[e.id].price in b.On(b.orders[e.id].side)
    ensures AtMost(OrderApplied(b, e), max)
  {
    var info := OrderInfo(e.price.value, e.amount.value, SideOf(e));
    if e.id in b.orders {
      var was := b.orders[e.id];
      if info.size == 0.0 {
        RebuiltSize(b.(orders := b.orders - {e.id}), was.side, was.price, max);
      } else {
        MovedOrderSize(b.(orders := b.orders[e.id := info]), was, info, max);
      }
    } else if info.size > 0.0 {
      RebuiltSize(b.(orders := b.orders[e.id := info]), info.side, info.price, max);
    }
  }

  lemma {:induction false} KeptOrderSize(b: Book, e: OrderEntry, max: nat)
    requires Agreement(b) && PositiveOrders(b) && AtMost(b, max)
    requires OrderKept(b, e, MaxLevel(max)) && e.amount.value >= 0.0
    ensures AtMost(OrderApplied(b, e), max)
  {
    if e.amount.value > 0.0 { KeptPriceFits(b, e, max); }
    if e.id in b.orders { LevelIffLiveOrder(b, b.orders[e.id].side, b.orders[e.id].price); }
    AppliedSize(b, e, max);
  }

  lemma {:induction false} MovedOrderSize(b: Book, was: OrderInfo, info: OrderInfo, max: nat)
    requires AtMost(b, max) && was.price in b.On(was.side)
    requires info.price in b.On(info.side) || |b.On(info.side)| < max
    ensures AtMost(Rebuilt(Rebuilt(b, was.side, was.price), info.side, info.price), max)
  {
    var left := Rebuilt(b, was.side, was.price);
    RebuiltSize(b, was.side, was.price, max);
    JoinSize(b, left, was, info, max);
    RebuiltSize(left, info.side, info.price, max);
  }

  lemma {:induction false} JoinSize(b: Book, left: Book, was: OrderInfo, info: OrderInfo, max: nat)
    requires was.price in b.On(was.side)
    requires left == Rebuilt(b, was.side, was.price)
    requires |b.On(info.side)| <= max
    requires info.price in b.On(info.side) || |b.On(info.side)| < max
    ensures info.price in left.On(info.side) || |left.On(info.side)| < max
  {
    if info.side == was.side {
      var total := Total(AtLevel(b.orders, was.side, was.price));
      assert (b.On(was.side) - {was.price}).Keys == b.On(was.side).Keys - {was.price};
      assert b.On(was.side)[was.price := total].Keys == b.On(was.side).Keys;
    }
  }

  // Under MaxLevel(max), no order run with non-negative amounts exceeds max levels on a side.
  lemma {:induction false} OrderRunSize(msgs: seq<Message>, max: nat, depth: nat)
    requires OrderRun(msgs) && NonNegativeOrders(msgs)
    ensures AtMost(ProcessedAll(EMPTY_BOOK, msgs, Some(MaxLevel(max)), depth), max)
  {
    if msgs != [] {
      var front, last := msgs[..|msgs| - 1], msgs[|msgs| - 1];
      var b := ProcessedAll(EMPTY_BOOK, front, Some(MaxLevel(max)), depth);
      OrderRunSize(front, max, depth);
      OrderRunAgrees(front, Some(MaxLevel(max)), depth);
      OrderRunPositive(front, Some(MaxLevel(max)), depth);
      if IsOrder(last) && OrderKept(b, last.payload.entry, MaxLevel(max)) {
        assert last in msgs;
        KeptOrderSize(b, last.payload.entry, max);
      }
    }
  }

  // ----- the filtered orders against the unfiltered ones -----

  function InfoOf(e: OrderEntry): OrderInfo
    requires e.price.Some? && e.amount.Some?
  {
    OrderInfo(e.price.value, e.amount.value, SideOf(e))
  }

  // A refused entry does no harm when its id is not live, or it changes nothing.
  ghost predicate RefusalIsHarmless(b: Book, e: OrderEntry, f: LobFilter) {
    !OrderKept(b, e, f) && e.price.Some? && e.amount.Some? && e.id in b.orders ==> b.orders[e.id] == InfoOf(e)
  }

  ghost predicate HarmlessRefusals(msgs: seq<Message>, f: LobFilter, depth: nat) {
    forall i :: 0 <= i < |msgs| && IsOrder(msgs[i]) ==>
      RefusalIsHarmless(ProcessedAll(EMPTY_BOOK, msgs[..i], Some(f), depth), msgs[i].payload.entry, f)
  }

  ghost predicate OrdersWithin(msgs: seq<Message>, f: LobFilter, depth: nat) {
    Submap(ProcessedAll(EMPTY_BOOK, msgs, Some(f), depth).orders, ProcessedAll(EMPTY_BOOK, msgs, None, depth).orders)
  }

  lemma {:induction false} OrdersAfter(b: Book, e: OrderEntry)
    requires e.price.Some? && e.amount.Some?
    ensures OrderApplied(b, e).orders
         == if e.amount.value == 0.0 then b.orders - {e.id}
            else if e.id in b.orders || e.amount.value > 0.0 then b.orders[e.id := InfoOf(e)]
            else b.orders
  {
    if e.id !in b.orders { assert b.orders - {e.id} == b.orders; }
  }

  lemma {:induction false} OrderStepWithin(b: Book, full: Book, e: OrderEntry, f: LobFilter)
    requires Submap(b.orders, full.orders)
    ensures Submap((if OrderKept(b, e, f) then OrderApplied(b, e) else b).orders, OrderApplied(full, e).orders)
       <==> RefusalIsHarmless(b, e, f)
  {
    if e.price.Some? && e.amount.Some? {
      OrdersAfter(b, e);
      OrdersAfter(full, e);
    }
  }

  lemma {:induction false} OrderRunStepWithin(front: seq<Message>, last: Message, f: LobFilter, depth: nat)
    requires NoLevelList(last) && OrdersWithin(front, f, depth)
    ensures OrdersWithin(front + [last], f, depth)
       <==> (IsOrder(last) ==>
               RefusalIsHarmless(ProcessedAll(EMPTY_BOOK, front, Some(f), depth), last.payload.entry, f))
  {
    assert (front + [last])[..|front|] == front;
    if IsOrder(last) {
      OrderStepWithin(ProcessedAll(EMPTY_BOOK, front, Some(f), depth), ProcessedAll(EMPTY_BOOK, front, None, depth),
                      last.payload.entry, f);
    }
  }

  // At every point of an order run the filtered orders are among the unfiltered ones, exactly as long as
  // no entry is refused that would have changed a live order.
  lemma {:induction false} OrdersWithinExactlyWhen(msgs: seq<Message>, f: LobFilter, depth: nat)
    requires OrderRun(msgs)
    ensures (forall n :: 0 <= n <= |msgs| ==> OrdersWithin(msgs[..n], f, depth)) <==> HarmlessRefusals(msgs, f, depth)
  {
    if HarmlessRefusals(msgs, f, depth) {
      forall n | 0 <= n <= |msgs| ensures OrdersWithin(msgs[..n], f, depth) { HarmlessKeepsWithin(msgs, n, f, depth); }
    }
    if forall n :: 0 <= n <= |msgs| ==> OrdersWithin(msgs[..n], f, depth) {
      forall i | 0 <= i < |msgs| && IsOrder(msgs[i])
        ensures RefusalIsHarmless(ProcessedAll(EMPTY_BOOK, msgs[..i], Some(f), depth), msgs[i].payload.entry, f)
      {
        assert msgs[..i + 1] == msgs[..i] + [msgs[i]];
        assert msgs[i] in msgs;
        OrderRunStepWithin(msgs[..i], msgs[i], f, depth);
      }
    }
  }

  lemma {:induction false} HarmlessKeepsWithin(msgs: seq<Message>, n: nat, f: LobFilter, depth: nat)
    requires OrderRun(msgs) && n <= |msgs| && HarmlessRefusals(msgs, f, depth)
    ensures OrdersWithin(msgs[..n], f, depth)
  {
    if n > 0 {
      HarmlessKeepsWithin(msgs, n - 1, f, depth);
      assert msgs[..n] == msgs[..n - 1] + [msgs[n - 1]];
      assert msgs[n - 1] in msgs;
      OrderRunStepWithin(msgs[..n - 1], msgs[n - 1], f, depth);
    }
  }

  // Then, with non-negative amounts, the filtered book shows no price the unfiltered book lacks.
  lemma {:induction false} HarmlessRunShowsTruePrices(msgs: seq<Message>, f: LobFilter, depth: nat, side: Side)
    requires OrderRun(msgs) && NonNegativeOrders(msgs) && HarmlessRefusals(msgs, f, depth)
    ensures ProcessedAll(EMPTY_BOOK, msgs, Some(f), depth).On(side).Keys
         <= ProcessedAll(EMPTY_BOOK, msgs, None, depth).On(side).Keys
  {
    var b, full := ProcessedAll(EMPTY_BOOK, msgs, Some(f), depth), ProcessedAll(EMPTY_BOOK, msgs, None, depth);
    HarmlessKeepsWithin(msgs, |msgs|, f, depth);
    assert msgs[..|msgs|] == msgs;
    OrderRunAgrees(msgs, Some(f), depth);
    OrderRunAgrees(msgs, None, depth);
    OrderRunPositive(msgs, Some(f), depth);
    OrderRunPositive(msgs, None, depth);
    forall p | p in b.On(side) ensures p in full.On(side) {
      LevelIffLiveOrder(b, side, p);
      LevelIffLiveOrder(full, side, p);
      var id :| id in b.orders && b.orders[id].side == side && b.orders[id].price == p;
      assert id in full.orders && full.orders[id] == b.orders[id];
    }
  }

  lemma {:induction false} OneOrder(us: Option<nat>, filter: Option<LobFilter>, depth: nat, e: OrderEntry)
    requires e.price.Some? && e.amount.Some? && e.amount.value > 0.0
    requires filter.None? || OrderKept(EMPTY_BOOK, e, filter.value)
    ensures var b := ProcessedAll(EMPTY_BOOK, [L2Update(OrderPayload(e), us)], filter, depth);
      b == OrderApplied(EMPTY_BOOK, e) && b.orders == map[e.id := InfoOf(e)] && b.On(SideOf(e)).Keys == {e.price.value}
  {
    var msgs := [L2Update(OrderPayload(e), us)];
    assert msgs[..0] == [];
    OrdersAfter(EMPTY_BOOK, e);
    var b := OrderApplied(EMPTY_BOOK, e);
    EmptyAgrees();
    OrderKeepsAgreement(EMPTY_BOOK, e);
    forall p ensures p in b.On(SideOf(e)) <==> p == e.price.value {
      LevelIffLiveOrder(b, SideOf(e), p);
      assert b.orders[e.id] == InfoOf(e);
    }
  }

  lemma {:induction false} MovedAway(b: Book, e: OrderEntry, from: real)
    requires Agreement(b) && PositiveOrders(b) && b.orders.Keys == {e.id}
    requires e.price.Some? && e.amount.Some? && e.amount.value > 0.0 && e.price.value != from
    ensures from !in OrderApplied(b, e).On(SideOf(e))
  {
    OrderKeepsAgreement(b, e);
    OrdersAfter(b, e);
    LevelIffLiveOrder(OrderApplied(b, e), SideOf(e), from);
  }

  // One input: under MaxLevel(1) an order at 1.0 that moves to 3.0 is refused, and its old level stays.
  lemma {:induction false} RefusedMoveKeepsOldLevel(us: Option<nat>, depth: nat)
    ensures var placed, moved := OrderEntry(7, Some(1.0), Some(1.0), 0), OrderEntry(7, Some(3.0), Some(1.0), 0);
      var msgs := [L2Update(OrderPayload(placed), us), L2Update(OrderPayload(moved), us)];
      && ProcessedAll(EMPTY_BOOK, msgs, Some(MaxLevel(1)), depth).bids.Keys == {1.0}
      && 1.0 !in ProcessedAll(EMPTY_BOOK, msgs, None, depth).bids
  {
    var placed, moved := OrderEntry(7, Some(1.0), Some(1.0), 0), OrderEntry(7, Some(3.0), Some(1.0), 0);
    var msgs := [L2Update(OrderPayload(placed), us), L2Update(OrderPayload(moved), us)];
    assert msgs[..1] == [msgs[0]];
    OneOrder(us, Some(MaxLevel(1)), depth, placed);
    OneOrder(us, None, depth, placed);
    var first := OrderApplied(EMPTY_BOOK, placed);
    EmptyAgrees();
    OrderKeepsAgreement(EMPTY_BOOK, placed);
    assert |first.bids| == |first.bids.Keys| == 1;
    MovedAway(first, moved, 1.0);
  }
}
