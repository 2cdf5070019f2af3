/** Decoded Bitstamp messages. Fields that may fail to parse are optional. */
module BitstampMessages {
  import opened Options
  import opened PriceLevels

  datatype OrderEntry = OrderEntry(id: nat, price: Option<real>, amount: Option<real>, orderType: int)

  datatype BookData = BookData(bids: seq<WireLevel>, asks: seq<WireLevel>)
  {
    function On(side: Side): seq<WireLevel> { if side.Bid? then bids else asks }
  }

  // What a message of an update channel decodes to; NoPayload when it does not decode.
  datatype Payload = NoPayload | OrderPayload(entry: OrderEntry) | BookPayload(data: BookData)

  datatype Message =
    | L2Snapshot(snapshot: Option<BookData>)
    | L2Update(payload: Payload, us: Option<nat>)
    | Trade
    | Event(confirmsSubscription: bool)
    | Unknown
}

/** What each Bitstamp book operation does, as functions on the book's value. */
module BitstampSpec {
  import opened Options
  import opened PriceLevels
  import opened MapSums
  import opened LobFilters
  import opened BitstampMessages

  datatype OrderInfo = OrderInfo(price: real, size: real, side: Side)

  type Orders = map<nat, OrderInfo>

  datatype Book = Book(orders: Orders, bids: Levels, asks: Levels)
  {
    function On(side: Side): Levels { if side.Bid? then bids else asks }

    function With(side: Side, levels: Levels): Book {
      if side.Bid? then this.(bids := levels) else this.(asks := levels)
    }
  }

  const EMPTY_BOOK := Book(map[], map[], map[])

  function SideOf(e: OrderEntry): Side { if e.orderType == 0 then Bid else Ask }

  // ----- single orders -----

  function AtLevel(orders: Orders, side: Side, price: real): map<nat, real> {
    map id | id in orders && orders[id].side == side && orders[id].price == price :: orders[id].size
  }

  ghost function Rebuilt(b: Book, side: Side, price: real): Book {
    b.With(side, SetLevel(b.On(side), price, Total(AtLevel(b.orders, side, price))))
  }

  ghost function OrderApplied(b: Book, e: OrderEntry): Book {
    if e.price.None? || e.amount.None? then b
    else
      var info := OrderInfo(e.price.value, e.amount.value, SideOf(e));
      if e.id in b.orders then
        var was := b.orders[e.id];
        if info.size == 0.0 then
          Rebuilt(b.(orders := b.orders - {e.id}), was.side, was.price)
        else
          Rebuilt(Rebuilt(b.(orders := b.orders[e.id := info]), was.side, was.price), info.side, info.price)
      else if info.size > 0.0 then
        Rebuilt(b.(orders := b.orders[e.id := info]), info.side, info.price)
      else b
  }

  predicate OrderKept(b: Book, e: OrderEntry, f: LobFilter) {
    && e.price.Some?
    && e.amount.Some?
    && f.ShouldInclude(Best(Bid, b.bids), Best(Ask, b.asks), e.price.value, e.amount.value,
                       SideOf(e).Bid?, |b.On(SideOf(e))|, e.price.value in b.On(SideOf(e)))
  }

  // ----- level lists -----

  // The price of the first level with a positive amount.
  function FirstPositive(ws: seq<WireLevel>): Option<real> {
    if ws == [] then None
    else if ws[0].Some? && ws[0].value.amount > 0.0 then Some(ws[0].value.price)
    else FirstPositive(ws[1..])
  }

  predicate KeepInSnapshot(w: WireLevel, f: LobFilter, side: Side, bb: Option<real>, ba: Option<real>, count: nat) {
    && w.Some?
    && w.value.amount > 0.0
    && f.ShouldInclude(bb, ba, w.value.price, w.value.amount, side.Bid?, count, false)
  }

  function KeptInSnapshot(ws: seq<WireLevel>, f: LobFilter, side: Side,
                          bb: Option<real>, ba: Option<real>, count: nat): seq<WireLevel>
    decreases |ws|
  {
    if ws == [] then []
    else if KeepInSnapshot(ws[0], f, side, bb, ba, count) then
      [ws[0]] + KeptInSnapshot(ws[1..], f, side, bb, ba, count + 1)
    else KeptInSnapshot(ws[1..], f, side, bb, ba, count)
  }

  predicate KeepInDiff(w: WireLevel, f: LobFilter, side: Side, bb: Option<real>, ba: Option<real>,
                       m: Levels, count: nat) {
    && w.Some?
    && f.ShouldInclude(bb, ba, w.value.price, w.value.amount, side.Bid?, count, w.value.price in m)
  }

  // `m` is the side before the batch; only prices it does not hold move the counter.
  function KeptInDiff(ws: seq<WireLevel>, f: LobFilter, side: Side, bb: Option<real>, ba: Option<real>,
                      m: Levels, count: nat): seq<WireLevel>
    decreases |ws|
  {
    if ws == [] then []
    else if KeepInDiff(ws[0], f, side, bb, ba, m, count) then
      [ws[0]] + KeptInDiff(ws[1..], f, side, bb, ba, m,
                           if ws[0].value.price in m then count else count + 1)
    else KeptInDiff(ws[1..], f, side, bb, ba, m, count)
  }

  // One loop iteration of each filter.
  lemma {:induction false} KeptInSnapshotStep(ws: seq<WireLevel>, i: nat, f: LobFilter, side: Side,
                                              bb: Option<real>, ba: Option<real>, count: nat)
    requires i < |ws|
    ensures KeptInSnapshot(ws[i..], f, side, bb, ba, count)
         == if KeepInSnapshot(ws[i], f, side, bb, ba, count)
            then [ws[i]] + KeptInSnapshot(ws[i + 1..], f, side, bb, ba, count + 1)
            else KeptInSnapshot(ws[i + 1..], f, side, bb, ba, count)
  {
    assert ws[i..][1..] == ws[i + 1..];
  }

  lemma {:induction false} KeptInDiffStep(ws: seq<WireLevel>, i: nat, f: LobFilter, side: Side,
                                          bb: Option<real>, ba: Option<real>, m: Levels, count: nat)
    requires i < |ws|
    ensures KeptInDiff(ws[i..], f, side, bb, ba, m, count)
         == if KeepInDiff(ws[i], f, side, bb, ba, m, count)
            then [ws[i]] + KeptInDiff(ws[i + 1..], f, side, bb, ba, m,
                                      if ws[i].value.price in m then count else count + 1)
            else KeptInDiff(ws[i + 1..], f, side, bb, ba, m, count)
  {
    assert ws[i..][1..] == ws[i + 1..];
  }

  function SnapshotFiltered(b: Book, data: BookData, f: LobFilter): BookData {
    var bb := Or(FirstPositive(data.bids), Best(Bid, b.bids));
    var ba := Or(FirstPositive(data.asks), Best(Ask, b.asks));
    BookData(KeptInSnapshot(data.bids, f, Bid, bb, ba, 0), KeptInSnapshot(data.asks, f, Ask, bb, ba, 0))
  }

  function DiffFiltered(b: Book, data: BookData, f: LobFilter): BookData {
    var bb, ba := Best(Bid, b.bids), Best(Ask, b.asks);
    BookData(KeptInDiff(data.bids, f, Bid, bb, ba, b.bids, |b.bids|),
             KeptInDiff(data.asks, f, Ask, bb, ba, b.asks, |b.asks|))
  }

  function SnapshotApplied(data: BookData, depth: nat): Book {
    Book(map[], FromSnapshot(Parsed(Take(data.bids, depth))), FromSnapshot(Parsed(Take(data.asks, depth))))
  }

  function DiffApplied(b: Book, data: BookData): Book {
    b.(bids := Upsert(b.bids, Parsed(data.bids)), asks := Upsert(b.asks, Parsed(data.asks)))
  }

  // ----- messages -----

  ghost function Processed(b: Book, msg: Message, filter: Option<LobFilter>, depth: nat): Book {
    match msg
    case L2Snapshot(Some(data)) =>
      SnapshotApplied(if filter.Some? then SnapshotFiltered(b, data, filter.value) else data, depth)
    case L2Update(OrderPayload(e), _) =>
      if filter.None? || OrderKept(b, e, filter.value) then OrderApplied(b, e) else b
    case L2Update(BookPayload(data), _) =>
      DiffApplied(b, if filter.Some? then DiffFiltered(b, data, filter.value) else data)
    case _ => b
  }

  ghost function ProcessedAll(b: Book, msgs: seq<Message>, filter: Option<LobFilter>, depth: nat): Book {
    if msgs == [] then b
    else Processed(ProcessedAll(b, msgs[..|msgs| - 1], filter, depth), msgs[|msgs| - 1], filter, depth)
  }

  lemma {:induction false} ProcessedAllAppend(b: Book, xs: seq<Message>, ys: seq<Message>,
                                              filter: Option<LobFilter>, depth: nat)
    ensures ProcessedAll(b, xs + ys, filter, depth)
         == ProcessedAll(ProcessedAll(b, xs, filter, depth), ys, filter, depth)
  {
    if ys == [] {
      assert xs + ys == xs;
    } else {
      assert (xs + ys)[..|xs + ys| - 1] == xs + ys[..|ys| - 1];
      ProcessedAllAppend(b, xs, ys[..|ys| - 1], filter, depth);
    }
  }
}

/** The in-memory Bitstamp book. */
module BitstampBook {
  import opened Options
  import opened PriceLevels
  import opened MapSums
  import opened LobFilters
  import opened BitstampMessages
  import opened BitstampSpec

  class OrderBook {
    var orders: Orders
    var bids: Levels
    var asks: Levels
    const snapshotDepth: nat

    constructor (snapshotDepth: nat)
      ensures State() == EMPTY_BOOK
      ensures this.snapshotDepth == snapshotDepth
    {
      orders, bids, asks := map[], map[], map[];
      this.snapshotDepth := snapshotDepth;
    }

    ghost function State(): Book
      reads this
    {
      Book(orders, bids, asks)
    }

    function BestBid(): (best: Option<real>)
      reads this
      ensures best.None? <==> bids == map[]
      ensures best.Some? ==> best.value in bids && forall p :: p in bids ==> p <= best.value
    {
      Best(Bid, bids)
    }

    function BestAsk(): (best: Option<real>)
      reads this
      ensures best.None? <==> asks == map[]
      ensures best.Some? ==> best.value in asks && forall p :: p in asks ==> p >= best.value
    {
      Best(Ask, asks)
    }

    method TotalBidSize() returns (total: real)
      ensures total == Total(bids)
    {
      total := SumValues(bids);
    }

    method TotalAskSize() returns (total: real)
      ensures total == Total(asks)
    {
      total := SumValues(asks);
    }

    method RebuildPriceLevel(side: Side, price: real)
      modifies this`bids, this`asks
      ensures State() == Rebuilt(old(State()), side, price)
    {
      var total := SumValues(AtLevel(orders, side, price));
      if total == 0.0 {
        if side.Bid? { bids := bids - {price}; } else { asks := asks - {price}; }
      } else {
        if side.Bid? { bids := bids[price := total]; } else { asks := asks[price := total]; }
      }
    }

    method ApplyOrder(entry: OrderEntry)
      modifies this
      ensures State() == OrderApplied(old(State()), entry)
    {
      if entry.price.None? || entry.amount.None? {
        return;
      }
      var price, amount := entry.price.value, entry.amount.value;
      var side := if entry.orderType == 0 then Bid else Ask;
      if entry.id in orders {
        var oldPrice, oldSide := orders[entry.id].price, orders[entry.id].side;
        if amount == 0.0 {
          orders := orders - {entry.id};
          RebuildPriceLevel(oldSide, oldPrice);
        } else if oldPrice != price || oldSide != side {
          orders := orders[entry.id := OrderInfo(price, amount, side)];
          RebuildPriceLevel(oldSide, oldPrice);
          RebuildPriceLevel(side, price);
        } else {
          orders := orders[entry.id := OrderInfo(price, amount, side)];
          RebuildPriceLevel(side, price);
        }
      } else if amount > 0.0 {
        orders := orders[entry.id := OrderInfo(price, amount, side)];
        RebuildPriceLevel(side, price);
      }
    }

    method FilterSnapshot(data: BookData, f: LobFilter) returns (kept: BookData)
      ensures kept == SnapshotFiltered(State(), data, f)
    {
      var bestBid := Or(FirstPositive(data.bids), BestBid());
      var bestAsk := Or(FirstPositive(data.asks), BestAsk());

      var keptBids := FilterSnapshotSide(data.bids, f, Bid, bestBid, bestAsk);
      var keptAsks := FilterSnapshotSide(data.asks, f, Ask, bestBid, bestAsk);
      kept := BookData(keptBids, keptAsks);
    }

    // The loop that the source writes out once per side.
    static method FilterSnapshotSide(ws: seq<WireLevel>, f: LobFilter, side: Side, bestBid: Option<real>,
                                     bestAsk: Option<real>) returns (kept: seq<WireLevel>)
      ensures kept == KeptInSnapshot(ws, f, side, bestBid, bestAsk, 0)
    {
      kept := [];
      var count: nat := 0;
      for i := 0 to |ws|
        invariant kept + KeptInSnapshot(ws[i..], f, side, bestBid, bestAsk, count)
               == KeptInSnapshot(ws, f, side, bestBid, bestAsk, 0)
      {
        KeptInSnapshotStep(ws, i, f, side, bestBid, bestAsk, count);
        Associative(kept, [ws[i]], KeptInSnapshot(ws[i + 1..], f, side, bestBid, bestAsk, count + 1));
        if ws[i].Some? && ws[i].value.amount > 0.0
           && f.ShouldInclude(bestBid, bestAsk, ws[i].value.price, ws[i].value.amount, side.Bid?, count, false) {
          kept, count := kept + [ws[i]], count + 1;
        }
      }
    }

    method FilterDiff(data: BookData, f: LobFilter) returns (kept: BookData)
      ensures kept == DiffFiltered(State(), data, f)
    {
      var bestBid, bestAsk := BestBid(), BestAsk();
      var keptBids := FilterDiffSide(data.bids, f, Bid, bestBid, bestAsk, bids);
      var keptAsks := FilterDiffSide(data.asks, f, Ask, bestBid, bestAsk, asks);
      kept := BookData(keptBids, keptAsks);
    }

    // The loop that the source writes out once per side.
    static method FilterDiffSide(ws: seq<WireLevel>, f: LobFilter, side: Side, bestBid: Option<real>,
                                 bestAsk: Option<real>, levels: Levels) returns (kept: seq<WireLevel>)
      ensures kept == KeptInDiff(ws, f, side, bestBid, bestAsk, levels, |levels|)
    {
      kept := [];
      var count: nat := |levels|;
      for i := 0 to |ws|
        invariant kept + KeptInDiff(ws[i..], f, side, bestBid, bestAsk, levels, count)
               == KeptInDiff(ws, f, side, bestBid, bestAsk, levels, |levels|)
      {
        KeptInDiffStep(ws, i, f, side, bestBid, bestAsk, levels, count);
        Associative(kept, [ws[i]], KeptInDiff(ws[i + 1..], f, side, bestBid, bestAsk, levels,
                                              if ws[i].Some? && ws[i].value.price in levels then count else count + 1));
        if ws[i].Some? {
          var price, amount := ws[i].value.price, ws[i].value.amount;
          var priceExists := price in levels;
          if f.ShouldInclude(bestBid, bestAsk, price, amount, side.Bid?, count, priceExists) {
            kept := kept + [ws[i]];
            if !priceExists { count := count + 1; }
          }
        }
      }
    }

    method FilterOrderEntry(entry: OrderEntry, f: LobFilter) returns (kept: Option<OrderEntry>)
      ensures kept == if OrderKept(State(), entry, f) then Some(entry) else None
    {
      if entry.price.None? || entry.amount.None? {
        return None;
      }
      var sideIsBid := entry.orderType == 0;
      var priceExists := if sideIsBid then entry.price.value in bids else entry.price.value in asks;
      var count := if sideIsBid then |bids| else |asks|;
      if f.ShouldInclude(BestBid(), BestAsk(), entry.price.value, entry.amount.value, sideIsBid, count, priceExists) {
        kept := Some(entry);
      } else {
        kept := None;
      }
    }

    method ApplySnapshot(data: BookData)
      modifies this
      ensures State() == SnapshotApplied(data, snapshotDepth)
    {
      orders, bids, asks := map[], map[], map[];
      var firstBids := Take(data.bids, snapshotDepth);
      for i := 0 to |firstBids|
        invariant orders == map[] && asks == map[]
        invariant Upsert(bids, Positive(Parsed(firstBids[i..]))) == FromSnapshot(Parsed(firstBids))
      {
        PositiveParsedStep(firstBids, i, bids);
        if firstBids[i].Some? && firstBids[i].value.amount > 0.0 {
          bids := bids[firstBids[i].value.price := firstBids[i].value.amount];
        }
      }
      var firstAsks := Take(data.asks, snapshotDepth);
      for i := 0 to |firstAsks|
        invariant orders == map[] && bids == FromSnapshot(Parsed(firstBids))
        invariant Upsert(asks, Positive(Parsed(firstAsks[i..]))) == FromSnapshot(Parsed(firstAsks))
      {
        PositiveParsedStep(firstAsks, i, asks);
        if firstAsks[i].Some? && firstAsks[i].value.amount > 0.0 {
          asks := asks[firstAsks[i].value.price := firstAsks[i].value.amount];
        }
      }
    }

    method ApplyDiff(data: BookData)
      modifies this`bids, this`asks
      ensures State() == DiffApplied(old(State()), data)
    {
      for i := 0 to |data.bids|
        invariant asks == old(asks)
        invariant Upsert(bids, Parsed(data.bids[i..])) == Upsert(old(bids), Parsed(data.bids))
      {
        ParsedStep(data.bids, i, bids);
        if data.bids[i].Some? {
          var price, amount := data.bids[i].value.price, data.bids[i].value.amount;
          if amount == 0.0 { bids := bids - {price}; } else { bids := bids[price := amount]; }
        }
      }
      for i := 0 to |data.asks|
        invariant bids == Upsert(old(bids), Parsed(data.bids))
        invariant Upsert(asks, Parsed(data.asks[i..])) == Upsert(old(asks), Parsed(data.asks))
      {
        ParsedStep(data.asks, i, asks);
        if data.asks[i].Some? {
          var price, amount := data.asks[i].value.price, data.asks[i].value.amount;
          if amount == 0.0 { asks := asks - {price}; } else { asks := asks[price := amount]; }
        }
      }
    }

    method ProcessMsg(msg: Message, filter: Option<LobFilter>)
      modifies this
      ensures State() == Processed(old(State()), msg, filter, snapshotDepth)
    {
      match msg {
        case L2Snapshot(Some(data)) =>
          var kept := data;
          if filter.Some? { kept := FilterSnapshot(data, filter.value); }
          ApplySnapshot(kept);
        case L2Update(OrderPayload(entry), _) =>
          if filter.Some? {
            var kept := FilterOrderEntry(entry, filter.value);
            if kept.Some? { ApplyOrder(kept.value); }
          } else {
            ApplyOrder(entry);
          }
        case L2Update(BookPayload(data), _) =>
          var kept := data;
          if filter.Some? { kept := FilterDiff(data, filter.value); }
          ApplyDiff(kept);
        case _ =>
      }
    }
  }
}
