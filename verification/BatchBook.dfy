/** What the OKX and Kraken books do with a message. The two differ only in how levels are decoded. */
module BatchSpec {
  import opened Options
  import opened PriceLevels
  import opened LobFilters
  import opened LevelFilters

  datatype Action = Snapshot | Update | Other

  datatype Data = Data(bids: seq<WireLevel>, asks: seq<WireLevel>)
  {
    function On(side: Side): seq<WireLevel> { if side.Bid? then bids else asks }
  }

  // The first data object of a message, and its action where one is given.
  datatype Message = Message(data: Option<Data>, action: Option<Action>)

  datatype Book = Book(bids: Levels, asks: Levels)
  {
    function On(side: Side): Levels { if side.Bid? then bids else asks }

    function With(side: Side, levels: Levels): Book {
      if side.Bid? then this.(bids := levels) else this.(asks := levels)
    }
  }

  const EMPTY_BOOK := Book(map[], map[])

  function ActionOf(msg: Message): Action {
    if msg.action.Some? then msg.action.value else Snapshot
  }

  // The price closest to the market among all parsed levels, zero amounts included.
  function BestPrice(side: Side, ls: seq<Level>): (best: Option<real>)
    ensures best.None? <==> ls == []
    ensures best.Some? ==> exists l :: l in ls && l.price == best.value
    ensures best.Some? ==> forall l :: l in ls ==> !Better(side, l.price, best.value)
  {
    if ls == [] then None
    else
      var rest := BestPrice(side, ls[1..]);
      assert forall l :: l in ls <==> l == ls[0] || l in ls[1..];
      if rest.None? || Better(side, ls[0].price, rest.value) then Some(ls[0].price) else rest
  }

  // Stable sort, best price first.
  function Insert(side: Side, l: Level, ls: seq<Level>): seq<Level> {
    if ls == [] || !Better(side, ls[0].price, l.price) then [l] + ls
    else [ls[0]] + Insert(side, l, ls[1..])
  }

  function SortBy(side: Side, ls: seq<Level>): seq<Level> {
    if ls == [] then [] else Insert(side, ls[0], SortBy(side, ls[1..]))
  }

  function Wire(ls: seq<Level>): seq<WireLevel> {
    seq(|ls|, i requires 0 <= i < |ls| => Some(ls[i]))
  }

  function SnapshotKept(b: Book, ws: seq<WireLevel>, side: Side, f: LobFilter,
                        batchBest: Option<real>): seq<WireLevel> {
    match f
    case MaxLevelPct(_) =>
      var bestBid := if side.Bid? then batchBest else Best(Bid, b.bids);
      var bestAsk := if side.Ask? then batchBest else Best(Ask, b.asks);
      Filtered(ws, (l: Level) => f.ShouldInclude(bestBid, bestAsk, l.price, l.amount, side.Bid?, 0, false))
    case MaxLevel(max) =>
      Wire(Take(SortBy(side, Positive(Parsed(ws))), max))
  }

  // The count and the existing prices are those before the batch, for every level of it.
  function UpdateKept(b: Book, ws: seq<WireLevel>, side: Side, f: LobFilter): seq<WireLevel> {
    var bestBid, bestAsk := Best(Bid, b.bids), Best(Ask, b.asks);
    Filtered(ws, (l: Level) => f.ShouldInclude(bestBid, bestAsk, l.price, l.amount, side.Bid?,
                                               |b.On(side)|, l.price in b.On(side)))
  }

  function Kept(b: Book, action: Action, ws: seq<WireLevel>, side: Side, filter: Option<LobFilter>): seq<WireLevel> {
    if filter.None? then ws
    else if action.Snapshot? then SnapshotKept(b, ws, side, filter.value, BestPrice(side, Parsed(ws)))
    else UpdateKept(b, ws, side, filter.value)
  }

  // A side whose list is empty, before or after filtering, is left alone.
  function SideProcessed(b: Book, action: Action, ws: seq<WireLevel>, side: Side, filter: Option<LobFilter>): Book {
    if ws == [] || Kept(b, action, ws, side, filter) == [] then b
    else
      var ls := Parsed(Kept(b, action, ws, side, filter));
      match action
      case Snapshot => b.With(side, FromSnapshot(ls))
      case Update => b.With(side, Upsert(b.On(side), ls))
      case Other => b
  }

  function Processed(b: Book, msg: Message, filter: Option<LobFilter>): Book {
    if msg.data.None? then b
    else
      var b' := SideProcessed(b, ActionOf(msg), msg.data.value.bids, Bid, filter);
      SideProcessed(b', ActionOf(msg), msg.data.value.asks, Ask, filter)
  }

  function ProcessedAll(msgs: seq<Message>, filter: Option<LobFilter>): Book {
    if msgs == [] then EMPTY_BOOK
    else Processed(ProcessedAll(msgs[..|msgs| - 1], filter), msgs[|msgs| - 1], filter)
  }

  // The levels within pct percent of the best stored price, in order.
  function WithinPct(side: Side, m: Levels, pct: real): seq<Level> {
    match Best(side, m)
    case None => Listing(side, m)
    case Some(best) =>
      UpTo(Listing(side, m), side, MaxLevelPct(pct).Threshold(best, side.Bid?))
  }

  function UpTo(ls: seq<Level>, side: Side, threshold: real): seq<Level> {
    if ls == [] then []
    else if !Better(side, threshold, ls[0].price) then [ls[0]] + UpTo(ls[1..], side, threshold)
    else UpTo(ls[1..], side, threshold)
  }
}

/** The in-memory OKX and Kraken book. */
module BatchBook {
  import opened Options
  import opened PriceLevels
  import opened LobFilters
  import opened BatchSpec

  class OrderBook {
    var bids: Levels
    var asks: Levels

    constructor ()
      ensures State() == EMPTY_BOOK
    {
      bids, asks := map[], map[];
    }

    ghost function State(): Book
      reads this
    {
      Book(bids, asks)
    }

    function BestBid(): (best: Option<real>)
      reads this
      ensures best.None? <==> bids == map[]
      ensures best.Some? ==> best.value in bids && forall p :: p in bids ==> p <= best.value
    {
      Best(Bid, bids)
    }

    function BestAsk(): (best: Option<real>)
      reads this
      ensures best.None? <==> asks == map[]
      ensures best.Some? ==> best.value in asks && forall p :: p in asks ==> p >= best.value
    {
      Best(Ask, asks)
    }

    function TopBids(n: nat): seq<Level>
      reads this
    {
      Take(Listing(Bid, bids), n)
    }

    function TopAsks(n: nat): seq<Level>
      reads this
    {
      Take(Listing(Ask, asks), n)
    }

    function LevelsWithinPct(pct: real): (seq<Level>, seq<Level>)
      reads this
    {
      (WithinPct(Bid, bids, pct), WithinPct(Ask, asks, pct))
    }

    method ApplySnapshot(data: seq<WireLevel>, side: Side)
      modifies this
      ensures State() == old(State()).With(side, FromSnapshot(Parsed(data)))
    {
      match side {
        case Bid =>
          bids := map[];
          for i := 0 to |data|
            invariant asks == old(asks)
            invariant Upsert(bids, Positive(Parsed(data[i..]))) == FromSnapshot(Parsed(data))
          {
            PositiveParsedStep(data, i, bids);
            if data[i].Some? && data[i].value.amount > 0.0 {
              bids := bids[data[i].value.price := data[i].value.amount];
            }
          }
        case Ask =>
          asks := map[];
          for i := 0 to |data|
            invariant bids == old(bids)
            invariant Upsert(asks, Positive(Parsed(data[i..]))) == FromSnapshot(Parsed(data))
          {
            PositiveParsedStep(data, i, asks);
            if data[i].Some? && data[i].value.amount > 0.0 {
              asks := asks[data[i].value.price := data[i].value.amount];
            }
          }
      }
    }

    method ApplyUpdate(data: seq<WireLevel>, side: Side)
      modifies this
      ensures State() == old(State()).With(side, Upsert(old(State()).On(side), Parsed(data)))
    {
      for i := 0 to |data|
        invariant State() == old(State()).With(side, State().On(side))
        invariant Upsert(State().On(side), Parsed(data[i..])) == Upsert(old(State()).On(side), Parsed(data))
      {
        ParsedStep(data, i, State().On(side));
        if data[i].Some? {
          var price, amount := data[i].value.price, data[i].value.amount;
          match side {
            case Bid => if amount == 0.0 { bids := bids - {price}; } else { bids := bids[price := amount]; }
            case Ask => if amount == 0.0 { asks := asks - {price}; } else { asks := asks[price := amount]; }
          }
        }
      }
    }

    static method FindBestPrice(ws: seq<WireLevel>, side: Side) returns (best: Option<real>)
      ensures best == BestPrice(side, Parsed(ws))
    {
      best := None;
      for i := 0 to |ws|
        invariant best.None? <==> Parsed(ws[..i]) == []
        invariant best.Some? ==> exists l :: l in Parsed(ws[..i]) && l.price == best.value
        invariant best.Some? ==> forall l :: l in Parsed(ws[..i]) ==> !Better(side, l.price, best.value)
      {
        ParsedSnoc(ws[..i], ws[i]);
        assert ws[..i + 1] == ws[..i] + [ws[i]];
        if ws[i].Some? {
          var price := ws[i].value.price;
          if best.None? || Better(side, price, best.value) { best := Some(price); }
        }
      }
      assert ws[..|ws|] == ws;
    }

    function FilterSnapshotLevels(ws: seq<WireLevel>, side: Side, f: LobFilter, batchBest: Option<real>): seq<WireLevel>
      reads this
    {
      SnapshotKept(Book(bids, asks), ws, side, f, batchBest)
    }

    function FilterLevels(ws: seq<WireLevel>, side: Side, f: LobFilter): seq<WireLevel>
      reads this
    {
      UpdateKept(Book(bids, asks), ws, side, f)
    }

    method ProcessMsg(msg: Message, filter: Option<LobFilter>)
      modifies this
      ensures State() == Processed(old(State()), msg, filter)
    {
      if msg.data.None? {
        return;
      }
      var action := ActionOf(msg);
      ghost var b := State();
      for i := 0 to 2
        invariant i == 0 ==> State() == b
        invariant i == 1 ==> State() == SideProcessed(b, action, msg.data.value.bids, Bid, filter)
        invariant i == 2 ==> State() == Processed(b, msg, filter)
      {
        var side := [Bid, Ask][i];
        var levels := msg.data.value.On(side);
        if levels == [] {
          continue;
        }
        if action.Snapshot? && filter.Some? {
          var best := FindBestPrice(levels, side);
          levels := FilterSnapshotLevels(levels, side, filter.value, best);
        } else if filter.Some? {
          levels := FilterLevels(levels, side, filter.value);
        }
        if levels != [] {
          match action {
            case Snapshot => ApplySnapshot(levels, side);
            case Update => ApplyUpdate(levels, side);
            case Other =>
          }
        }
      }
    }
  }
}
