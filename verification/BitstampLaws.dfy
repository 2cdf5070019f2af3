/** The Bitstamp book held against LevelLaws, message by message and on both sides. */
module BitstampLaws {
  import opened Options
  import opened PriceLevels
  import opened MapSums
  import opened LobFilters
  import opened LevelLaws
  import opened BitstampMessages
  import opened BitstampSpec
  import opened BitstampOrders
  import opened BitstampFilterRuns

  // ----- diffs -----

  // Entries before i at prices the side does not hold; the filter's counter moves on these.
  ghost function NewBefore(ws: seq<WireLevel>, m: Levels, i: int): set<int> {
    set j | j in Present(ws) && j < i && ws[j].value.price !in m
  }

  // The entries of a diff that a filter lets through, judged by the side as it was before.
  ghost function DiffThrough(side: Side, ws: seq<WireLevel>, m: Levels, filter: Option<LobFilter>): set<int> {
    match filter
    case None => Present(ws)
    case Some(MaxLevel(n)) =>
      set i | i in Present(ws)
              && (ws[i].value.amount == 0.0 || ws[i].value.price in m || |m| + |NewBefore(ws, m, i)| < n)
    case Some(MaxLevelPct(pct)) =>
      set i | i in Present(ws) && (ws[i].value.amount == 0.0 || InSideWindow(side, m, pct, ws[i].value.price))
  }

  lemma {:induction false} NewBeforeStep(ws: seq<WireLevel>, m: Levels, i: nat)
    requires i < |ws|
    ensures |NewBefore(ws, m, i + 1)|
         == |NewBefore(ws, m, i)| + if ws[i].Some? && ws[i].value.price !in m then 1 else 0
  {
    assert NewBefore(ws, m, i + 1)
        == if ws[i].Some? && ws[i].value.price !in m then NewBefore(ws, m, i) + {i} else NewBefore(ws, m, i);
  }

  // The counter is the number of new entries so far, until it reaches the limit; then it stays there.
  lemma {:induction false} CountedPicks(ws: seq<WireLevel>, n: nat, side: Side, bb: Option<real>, ba: Option<real>,
                                        m: Levels, count: nat, i: nat)
    requires i <= |ws|
    requires if |m| + |NewBefore(ws, m, i)| < n then count == |m| + |NewBefore(ws, m, i)| else count >= n
    ensures Parsed(KeptInDiff(ws[i..], MaxLevel(n), side, bb, ba, m, count))
         == Picked(ws, DiffThrough(side, ws, m, Some(MaxLevel(n))), i)
    decreases |ws| - i
  {
    if i < |ws| {
      KeptInDiffStep(ws, i, MaxLevel(n), side, bb, ba, m, count);
      NewBeforeStep(ws, m, i);
      if KeepInDiff(ws[i], MaxLevel(n), side, bb, ba, m, count) {
        var count' := if ws[i].value.price in m then count else count + 1;
        CountedPicks(ws, n, side, bb, ba, m, count', i + 1);
        ParsedCons(ws[i], KeptInDiff(ws[i + 1..], MaxLevel(n), side, bb, ba, m, count'));
      } else {
        CountedPicks(ws, n, side, bb, ba, m, count, i + 1);
      }
    }
  }

  lemma {:induction false} SideDiff(b: Book, ws: seq<WireLevel>, side: Side, f: LobFilter)
    ensures var m, bb, ba := b.On(side), Best(Bid, b.bids), Best(Ask, b.asks);
      AppliedBy(m, ws, DiffThrough(side, ws, m, Some(f)), Upsert(m, Parsed(KeptInDiff(ws, f, side, bb, ba, m, |m|))))
  {
    var m, bb, ba := b.On(side), Best(Bid, b.bids), Best(Ask, b.asks);
    var through := DiffThrough(side, ws, m, Some(f));
    assert ws[0..] == ws;
    PickedApply(m, ws, through);
    match f {
      case MaxLevel(n) =>
        assert NewBefore(ws, m, 0) == {};
        CountedPicks(ws, n, side, bb, ba, m, |m|, 0);
      case MaxLevelPct(pct) =>
        var keep := (l: Level) => l.amount == 0.0 || f.InWindow(Best(side, m), l.price, side.Bid?);
        PctKeptInDiff(ws, f, side, bb, ba, m, |m|, keep);
        forall i | i in Present(ws) ensures keep(ws[i].value) <==> i in through {
          WindowIsSideWindow(side, m, pct, ws[i].value.price);
        }
        FilteredPicks(ws, keep, through, 0);
    }
  }

  // A diff applies to each side of the book exactly the entries of that side's list that its filter lets
  // through, and leaves the orders alone.
  lemma {:induction false} DiffMessage(b: Book, data: BookData, us: Option<nat>, filter: Option<LobFilter>, depth: nat)
    ensures var b' := Processed(b, L2Update(BookPayload(data), us), filter, depth);
      && b'.orders == b.orders
      && AppliedBy(b.bids, data.bids, DiffThrough(Bid, data.bids, b.bids, filter), b'.bids)
      && AppliedBy(b.asks, data.asks, DiffThrough(Ask, data.asks, b.asks, filter), b'.asks)
  {
    if filter.None? {
      assert data.bids[0..] == data.bids && data.asks[0..] == data.asks;
      ParsedPicks(data.bids, 0);
      ParsedPicks(data.asks, 0);
      PickedApply(b.bids, data.bids, Present(data.bids));
      PickedApply(b.asks, data.asks, Present(data.asks));
    } else {
      SideDiff(b, data.bids, Bid, filter.value);
      SideDiff(b, data.asks, Ask, filter.value);
    }
  }

  // Under any percentage, a side with nothing stored takes a diff as if there were no filter.
  lemma {:induction false} EmptySideTakesAll(b: Book, data: BookData, us: Option<nat>, pct: real, depth: nat)
    ensures var b' := Processed(b, L2Update(BookPayload(data), us), Some(MaxLevelPct(pct)), depth);
      && (b.bids == map[] ==> AppliedBy(map[], data.bids, Present(data.bids), b'.bids))
      && (b.asks == map[] ==> AppliedBy(map[], data.asks, Present(data.asks), b'.asks))
  {
    DiffMessage(b, data, us, Some(MaxLevelPct(pct)), depth);
    assert b.bids == map[] ==> DiffThrough(Bid, data.bids, b.bids, Some(MaxLevelPct(pct))) == Present(data.bids);
    assert b.asks == map[] ==> DiffThrough(Ask, data.asks, b.asks, Some(MaxLevelPct(pct))) == Present(data.asks);
  }

  // ----- snapshots -----

  ghost predicate IsFirstPositive(ws: seq<WireLevel>, k: int) {
    k in Positives(ws) && forall j :: j in Positives(ws) ==> k <= j
  }

  // Within pct percent of the first positive level of the list.
  ghost predicate InFirstWindow(side: Side, ws: seq<WireLevel>, pct: real, p: real) {
    exists k :: IsFirstPositive(ws, k) && Within(side, ws[k].value.price, pct, p)
  }

  ghost function SnapshotKeeps(side: Side, ws: seq<WireLevel>, f: LobFilter): set<int> {
    match f
    case MaxLevel(n) => First(Positives(ws), n)
    case MaxLevelPct(pct) => set i | i in Positives(ws) && InFirstWindow(side, ws, pct, ws[i].value.price)
  }

  // The entries of a snapshot that reach the book: the depth counts all entries without a filter, and the
  // kept ones with one.
  ghost function SnapshotThrough(side: Side, ws: seq<WireLevel>, filter: Option<LobFilter>, depth: nat): set<int> {
    match filter
    case None => set i | i in Positives(ws) && i < depth
    case Some(f) => First(SnapshotKeeps(side, ws, f), depth)
  }

  // The anchor is the price of the first positive level, and absent exactly when none is positive.
  lemma {:induction false} FirstPositiveIs(ws: seq<WireLevel>, i: nat)
    requires i <= |ws| && forall j :: j in Positives(ws) ==> j >= i
    ensures FirstPositive(ws[i..]).None? <==> Positives(ws) == {}
    ensures forall p :: FirstPositive(ws[i..]) == Some(p)
                   <==> exists k :: IsFirstPositive(ws, k) && ws[k].value.price == p
    decreases |ws| - i
  {
    if i < |ws| {
      assert ws[i..][1..] == ws[i + 1..];
      if i in Positives(ws) {
        assert IsFirstPositive(ws, i);
        assert forall k :: IsFirstPositive(ws, k) ==> k == i;
      } else {
        FirstPositiveIs(ws, i + 1);
      }
    }
  }

  lemma {:induction false} AnchorWindow(side: Side, ws: seq<WireLevel>, other: Option<real>, pct: real, p: real)
    requires Positives(ws) != {}
    ensures MaxLevelPct(pct).InWindow(Or(FirstPositive(ws), other), p, side.Bid?) <==> InFirstWindow(side, ws, pct, p)
  {
    assert ws[0..] == ws;
    FirstPositiveIs(ws, 0);
    var anchor := FirstPositive(ws).value;
    assert FirstPositive(ws) == Some(anchor);
    WindowIsAPercentage(side, pct, anchor, p);
  }

  lemma {:induction false} KeptPicks(ws: seq<WireLevel>, f: LobFilter, side: Side, data: BookData, b: Book)
    requires ws == data.On(side)
    ensures Parsed(if side.Bid? then SnapshotFiltered(b, data, f).bids else SnapshotFiltered(b, data, f).asks)
         == Picked(ws, SnapshotKeeps(side, ws, f), 0)
  {
    var bb := Or(FirstPositive(data.bids), Best(Bid, b.bids));
    var ba := Or(FirstPositive(data.asks), Best(Ask, b.asks));
    assert ws[0..] == ws;
    match f {
      case MaxLevel(n) =>
        SnapshotKeepsFirst(ws, n, side, bb, ba, 0);
        ParsedPicks(ws, 0);
        PositivePicks(ws, Present(ws), 0);
        assert Present(ws) * Positives(ws) == Positives(ws);
        FirstPicks(ws, Positives(ws), n);
      case MaxLevelPct(pct) =>
        WindowPicks(ws, pct, side, bb, ba, if side.Bid? then Best(Bid, b.bids) else Best(Ask, b.asks));
    }
  }

  lemma {:induction false} WindowPicks(ws: seq<WireLevel>, pct: real, side: Side, bb: Option<real>, ba: Option<real>,
                                       other: Option<real>)
    requires (if side.Bid? then bb else ba) == Or(FirstPositive(ws), other)
    ensures Parsed(KeptInSnapshot(ws, MaxLevelPct(pct), side, bb, ba, 0))
         == Picked(ws, SnapshotKeeps(side, ws, MaxLevelPct(pct)), 0)
  {
    var f, anchor := MaxLevelPct(pct), Or(FirstPositive(ws), other);
    var keep := (l: Level) => l.amount == 0.0 || f.InWindow(anchor, l.price, side.Bid?);
    var kept := set j | 0 <= j < |ws| && ws[j].Some? && keep(ws[j].value);
    assert ws[0..] == ws;
    PctKeptInSnapshot(ws, f, side, bb, ba, 0, keep);
    KeptIsPositive(ws, f, side, bb, ba);
    FilteredPicks(ws, keep, kept, 0);
    PositivePicks(ws, kept, 0);
    forall i ensures i in kept * Positives(ws) <==> i in SnapshotKeeps(side, ws, f) {
      if i in Positives(ws) { AnchorWindow(side, ws, other, pct, ws[i].value.price); }
    }
    assert kept * Positives(ws) == SnapshotKeeps(side, ws, f);
  }

  lemma {:induction false} KeptIsPositive(ws: seq<WireLevel>, f: LobFilter, side: Side, bb: Option<real>,
                                          ba: Option<real>)
    ensures Positive(Parsed(KeptInSnapshot(ws, f, side, bb, ba, 0))) == Parsed(KeptInSnapshot(ws, f, side, bb, ba, 0))
    ensures |Parsed(KeptInSnapshot(ws, f, side, bb, ba, 0))| == |KeptInSnapshot(ws, f, side, bb, ba, 0)|
  {
    var kept := KeptInSnapshot(ws, f, side, bb, ba, 0);
    KeptInSnapshotFacts(ws, f, side, bb, ba, 0);
    ParsedMembers(kept);
    PositiveId(Parsed(kept));
    AllParsed(kept);
  }

  lemma {:induction false} AllParsed(ws: seq<WireLevel>)
    requires forall w :: w in ws ==> w.Some?
    ensures |Parsed(ws)| == |ws|
  {
    if ws != [] { AllParsed(ws[1..]); }
  }

  lemma {:induction false} KeptSideApplies(b: Book, data: BookData, side: Side, f: LobFilter, depth: nat)
    ensures var kept := if side.Bid? then SnapshotFiltered(b, data, f).bids else SnapshotFiltered(b, data, f).asks;
      AppliedBy(map[], data.On(side), SnapshotThrough(side, data.On(side), Some(f), depth),
                FromSnapshot(Parsed(Take(kept, depth))))
  {
    var ws := data.On(side);
    var bb := Or(FirstPositive(data.bids), Best(Bid, b.bids));
    var ba := Or(FirstPositive(data.asks), Best(Ask, b.asks));
    var kept, keeps := KeptInSnapshot(ws, f, side, bb, ba, 0), SnapshotKeeps(side, ws, f);
    KeptPicks(ws, f, side, data, b);
    KeptIsPositive(ws, f, side, bb, ba);
    ParsedTake(kept, depth);
    FirstPicks(ws, keeps, depth);
    TakeMembers(Parsed(kept), depth);
    PositiveId(Take(Parsed(kept), depth));
    PickedApply(map[], ws, First(keeps, depth));
  }

  lemma {:induction false} CutSideApplies(ws: seq<WireLevel>, side: Side, depth: nat)
    ensures AppliedBy(map[], ws, SnapshotThrough(side, ws, None, depth), FromSnapshot(Parsed(Take(ws, depth))))
  {
    var through := SnapshotThrough(side, ws, None, depth);
    var n := if depth < |ws| then depth else |ws|;
    var cut := ws[..n];
    assert cut == Take(ws, depth) && cut[0..] == cut;
    ParsedPicks(cut, 0);
    PositivePicks(cut, Present(cut), 0);
    assert Present(cut) * Positives(cut) == through;
    CutPicks(ws, n, through, 0);
    PickedApply(map[], ws, through);
  }

  // A snapshot makes each side of the book exactly the entries of that side's list that reach it, at most
  // as many as the depth, and forgets all orders.
  lemma {:induction false} SnapshotMessage(b: Book, data: BookData, filter: Option<LobFilter>, depth: nat)
    ensures var b' := Processed(b, L2Snapshot(Some(data)), filter, depth);
      && b'.orders == map[] && AtMost(b', depth)
      && AppliedBy(map[], data.bids, SnapshotThrough(Bid, data.bids, filter, depth), b'.bids)
      && AppliedBy(map[], data.asks, SnapshotThrough(Ask, data.asks, filter, depth), b'.asks)
  {
    var kept := if filter.Some? then SnapshotFiltered(b, data, filter.value) else data;
    FromSnapshotSize(Parsed(Take(kept.bids, depth)));
    FromSnapshotSize(Parsed(Take(kept.asks, depth)));
    if filter.None? {
      CutSideApplies(data.bids, Bid, depth);
      CutSideApplies(data.asks, Ask, depth);
    } else {
      KeptSideApplies(b, data, Bid, filter.value, depth);
      KeptSideApplies(b, data, Ask, filter.value, depth);
    }
  }

  lemma {:induction false} CutListing(ws: seq<WireLevel>, side: Side, depth: nat)
    requires |Parsed(ws)| == |ws| && StrictlySorted(side, Parsed(ws))
    requires forall l :: l in Parsed(ws) ==> l.amount > 0.0
    ensures Listing(side, FromSnapshot(Parsed(Take(ws, depth)))) == Take(Parsed(ws), depth)
  {
    ParsedTake(ws, depth);
    TakeMembers(Parsed(ws), depth);
    ListingOfSorted(side, Take(Parsed(ws), depth));
  }

  // The depth cut keeps the best levels of a snapshot that is listed best first and parses throughout.
  lemma {:induction false} DepthCutKeepsBest(b: Book, data: BookData, side: Side, depth: nat, uncut: nat)
    requires var ws := data.On(side); |Parsed(ws)| == |ws| <= uncut && StrictlySorted(side, Parsed(ws))
    requires forall l :: l in Parsed(data.On(side)) ==> l.amount > 0.0
    ensures Listing(side, Processed(b, L2Snapshot(Some(data)), None, depth).On(side))
         == Take(Listing(side, Processed(b, L2Snapshot(Some(data)), None, uncut).On(side)), depth)
  {
    var ws := data.On(side);
    assert Take(ws, uncut) == ws;
    ListingOfSorted(side, Parsed(ws));
    CutListing(ws, side, depth);
  }

  lemma {:induction false} NothingPositive(b: Book, data: BookData, side: Side, depth: nat, p: real)
    requires Positives(data.On(side)) == {}
    ensures Lookup(Processed(b, L2Snapshot(Some(data)), None, depth).On(side), p) == None
  {
    SnapshotMessage(b, data, None, depth);
    assert Untouched(data.On(side), SnapshotThrough(side, data.On(side), None, depth), p);
  }

  // A snapshot under the window around its first positive level: building it filtered is building it
  // unfiltered and cutting it to the window.
  lemma {:induction false} PctSnapshot(b: Book, data: BookData, side: Side, pct: real, depth: nat, p: real)
    requires |data.On(side)| <= depth
    ensures Lookup(Processed(b, L2Snapshot(Some(data)), Some(MaxLevelPct(pct)), depth).On(side), p)
         == if InFirstWindow(side, data.On(side), pct, p)
            then Lookup(Processed(b, L2Snapshot(Some(data)), None, depth).On(side), p) else None
  {
    var ws := data.On(side);
    SnapshotWindow(b, data, side, pct, depth, p);
    if Positives(ws) == {} {
      NothingPositive(b, data, side, depth, p);
    } else {
      AnchorWindow(side, ws, if side.Bid? then Best(Bid, b.bids) else Best(Ask, b.asks), pct, p);
    }
  }

  lemma {:induction false} StoredIff(ws: seq<WireLevel>, through: set<int>, after: Levels, q: real)
    requires AppliedBy(map[], ws, through, after)
    requires forall i :: i in through ==> ws[i].value.amount != 0.0
    ensures q in after <==> exists i :: i in through && ws[i].value.price == q
  {
    var last := LastIndex(ws, through, q, 0);
    if last.Some? {
      assert IsLastAt(ws, through, q, last.value);
      assert Lookup(after, q) == Some(ws[last.value].value.amount);
    } else {
      assert Untouched(ws, through, q);
      assert Lookup(after, q) == None;
    }
  }

  ghost predicate BestFirst(side: Side, ws: seq<WireLevel>) {
    forall i, j :: i in Positives(ws) && j in Positives(ws) && i < j ==>
      !Better(side, ws[j].value.price, ws[i].value.price)
  }

  lemma {:induction false} HasFirstPositive(ws: seq<WireLevel>) returns (k: int)
    requires Positives(ws) != {}
    ensures IsFirstPositive(ws, k) && forall x :: IsFirstPositive(ws, x) ==> x == k
  {
    assert ws[0..] == ws;
    FirstPositiveIs(ws, 0);
    assert FirstPositive(ws) == Some(FirstPositive(ws).value);
    k :| IsFirstPositive(ws, k) && ws[k].value.price == FirstPositive(ws).value;
  }

  lemma {:induction false} FirstIsBest(side: Side, ws: seq<WireLevel>, depth: nat, m: Levels, k: int)
    requires BestFirst(side, ws) && IsFirstPositive(ws, k) && m != map[]
    requires AppliedBy(map[], ws, SnapshotThrough(side, ws, None, depth), m)
    ensures forall x :: IsBestOf(side, m, x) <==> x == ws[k].value.price
  {
    var through := SnapshotThrough(side, ws, None, depth);
    forall q ensures q in m <==> exists i :: i in through && ws[i].value.price == q {
      StoredIff(ws, through, m, q);
    }
    var q := Member(m.Keys);
    var i :| i in through && ws[i].value.price == q;
    assert k in through;
    var best := ws[k].value.price;
    assert best in m;
    forall q | q in m ensures !Better(side, q, best) {
      var j :| j in through && ws[j].value.price == q;
      assert j in Positives(ws) && k <= j;
      if k < j { assert !Better(side, ws[j].value.price, ws[k].value.price); }
    }
    assert IsBestOf(side, m, best);
  }

  // For a list that is best first, that window is the window of the unfiltered side's best price.
  lemma {:induction false} BestFirstWindow(b: Book, data: BookData, side: Side, pct: real, depth: nat, p: real)
    requires BestFirst(side, data.On(side))
    requires Processed(b, L2Snapshot(Some(data)), None, depth).On(side) != map[]
    ensures InFirstWindow(side, data.On(side), pct, p)
       <==> InSideWindow(side, Processed(b, L2Snapshot(Some(data)), None, depth).On(side), pct, p)
  {
    var ws, m := data.On(side), Processed(b, L2Snapshot(Some(data)), None, depth).On(side);
    SnapshotMessage(b, data, None, depth);
    var through := SnapshotThrough(side, ws, None, depth);
    var q := Member(m.Keys);
    StoredIff(ws, through, m, q);
    var k := HasFirstPositive(ws);
    FirstIsBest(side, ws, depth, m, k);
  }

  // ----- single orders -----

  // What a filter lets through, judged by the side the order is for.
  ghost predicate OrderPasses(b: Book, e: OrderEntry, f: LobFilter)
    requires e.price.Some? && e.amount.Some?
  {
    var side, m := if e.orderType == 0 then Bid else Ask, if e.orderType == 0 then b.bids else b.asks;
    || e.amount.value == 0.0
    || match f
       case MaxLevel(n) => e.price.value in m || |m| < n
       case MaxLevelPct(pct) => InSideWindow(side, m, pct, e.price.value)
  }

  // An order entry that does not parse is ignored; one that a filter lets through acts as without a filter;
  // any other changes nothing.
  lemma {:induction false} FilteredOrderMessage(b: Book, e: OrderEntry, us: Option<nat>, f: LobFilter, depth: nat)
    ensures var msg := L2Update(OrderPayload(e), us);
      Processed(b, msg, Some(f), depth)
      == if e.price.Some? && e.amount.Some? && OrderPasses(b, e, f) then Processed(b, msg, None, depth) else b
  {
    if e.price.Some? && e.amount.Some? && f.MaxLevelPct? {
      WindowIsSideWindow(SideOf(e), b.On(SideOf(e)), f.pct, e.price.value);
    }
  }

  // The sizes of the orders at one price of one side.
  ghost function SizesAt(orders: Orders, side: Side, p: real): map<nat, real> {
    map id | id in orders && orders[id].side == side && orders[id].price == p :: orders[id].size
  }

  lemma {:induction false} RebuiltAt(b: Book, side: Side, price: real, s: Side, p: real)
    ensures Lookup(Rebuilt(b, side, price).On(s), p)
         == if s == side && p == price then NonZero(Total(SizesAt(b.orders, s, p))) else Lookup(b.On(s), p)
  {
    assert AtLevel(b.orders, side, price) == SizesAt(b.orders, side, price);
  }

  // An entry is for an order that is live, or starts one.
  predicate Counts(b: Book, e: OrderEntry) {
    e.price.Some? && e.amount.Some? && (e.id in b.orders || e.amount.value > 0.0)
  }

  lemma {:induction false} OrderMessageAt(b: Book, e: OrderEntry, s: Side, p: real)
    requires Counts(b, e)
    ensures var b' := OrderApplied(b, e);
      Lookup(b'.On(s), p) == if (s, p) in Place(b.orders, e.id) + Place(b'.orders, e.id)
                             then NonZero(Total(SizesAt(b'.orders, s, p))) else Lookup(b.On(s), p)
  {
    OrdersAfter(b, e);
    var b' := OrderApplied(b, e);
    var moved := b.(orders := b'.orders);
    var info := OrderInfo(e.price.value, e.amount.value, SideOf(e));
    if e.id in b.orders {
      var was := b.orders[e.id];
      RebuiltAt(moved, was.side, was.price, s, p);
      if e.amount.value != 0.0 { RebuiltAt(Rebuilt(moved, was.side, was.price), info.side, info.price, s, p); }
    } else {
      RebuiltAt(moved, info.side, info.price, s, p);
    }
  }

  // Without a filter an order entry sets or removes its own order, and rebuilds exactly the level that order
  // leaves and the level it joins from the orders now there.
  lemma {:induction false} OrderMessage(b: Book, e: OrderEntry, us: Option<nat>, depth: nat)
    ensures var b' := Processed(b, L2Update(OrderPayload(e), us), None, depth);
      if !Counts(b, e) then b' == b
      else
        && b'.orders == (if e.amount.value == 0.0 then b.orders - {e.id}
                         else b.orders[e.id := OrderInfo(e.price.value, e.amount.value,
                                                         if e.orderType == 0 then Bid else Ask)])
        && (forall p :: Lookup(b'.bids, p)
              == if (Bid, p) in Place(b.orders, e.id) + Place(b'.orders, e.id)
                 then NonZero(Total(SizesAt(b'.orders, Bid, p))) else Lookup(b.bids, p))
        && (forall p :: Lookup(b'.asks, p)
              == if (Ask, p) in Place(b.orders, e.id) + Place(b'.orders, e.id)
                 then NonZero(Total(SizesAt(b'.orders, Ask, p))) else Lookup(b.asks, p))
  {
    if Counts(b, e) {
      OrdersAfter(b, e);
      var b' := OrderApplied(b, e);
      forall p
        ensures Lookup(b'.bids, p) == if (Bid, p) in Place(b.orders, e.id) + Place(b'.orders, e.id)
                                      then NonZero(Total(SizesAt(b'.orders, Bid, p))) else Lookup(b.bids, p)
        ensures Lookup(b'.asks, p) == if (Ask, p) in Place(b.orders, e.id) + Place(b'.orders, e.id)
                                      then NonZero(Total(SizesAt(b'.orders, Ask, p))) else Lookup(b.asks, p)
      {
        OrderMessageAt(b, e, Bid, p);
        OrderMessageAt(b, e, Ask, p);
      }
    }
  }

  // Messages without orders or levels change nothing.
  lemma {:induction false} OtherMessage(b: Book, msg: Message, filter: Option<LobFilter>, depth: nat)
    requires !(msg.L2Snapshot? && msg.snapshot.Some?)
    requires !(msg.L2Update? && (msg.payload.OrderPayload? || msg.payload.BookPayload?))
    ensures Processed(b, msg, filter, depth) == b
  {
  }
}
