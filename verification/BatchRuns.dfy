/** Runs of OKX and Kraken messages: the filtered book against the unfiltered one, and its size. */
module BatchRuns {
  import opened Options
  import opened PriceLevels
  import opened MapSums
  import opened LobFilters
  import opened LevelFilters
  import opened LevelLaws
  import opened TopLevels
  import opened BatchSpec
  import opened BatchBook

  // ----- sorting -----

  ghost predicate Sorted(side: Side, ls: seq<Level>) {
    forall i, j :: 0 <= i < j < |ls| ==> !Better(side, ls[j].price, ls[i].price)
  }

  lemma {:induction false} InsertAdds(side: Side, l: Level, ls: seq<Level>)
    ensures multiset(Insert(side, l, ls)) == multiset{l} + multiset(ls)
    ensures |Insert(side, l, ls)| == |ls| + 1
    ensures forall k :: k in Insert(side, l, ls) <==> k == l || k in ls
  {
    if !(ls == [] || !Better(side, ls[0].price, l.price)) {
      InsertAdds(side, l, ls[1..]);
      assert ls == [ls[0]] + ls[1..];
    }
  }

  lemma {:induction false} InsertSorts(side: Side, l: Level, ls: seq<Level>)
    requires Sorted(side, ls)
    ensures Sorted(side, Insert(side, l, ls))
  {
    if !(ls == [] || !Better(side, ls[0].price, l.price)) {
      InsertSorts(side, l, ls[1..]);
      InsertAdds(side, l, ls[1..]);
      var tail := Insert(side, l, ls[1..]);
      forall i | 0 <= i < |tail| ensures !Better(side, tail[i].price, ls[0].price) {
        assert tail[i] in tail;
      }
    }
  }

  // The sort is a best-first permutation.
  lemma {:induction false} SortBySorts(side: Side, ls: seq<Level>)
    ensures Sorted(side, SortBy(side, ls))
    ensures multiset(SortBy(side, ls)) == multiset(ls)
    ensures forall l :: l in SortBy(side, ls) <==> l in ls
    ensures |SortBy(side, ls)| == |ls|
  {
    if ls != [] {
      SortBySorts(side, ls[1..]);
      InsertSorts(side, ls[0], SortBy(side, ls[1..]));
      InsertAdds(side, ls[0], SortBy(side, ls[1..]));
      assert ls == [ls[0]] + ls[1..];
    }
  }

  lemma {:induction false} DistinctCount(ls: seq<Level>, l: Level)
    requires DistinctPrices(ls)
    ensures multiset(ls)[l] <= 1
  {
    if ls != [] {
      assert ls == [ls[0]] + ls[1..];
      DistinctCons(ls[0], ls[1..]);
      DistinctCount(ls[1..], l);
    }
  }

  // With distinct prices the sort is strict, so it is the listing of the side it builds.
  lemma {:induction false} SortIsStrict(side: Side, ls: seq<Level>)
    requires DistinctPrices(ls)
    ensures StrictlySorted(side, SortBy(side, ls))
  {
    var sorted := SortBy(side, ls);
    SortBySorts(side, ls);
    forall i, j | 0 <= i < j < |sorted| ensures Better(side, sorted[i].price, sorted[j].price) {
      if sorted[i] == sorted[j] {
        assert sorted == sorted[..j] + [sorted[j]] + sorted[j + 1..];
        assert sorted[i] in sorted[..j];
        DistinctCount(ls, sorted[i]);
      } else {
        assert sorted[i] in ls && sorted[j] in ls;
      }
    }
  }

  lemma {:induction false} ParsedWire(ls: seq<Level>)
    ensures Parsed(Wire(ls)) == ls
  {
    if ls != [] {
      assert Wire(ls)[1..] == Wire(ls[1..]);
      ParsedWire(ls[1..]);
    }
  }

  lemma {:induction false} ListingOfSnapshot(side: Side, ls: seq<Level>)
    requires DistinctPrices(Positive(ls))
    ensures Listing(side, FromSnapshot(ls)) == SortBy(side, Positive(ls))
  {
    var sorted := SortBy(side, Positive(ls));
    SortBySorts(side, Positive(ls));
    SortIsStrict(side, Positive(ls));
    FromSnapshotDistinct(ls);
    SortedUnique(side, Listing(side, FromSnapshot(ls)), sorted);
  }

  // ----- one side of one snapshot under MaxLevel -----

  ghost predicate CleanSnapshotSide(ws: seq<WireLevel>) {
    ws != [] ==> Positive(Parsed(ws)) != [] && DistinctPrices(Positive(Parsed(ws)))
  }

  lemma {:induction false} TopOfSnapshot(side: Side, ls: seq<Level>, max: nat)
    requires DistinctPrices(Positive(ls))
    ensures var top := Take(SortBy(side, Positive(ls)), max);
      && |top| == |Take(Positive(ls), max)|
      && Listing(side, FromSnapshot(top)) == Take(Listing(side, FromSnapshot(ls)), max)
  {
    var sorted := SortBy(side, Positive(ls));
    var top := Take(sorted, max);
    SortBySorts(side, Positive(ls));
    SortIsStrict(side, Positive(ls));
    ListingOfSnapshot(side, ls);
    assert forall l :: l in top ==> l in sorted;
    ListingOfSorted(side, top);
  }

  lemma {:induction false} SnapshotKeptListing(b: Book, ws: seq<WireLevel>, side: Side, max: nat, best: Option<real>)
    requires DistinctPrices(Positive(Parsed(ws)))
    ensures var kept := SnapshotKept(b, ws, side, MaxLevel(max), best);
      && |kept| == |Take(Positive(Parsed(ws)), max)|
      && Listing(side, FromSnapshot(Parsed(kept))) == Take(Listing(side, FromSnapshot(Parsed(ws))), max)
  {
    TopOfSnapshot(side, Parsed(ws), max);
    ParsedWire(Take(SortBy(side, Positive(Parsed(ws))), max));
  }

  lemma {:induction false} FilteredSnapshotIsTop(b: Book, other: Book, ws: seq<WireLevel>, side: Side, n: nat)
    requires n >= 1 && Positive(Parsed(ws)) != [] && DistinctPrices(Positive(Parsed(ws)))
    ensures Listing(side, SideProcessed(b, Snapshot, ws, side, Some(MaxLevel(n))).On(side))
         == Take(Listing(side, SideProcessed(other, Snapshot, ws, side, None).On(side)), n)
  {
    SnapshotKeptListing(b, ws, side, n, BestPrice(side, Parsed(ws)));
  }

  // Filtering a snapshot before building the side is building the side and reading its top levels.
  lemma {:induction false} FilterThenBuildIsBuildThenTake(b: Book, other: Book, ws: seq<WireLevel>, side: Side, n: nat,
                                                          filtered: OrderBook, full: OrderBook)
    requires n >= 1 && Positive(Parsed(ws)) != [] && DistinctPrices(Positive(Parsed(ws)))
    requires filtered.State() == SideProcessed(b, Snapshot, ws, side, Some(MaxLevel(n)))
    requires full.State() == SideProcessed(other, Snapshot, ws, side, None)
    ensures Listing(side, filtered.State().On(side)) == if side.Bid? then full.TopBids(n) else full.TopAsks(n)
  {
    FilteredSnapshotIsTop(b, other, ws, side, n);
  }

  // ----- one side of one update under MaxLevel -----

  lemma {:induction false} UpdateIsUpsert(b: Book, ws: seq<WireLevel>, side: Side, f: LobFilter)
    ensures SideProcessed(b, Update, ws, side, Some(f))
         == b.With(side, Upsert(b.On(side), Parsed(UpdateKept(b, ws, side, f))))
  {
    assert ws == [] ==> UpdateKept(b, ws, side, f) == [];
  }

  // With room the whole batch is applied; without, exactly its effect on the prices already there.
  lemma {:induction false} MaxLevelUpdate(b: Book, ws: seq<WireLevel>, side: Side, max: nat)
    ensures SideProcessed(b, Update, ws, side, Some(MaxLevel(max))).On(side)
         == if |b.On(side)| < max then Upsert(b.On(side), Parsed(ws))
            else Restrict(Upsert(b.On(side), Parsed(ws)), b.On(side).Keys)
  {
    var f, m := MaxLevel(max), b.On(side);
    var bb, ba := Best(Bid, b.bids), Best(Ask, b.asks);
    var keep := (l: Level) => f.ShouldInclude(bb, ba, l.price, l.amount, side.Bid?, |m|, l.price in m);
    UpdateIsUpsert(b, ws, side, f);
    assert UpdateKept(b, ws, side, f) == Filtered(ws, keep);
    if |m| < max {
      FilteredAll(ws, keep);
    } else {
      FilteredSame(ws, keep, Known(m));
      KnownChanges(m, ws);
    }
  }

  // ----- whole runs under MaxLevel -----

  ghost predicate SubBook(a: Book, b: Book) {
    Submap(a.bids, b.bids) && Submap(a.asks, b.asks)
  }

  ghost predicate CleanSnapshots(msgs: seq<Message>) {
    forall m :: m in msgs && m.data.Some? && ActionOf(m).Snapshot? ==>
      CleanSnapshotSide(m.data.value.bids) && CleanSnapshotSide(m.data.value.asks)
  }

  lemma {:induction false} UpsertSubmap(m: Levels, full: Levels, ls: seq<Level>)
    requires Submap(m, full)
    ensures Submap(Upsert(m, ls), Upsert(full, ls))
    ensures Submap(Restrict(Upsert(m, ls), m.Keys), Upsert(full, ls))
  {
    forall p | Lookup(Upsert(m, ls), p).Some? ensures Lookup(Upsert(full, ls), p) == Lookup(Upsert(m, ls), p) {
      UpsertAt(m, ls, p);
      UpsertAt(full, ls, p);
    }
    LookupSubmap(Upsert(m, ls), Upsert(full, ls));
  }

  lemma {:induction false} SnapshotSideSubmap(b: Book, full: Book, ws: seq<WireLevel>, side: Side, max: nat)
    requires ws != [] && CleanSnapshotSide(ws)
    requires max == 0 ==> b.On(side) == map[]
    ensures Submap(SideProcessed(b, Snapshot, ws, side, Some(MaxLevel(max))).On(side),
                   SideProcessed(full, Snapshot, ws, side, None).On(side))
    ensures max == 0 ==> SideProcessed(b, Snapshot, ws, side, Some(MaxLevel(max))).On(side) == map[]
  {
    var best := BestPrice(side, Parsed(ws));
    SnapshotKeptListing(b, ws, side, max, best);
    var kept := SnapshotKept(b, ws, side, MaxLevel(max), best);
    TakenIsSubmap(side, FromSnapshot(Parsed(kept)), FromSnapshot(Parsed(ws)), max);
  }

  lemma {:induction false} UpdateSideSubmap(b: Book, full: Book, ws: seq<WireLevel>, side: Side, max: nat)
    requires ws != [] && Submap(b.On(side), full.On(side))
    requires max == 0 ==> b.On(side) == map[]
    ensures Submap(SideProcessed(b, Update, ws, side, Some(MaxLevel(max))).On(side),
                   SideProcessed(full, Update, ws, side, None).On(side))
    ensures max == 0 ==> SideProcessed(b, Update, ws, side, Some(MaxLevel(max))).On(side) == map[]
  {
    MaxLevelUpdate(b, ws, side, max);
    UpsertSubmap(b.On(side), full.On(side), Parsed(ws));
  }

  lemma {:induction false} MaxLevelSideSubmap(b: Book, full: Book, action: Action, ws: seq<WireLevel>, side: Side,
                                              max: nat)
    requires Submap(b.On(side), full.On(side))
    requires max == 0 ==> b.On(side) == map[]
    requires action.Snapshot? ==> CleanSnapshotSide(ws)
    ensures Submap(SideProcessed(b, action, ws, side, Some(MaxLevel(max))).On(side),
                   SideProcessed(full, action, ws, side, None).On(side))
    ensures max == 0 ==> SideProcessed(b, action, ws, side, Some(MaxLevel(max))).On(side) == map[]
  {
    if ws != [] {
      match action {
        case Snapshot => SnapshotSideSubmap(b, full, ws, side, max);
        case Update => UpdateSideSubmap(b, full, ws, side, max);
        case Other =>
      }
    }
  }

  // At every point of every run, each level of the filtered book is in the unfiltered one, exactly.
  lemma {:induction false} MaxLevelIsExactSubmap(msgs: seq<Message>, max: nat)
    requires CleanSnapshots(msgs)
    ensures SubBook(ProcessedAll(msgs, Some(MaxLevel(max))), ProcessedAll(msgs, None))
    ensures max == 0 ==> ProcessedAll(msgs, Some(MaxLevel(max))) == EMPTY_BOOK
  {
    if msgs != [] {
      var front, last := msgs[..|msgs| - 1], msgs[|msgs| - 1];
      MaxLevelIsExactSubmap(front, max);
      assert last in msgs;
      if last.data.Some? {
        var b, full := ProcessedAll(front, Some(MaxLevel(max))), ProcessedAll(front, None);
        var action, data := ActionOf(last), last.data.value;
        MaxLevelSideSubmap(b, full, action, data.bids, Bid, max);
        var b' := SideProcessed(b, action, data.bids, Bid, Some(MaxLevel(max)));
        var full' := SideProcessed(full, action, data.bids, Bid, None);
        MaxLevelSideSubmap(b', full', action, data.asks, Ask, max);
      }
    }
  }

  // Why CleanSnapshots: a snapshot side with no positive level is skipped by the filter but clears
  // the unfiltered side, so exactness survives it only if the filtered side was empty already.
  lemma {:induction false} SnapshotWithoutLevels(b: Book, full: Book, ws: seq<WireLevel>, side: Side, max: nat)
    requires ws != [] && Positive(Parsed(ws)) == []
    ensures Submap(SideProcessed(b, Snapshot, ws, side, Some(MaxLevel(max))).On(side),
                   SideProcessed(full, Snapshot, ws, side, None).On(side))
       <==> b.On(side) == map[]
  {
    assert SideProcessed(b, Snapshot, ws, side, Some(MaxLevel(max))) == b;
    assert SideProcessed(full, Snapshot, ws, side, None).On(side) == map[];
    if b.On(side) != map[] {
      var p := Member(b.On(side).Keys);
    }
  }

  // ----- the top n levels -----

  // Whether an update keeps a side the top n. With room the whole batch is taken, so it must fit; without
  // room only its effect on the side's own prices is.
  ghost predicate UpdateKeepsTop(side: Side, m: Levels, full: Levels, ls: seq<Level>, n: nat) {
    if |m| < n then |Upsert(m, ls)| <= n else FullSideKeepsTop(side, m, full, ls)
  }

  // For every batch: a side that is the top n of the unfiltered side stays so exactly when UpdateKeepsTop.
  lemma {:induction false} UpdateKeepsTopExactlyWhen(b: Book, full: Book, ws: seq<WireLevel>, side: Side, n: nat)
    requires IsTop(side, b.On(side), full.On(side), n)
    ensures IsTop(side, SideProcessed(b, Update, ws, side, Some(MaxLevel(n))).On(side),
                  SideProcessed(full, Update, ws, side, None).On(side), n)
       <==> UpdateKeepsTop(side, b.On(side), full.On(side), Parsed(ws), n)
  {
    MaxLevelUpdate(b, ws, side, n);
    if |b.On(side)| < n {
      RoomyIsWhole(side, b.On(side), full.On(side), n);
    } else {
      FullSideBatch(side, b.On(side), full.On(side), Parsed(ws), n);
    }
  }

  lemma {:induction false} InsertKeepsLast(side: Side, l: Level, ls: seq<Level>, p: real)
    ensures LastWrite(Insert(side, l, ls), p) == Or(LastWrite(ls, p), if l.price == p then Some(l.amount) else None)
  {
    if ls == [] || !Better(side, ls[0].price, l.price) {
      assert ([l] + ls)[1..] == ls;
    } else {
      InsertKeepsLast(side, l, ls[1..], p);
      var tail := Insert(side, l, ls[1..]);
      assert ([ls[0]] + tail)[1..] == tail;
    }
  }

  // The sort is stable, so it keeps the last change of every price.
  lemma {:induction false} SortKeepsLast(side: Side, ls: seq<Level>, p: real)
    ensures LastWrite(SortBy(side, ls), p) == LastWrite(ls, p)
  {
    if ls != [] {
      SortKeepsLast(side, ls[1..], p);
      InsertKeepsLast(side, ls[0], SortBy(side, ls[1..]), p);
    }
  }

  lemma {:induction false} SortBuildsTheSame(side: Side, ls: seq<Level>)
    ensures Upsert(map[], SortBy(side, ls)) == Upsert(map[], ls)
  {
    forall p ensures Lookup(Upsert(map[], SortBy(side, ls)), p) == Lookup(Upsert(map[], ls), p) {
      UpsertAt(map[], SortBy(side, ls), p);
      UpsertAt(map[], ls, p);
      SortKeepsLast(side, ls, p);
    }
    SameLookups(Upsert(map[], SortBy(side, ls)), Upsert(map[], ls));
  }

  // A snapshot of which something survives MaxLevel(n) is cut after its n best entries, so its side is the
  // top n exactly when those entries have n prices and are current. Repeated prices can use up the n.
  lemma {:induction false} SnapshotIsTopExactlyWhen(b: Book, other: Book, ws: seq<WireLevel>, side: Side, n: nat)
    requires Survives(ws, side, Some(MaxLevel(n)))
    ensures IsTop(side, SideProcessed(b, Snapshot, ws, side, Some(MaxLevel(n))).On(side),
                  SideProcessed(other, Snapshot, ws, side, None).On(side), n)
       <==> FirstAreTop(side, SortBy(side, Positive(Parsed(ws))), n)
  {
    var sorted := SortBy(side, Positive(Parsed(ws)));
    SortBySorts(side, Positive(Parsed(ws)));
    SortBuildsTheSame(side, Positive(Parsed(ws)));
    ParsedWire(Take(sorted, n));
    TakeMembers(sorted, n);
    PositiveId(Take(sorted, n));
    FirstAreTopExactlyWhen(side, sorted, n);
  }

  // The filtered best is not always the true best: a full side refuses a better price.
  lemma {:induction false} BetterBidIsRefused()
    ensures var b := Book(map[1.0 := 1.0], map[]);
      var ws := [Some(Level(2.0, 1.0))];
      && Best(Bid, SideProcessed(b, Update, ws, Bid, Some(MaxLevel(1))).bids) == Some(1.0)
      && Best(Bid, SideProcessed(b, Update, ws, Bid, None).bids) == Some(2.0)
  {
    var b := Book(map[1.0 := 1.0], map[]);
    MaxLevelUpdate(b, [Some(Level(2.0, 1.0))], Bid, 1);
    ParsedOne(Level(2.0, 1.0));
    OneUpsert(b.bids, 2.0, 1.0);
    assert Restrict(map[1.0 := 1.0, 2.0 := 1.0], {1.0}) == map[1.0 := 1.0];
    assert 2.0 in b.bids[2.0 := 1.0];
  }

  // Nor are there always at most n levels: the count is read once, so a batch can overshoot.
  lemma {:induction false} TwoBidsOvershoot()
    ensures var ws := [Some(Level(1.0, 1.0)), Some(Level(2.0, 1.0))];
      SideProcessed(EMPTY_BOOK, Update, ws, Bid, Some(MaxLevel(1))).bids == map[1.0 := 1.0, 2.0 := 1.0]
  {
    var ws := [Some(Level(1.0, 1.0)), Some(Level(2.0, 1.0))];
    MaxLevelUpdate(EMPTY_BOOK, ws, Bid, 1);
    assert ws[1..] == [Some(Level(2.0, 1.0))];
    ParsedOne(Level(2.0, 1.0));
    assert Parsed(ws) == [Level(1.0, 1.0), Level(2.0, 1.0)];
    assert Parsed(ws)[1..] == [Level(2.0, 1.0)];
    OneUpsert(map[1.0 := 1.0], 2.0, 1.0);
  }

  // ----- size bound -----

  ghost predicate SmallUpdates(msgs: seq<Message>, batch: nat) {
    forall m :: m in msgs && m.data.Some? && ActionOf(m).Update? ==>
      |m.data.value.bids| <= batch && |m.data.value.asks| <= batch
  }

  function Bound(max: nat, batch: nat): nat {
    if max == 0 then 0 else max - 1 + batch
  }

  lemma {:induction false} MaxLevelSideSize(b: Book, action: Action, ws: seq<WireLevel>, side: Side, max: nat)
    ensures var after := SideProcessed(b, action, ws, side, Some(MaxLevel(max))).On(side);
      match action
      case Snapshot => after == b.On(side) || |after| <= max
      case Update => if |b.On(side)| < max then |after| <= |b.On(side)| + |ws| else |after| <= |b.On(side)|
      case Other => after == b.On(side)
  {
    match action {
      case Snapshot =>
        if ws != [] {
          var kept := SnapshotKept(b, ws, side, MaxLevel(max), BestPrice(side, Parsed(ws)));
          FromSnapshotSize(Parsed(kept));
        }
      case Update =>
        MaxLevelUpdate(b, ws, side, max);
        var all := Upsert(b.On(side), Parsed(ws));
        UpsertSize(b.On(side), Parsed(ws));
        SubsetSize(Restrict(all, b.On(side).Keys).Keys, b.On(side).Keys);
      case Other =>
    }
  }

  // The count is read once per batch, so a side can overshoot, but by less than one batch.
  lemma {:induction false} RunSize(msgs: seq<Message>, max: nat, batch: nat)
    requires batch >= 1 && SmallUpdates(msgs, batch)
    ensures var b := ProcessedAll(msgs, Some(MaxLevel(max)));
      |b.bids| <= Bound(max, batch) && |b.asks| <= Bound(max, batch)
  {
    if msgs != [] {
      var front, last := msgs[..|msgs| - 1], msgs[|msgs| - 1];
      RunSize(front, max, batch);
      assert last in msgs;
      if last.data.Some? {
        var b := ProcessedAll(front, Some(MaxLevel(max)));
        var action, data := ActionOf(last), last.data.value;
        MaxLevelSideSize(b, action, data.bids, Bid, max);
        MaxLevelSideSize(SideProcessed(b, action, data.bids, Bid, Some(MaxLevel(max))), action, data.asks, Ask, max);
      }
    }
  }

  function Ladder(from: nat, n: nat): seq<Level> {
    seq(n, i requires 0 <= i < n => Level((from + i) as real, 1.0))
  }

  lemma {:induction false} LadderFacts(from: nat, n: nat)
    ensures DistinctPrices(Ladder(from, n)) && Positive(Ladder(from, n)) == Ladder(from, n)
  {
    PositiveId(Ladder(from, n));
  }

  lemma {:induction false} LadderSize(n: nat)
    ensures |FromSnapshot(Ladder(0, n))| == n
  {
    LadderFacts(0, n);
    ListingOfSnapshot(Bid, Ladder(0, n));
    SortBySorts(Bid, Ladder(0, n));
  }

  lemma {:induction false} LadderSplit(n: nat, batch: nat)
    ensures Ladder(0, n) + Ladder(n, batch) == Ladder(0, n + batch)
  {
  }

  lemma {:induction false} LadderExtends(n: nat, batch: nat)
    ensures |Upsert(FromSnapshot(Ladder(0, n)), Ladder(n, batch))| == n + batch
  {
    var low, high := Ladder(0, n), Ladder(n, batch);
    LadderSplit(n, batch);
    LadderFacts(0, n);
    LadderFacts(0, n + batch);
    UpsertAppend(map[], low, high);
    LadderSize(n + batch);
  }

  // A message that lists bids only; without an action it is a snapshot.
  lemma {:induction false} BidsOnly(b: Book, ws: seq<WireLevel>, action: Option<Action>, filter: Option<LobFilter>)
    ensures Processed(b, Message(Some(Data(ws, [])), action), filter)
         == SideProcessed(b, if action == None then Snapshot else action.value, ws, Bid, filter)
  {
  }

  lemma {:induction false} TwoMessages(m0: Message, m1: Message, filter: Option<LobFilter>)
    ensures ProcessedAll([m0, m1], filter) == Processed(Processed(EMPTY_BOOK, m0, filter), m1, filter)
  {
    assert [m0, m1][..1] == [m0];
    assert [m0][..0] == [];
    assert ProcessedAll([m0], filter) == Processed(EMPTY_BOOK, m0, filter);
  }

  function BidMessage(ls: seq<Level>, action: Option<Action>): Message {
    Message(Some(Data(Wire(ls), [])), action)
  }

  lemma {:induction false} Fill(n: nat, max: nat)
    requires n <= max
    ensures Processed(EMPTY_BOOK, BidMessage(Ladder(0, n), None), Some(MaxLevel(max)))
         == Book(FromSnapshot(Ladder(0, n)), map[])
  {
    BidsOnly(EMPTY_BOOK, Wire(Ladder(0, n)), None, Some(MaxLevel(max)));
    FillIsKept(Ladder(0, n), max);
  }

  lemma {:induction false} Add(b: Book, ls: seq<Level>, max: nat)
    requires |b.bids| < max
    ensures Processed(b, BidMessage(ls, Some(Update)), Some(MaxLevel(max))).bids == Upsert(b.bids, ls)
  {
    BidsOnly(b, Wire(ls), Some(Update), Some(MaxLevel(max)));
    MaxLevelUpdate(b, Wire(ls), Bid, max);
    ParsedWire(ls);
  }

  lemma {:induction false} FillThenAdd(max: nat, batch: nat)
    requires max >= 1
    ensures var fill, add := BidMessage(Ladder(0, max - 1), None), BidMessage(Ladder(max - 1, batch), Some(Update));
      |ProcessedAll([fill, add], Some(MaxLevel(max))).bids| == Bound(max, batch)
  {
    var low, high := Ladder(0, max - 1), Ladder(max - 1, batch);
    TwoMessages(BidMessage(low, None), BidMessage(high, Some(Update)), Some(MaxLevel(max)));
    Fill(max - 1, max);
    LadderSize(max - 1);
    Add(Book(FromSnapshot(low), map[]), high, max);
    LadderExtends(max - 1, batch);
  }

  // The bound is reached: fill to one below max, then add one whole batch.
  lemma {:induction false} BoundIsReached(max: nat, batch: nat) returns (msgs: seq<Message>)
    requires max >= 1 && batch >= 1
    ensures SmallUpdates(msgs, batch)
    ensures |ProcessedAll(msgs, Some(MaxLevel(max))).bids| == Bound(max, batch)
  {
    FillThenAdd(max, batch);
    msgs := [BidMessage(Ladder(0, max - 1), None), BidMessage(Ladder(max - 1, batch), Some(Update))];
  }

  lemma {:induction false} SortedBuildsTheSame(ls: seq<Level>)
    requires DistinctPrices(ls) && forall l :: l in ls ==> l.amount > 0.0
    ensures FromSnapshot(SortBy(Bid, ls)) == FromSnapshot(ls)
  {
    PositiveId(ls);
    SortBySorts(Bid, ls);
    SortIsStrict(Bid, ls);
    ListingOfSorted(Bid, SortBy(Bid, ls));
    ListingOfSnapshot(Bid, ls);
    ListingRoundTrip(Bid, FromSnapshot(SortBy(Bid, ls)));
    ListingRoundTrip(Bid, FromSnapshot(ls));
  }

  lemma {:induction false} FillIsKept(ls: seq<Level>, max: nat)
    requires |ls| <= max && DistinctPrices(ls) && forall l :: l in ls ==> l.amount > 0.0
    ensures SideProcessed(EMPTY_BOOK, Snapshot, Wire(ls), Bid, Some(MaxLevel(max))) == Book(FromSnapshot(ls), map[])
  {
    ParsedWire(ls);
    PositiveId(ls);
    SortBySorts(Bid, ls);
    ParsedWire(SortBy(Bid, ls));
    SortedBuildsTheSame(ls);
  }

  // ----- MaxLevelPct -----

  // The window of a snapshot is anchored at the best price of the batch, stored or not.
  function SnapshotAnchor(ws: seq<WireLevel>, side: Side): Option<real> {
    BestPrice(side, Parsed(ws))
  }

  lemma {:induction false} UpToAll(ls: seq<Level>, side: Side, threshold: real)
    requires forall l :: l in ls ==> !Better(side, threshold, l.price)
    ensures UpTo(ls, side, threshold) == ls
  {
    if ls != [] {
      assert ls[0] in ls;
      UpToAll(ls[1..], side, threshold);
    }
  }

  lemma {:induction false} PctSnapshotKept(b: Book, ws: seq<WireLevel>, side: Side, pct: real)
    ensures forall l :: Some(l) in SnapshotKept(b, ws, side, MaxLevelPct(pct), BestPrice(side, Parsed(ws))) <==>
              Some(l) in ws
              && (l.amount == 0.0 || MaxLevelPct(pct).InWindow(SnapshotAnchor(ws, side), l.price, side.Bid?))
    ensures forall w :: w in ws && w.None? ==>
              w in SnapshotKept(b, ws, side, MaxLevelPct(pct), BestPrice(side, Parsed(ws)))
  {
    var best := BestPrice(side, Parsed(ws));
    var bestBid := if side.Bid? then best else Best(Bid, b.bids);
    var bestAsk := if side.Ask? then best else Best(Ask, b.asks);
    var keep := (l: Level) => MaxLevelPct(pct).ShouldInclude(bestBid, bestAsk, l.price, l.amount, side.Bid?, 0, false);
    assert SnapshotKept(b, ws, side, MaxLevelPct(pct), best) == Filtered(ws, keep);
    FilteredMembers(ws, keep);
    FilteredNones(ws, keep);
  }

  lemma {:induction false} FilteredNones(ws: seq<WireLevel>, keep: Level -> bool)
    ensures forall w :: w in ws && w.None? ==> w in Filtered(ws, keep)
  {
    if ws != [] { FilteredNones(ws[1..], keep); }
  }

  lemma {:induction false} Scale(x: real, y: real, k: real)
    requires x <= y && k >= 0.0
    ensures x * k <= y * k
  {
  }

  // A price inside the window of the anchor is inside the window of any price no better than the anchor.
  lemma {:induction false} WindowOfWorseBest(side: Side, pct: real, anchor: real, best: real, p: real)
    requires 0.0 <= pct <= 100.0
    requires !Better(side, best, anchor)
    requires MaxLevelPct(pct).InWindow(Some(anchor), p, side.Bid?)
    ensures MaxLevelPct(pct).InWindow(Some(best), p, side.Bid?)
  {
    if side.Bid? {
      ThresholdMonotone(MaxLevelPct(pct), best, anchor, true);
    } else {
      ThresholdMonotone(MaxLevelPct(pct), anchor, best, false);
    }
  }

  lemma {:induction false} ThresholdMonotone(f: LobFilter, x: real, y: real, sideIsBid: bool)
    requires f.MaxLevelPct? && x <= y && f.Factor(sideIsBid) >= 0.0
    ensures f.Threshold(x, sideIsBid) <= f.Threshold(y, sideIsBid)
  {
    Scale(x, y, f.Factor(sideIsBid));
  }

  lemma {:induction false} StoredIsInWindow(b: Book, ws: seq<WireLevel>, side: Side, pct: real, p: real)
    requires p in FromSnapshot(Parsed(SnapshotKept(b, ws, side, MaxLevelPct(pct), BestPrice(side, Parsed(ws)))))
    ensures SnapshotAnchor(ws, side).Some?
    ensures !Better(side, p, SnapshotAnchor(ws, side).value)
    ensures MaxLevelPct(pct).InWindow(SnapshotAnchor(ws, side), p, side.Bid?)
  {
    var kept := SnapshotKept(b, ws, side, MaxLevelPct(pct), BestPrice(side, Parsed(ws)));
    StoredIsKept(kept, p);
    PctSnapshotKept(b, ws, side, pct);
    ParsedMembers(ws);
    var l :| Some(l) in kept && l.amount > 0.0 && l.price == p;
    assert l in Parsed(ws);
  }

  // After a snapshot side is applied under MaxLevelPct, the same window over the book shows all of it.
  lemma {:induction false} SnapshotFillsItsWindow(b: Book, ws: seq<WireLevel>, side: Side, pct: real, book: OrderBook)
    requires 0.0 <= pct <= 100.0
    requires Survives(ws, side, Some(MaxLevelPct(pct)))
    requires book.State() == SideProcessed(b, Snapshot, ws, side, Some(MaxLevelPct(pct)))
    ensures if side.Bid? then book.LevelsWithinPct(pct).0 == Listing(Bid, book.bids)
            else book.LevelsWithinPct(pct).1 == Listing(Ask, book.asks)
  {
    KeptIffSurvives(b, ws, side, Some(MaxLevelPct(pct)));
    WindowOfSnapshot(b, ws, side, pct);
  }

  lemma {:induction false} WindowOfSnapshot(b: Book, ws: seq<WireLevel>, side: Side, pct: real)
    requires 0.0 <= pct <= 100.0
    ensures var m := FromSnapshot(Parsed(SnapshotKept(b, ws, side, MaxLevelPct(pct), BestPrice(side, Parsed(ws)))));
      WithinPct(side, m, pct) == Listing(side, m)
  {
    var m := FromSnapshot(Parsed(SnapshotKept(b, ws, side, MaxLevelPct(pct), BestPrice(side, Parsed(ws)))));
    forall l | l in Listing(side, m) ensures MaxLevelPct(pct).InWindow(Best(side, m), l.price, side.Bid?) {
      assert l.price in m;
      var best := Best(side, m).value;
      StoredIsInWindow(b, ws, side, pct, best);
      StoredIsInWindow(b, ws, side, pct, l.price);
      WindowOfWorseBest(side, pct, SnapshotAnchor(ws, side).value, best, l.price);
    }
    AllWithinPct(side, m, pct);
  }

  lemma {:induction false} AllWithinPct(side: Side, m: Levels, pct: real)
    requires forall l :: l in Listing(side, m) ==> MaxLevelPct(pct).InWindow(Best(side, m), l.price, side.Bid?)
    ensures WithinPct(side, m, pct) == Listing(side, m)
  {
    if m != map[] {
      var threshold := MaxLevelPct(pct).Threshold(Best(side, m).value, side.Bid?);
      forall l | l in Listing(side, m) ensures !Better(side, threshold, l.price) {
        assert MaxLevelPct(pct).InWindow(Best(side, m), l.price, side.Bid?);
      }
      UpToAll(Listing(side, m), side, threshold);
    }
  }

  lemma {:induction false} PctSnapshotBuild(b: Book, ws: seq<WireLevel>, side: Side, pct: real, p: real)
    ensures var kept := SnapshotKept(b, ws, side, MaxLevelPct(pct), BestPrice(side, Parsed(ws)));
      Lookup(FromSnapshot(Parsed(kept)), p)
      == if MaxLevelPct(pct).InWindow(SnapshotAnchor(ws, side), p, side.Bid?)
         then Lookup(FromSnapshot(Parsed(ws)), p) else None
  {
    var best := BestPrice(side, Parsed(ws));
    var bestBid := if side.Bid? then best else Best(Bid, b.bids);
    var bestAsk := if side.Ask? then best else Best(Ask, b.asks);
    var keep := (l: Level) => MaxLevelPct(pct).ShouldInclude(bestBid, bestAsk, l.price, l.amount, side.Bid?, 0, false);
    assert SnapshotKept(b, ws, side, MaxLevelPct(pct), best) == Filtered(ws, keep);
    WindowedSnapshot(ws, keep, p, MaxLevelPct(pct).InWindow(best, p, side.Bid?));
  }

  // A snapshot side under the window, when anything of it survives, is the unfiltered one cut to the
  // window; when nothing does, the old side stays.
  lemma {:induction false} PctSnapshotIsTheWindow(b: Book, ws: seq<WireLevel>, side: Side, pct: real, p: real)
    ensures Lookup(SideProcessed(b, Snapshot, ws, side, Some(MaxLevelPct(pct))).On(side), p)
         == if !Survives(ws, side, Some(MaxLevelPct(pct))) then Lookup(b.On(side), p)
            else if MaxLevelPct(pct).InWindow(SnapshotAnchor(ws, side), p, side.Bid?)
            then Lookup(FromSnapshot(Parsed(ws)), p)
            else None
  {
    KeptIffSurvives(b, ws, side, Some(MaxLevelPct(pct)));
    PctSnapshotBuild(b, ws, side, pct, p);
  }

  // An update under the window: inside it nothing is lost; outside it only removals get through.
  lemma {:induction false} PctUpdate(b: Book, ws: seq<WireLevel>, side: Side, pct: real, p: real)
    ensures var m := b.On(side);
      Lookup(SideProcessed(b, Update, ws, side, Some(MaxLevelPct(pct))).On(side), p)
      == if InSideWindow(side, m, pct, p) then Lookup(Upsert(m, Parsed(ws)), p)
         else if Some(Level(p, 0.0)) in ws then None
         else Lookup(m, p)
  {
    var f, m := MaxLevelPct(pct), b.On(side);
    var bb, ba := Best(Bid, b.bids), Best(Ask, b.asks);
    var keep := (l: Level) => f.ShouldInclude(bb, ba, l.price, l.amount, side.Bid?, |m|, l.price in m);
    UpdateIsUpsert(b, ws, side, f);
    assert UpdateKept(b, ws, side, f) == Filtered(ws, keep);
    WindowIsSideWindow(side, m, pct, p);
    WindowedUpdate(m, ws, keep, p, f.InWindow(Best(side, m), p, side.Bid?));
  }

  // ----- when a snapshot replaces a side -----

  // Whether anything of a snapshot side is left after filtering, read off the list alone.
  ghost predicate Survives(ws: seq<WireLevel>, side: Side, filter: Option<LobFilter>) {
    match filter
    case None => ws != []
    case Some(MaxLevel(n)) => n >= 1 && Positive(Parsed(ws)) != []
    case Some(MaxLevelPct(pct)) =>
      exists w :: w in ws && (w.None? || w.value.amount == 0.0
                              || MaxLevelPct(pct).InWindow(SnapshotAnchor(ws, side), w.value.price, side.Bid?))
  }

  lemma {:induction false} KeptIffSurvives(b: Book, ws: seq<WireLevel>, side: Side, filter: Option<LobFilter>)
    ensures Kept(b, Snapshot, ws, side, filter) != [] <==> Survives(ws, side, filter)
  {
    match filter {
      case None =>
      case Some(MaxLevel(n)) =>
        SortBySorts(side, Positive(Parsed(ws)));
      case Some(MaxLevelPct(pct)) =>
        var kept := SnapshotKept(b, ws, side, MaxLevelPct(pct), BestPrice(side, Parsed(ws)));
        PctSnapshotKept(b, ws, side, pct);
        PctSnapshotInvents(b, ws, side, pct);
        if kept != [] {
          assert kept[0] in kept;
        }
    }
  }

  lemma {:induction false} PctSnapshotInvents(b: Book, ws: seq<WireLevel>, side: Side, pct: real)
    ensures forall w :: w in SnapshotKept(b, ws, side, MaxLevelPct(pct), BestPrice(side, Parsed(ws))) ==> w in ws
  {
    var best := BestPrice(side, Parsed(ws));
    var bestBid := if side.Bid? then best else Best(Bid, b.bids);
    var bestAsk := if side.Ask? then best else Best(Ask, b.asks);
    var keep := (l: Level) => MaxLevelPct(pct).ShouldInclude(bestBid, bestAsk, l.price, l.amount, side.Bid?, 0, false);
    assert SnapshotKept(b, ws, side, MaxLevelPct(pct), best) == Filtered(ws, keep);
    FilteredInvents(ws, keep);
  }

  // A snapshot leaves a side as the build of its kept levels exactly when something of its list
  // survives the filter, or the side was empty anyway; otherwise the old side stays whole.
  lemma {:induction false} SnapshotReplacesExactlyWhen(b: Book, ws: seq<WireLevel>, side: Side,
                                                       filter: Option<LobFilter>)
    ensures SideProcessed(b, Snapshot, ws, side, filter).On(side)
            == FromSnapshot(Parsed(Kept(b, Snapshot, ws, side, filter)))
       <==> Survives(ws, side, filter) || b.On(side) == map[]
    ensures !Survives(ws, side, filter) ==> SideProcessed(b, Snapshot, ws, side, filter) == b
  {
    KeptIffSurvives(b, ws, side, filter);
  }

  // For a whole message: each side must survive, or have been empty.
  lemma {:induction false} SnapshotReplacesBothExactlyWhen(b: Book, data: Data, filter: Option<LobFilter>)
    ensures var b' := Processed(b, Message(Some(data), Some(Snapshot)), filter);
      (&& b'.bids == FromSnapshot(Parsed(Kept(b, Snapshot, data.bids, Bid, filter)))
       && b'.asks == FromSnapshot(Parsed(Kept(b, Snapshot, data.asks, Ask, filter))))
      <==> (Survives(data.bids, Bid, filter) || b.bids == map[])
           && (Survives(data.asks, Ask, filter) || b.asks == map[])
  {
    var b1 := SideProcessed(b, Snapshot, data.bids, Bid, filter);
    SnapshotReplacesExactlyWhen(b, data.bids, Bid, filter);
    SnapshotReplacesExactlyWhen(b1, data.asks, Ask, filter);
    KeptReadsOwnSide(b, b1, data.asks, Ask, filter);
  }

  // What a filter keeps of a snapshot side does not depend on the book.
  lemma {:induction false} KeptReadsOwnSide(b: Book, other: Book, ws: seq<WireLevel>, side: Side,
                                            filter: Option<LobFilter>)
    ensures Kept(b, Snapshot, ws, side, filter) == Kept(other, Snapshot, ws, side, filter)
  {
    if filter.Some? && filter.value.MaxLevelPct? {
      var f, best := filter.value, BestPrice(side, Parsed(ws));
      var bb, ba := if side.Bid? then best else Best(Bid, b.bids), if side.Ask? then best else Best(Ask, b.asks);
      var ob := if side.Bid? then best else Best(Bid, other.bids);
      var oa := if side.Ask? then best else Best(Ask, other.asks);
      var keep := (l: Level) => f.ShouldInclude(bb, ba, l.price, l.amount, side.Bid?, 0, false);
      var keep' := (l: Level) => f.ShouldInclude(ob, oa, l.price, l.amount, side.Bid?, 0, false);
      assert SnapshotKept(b, ws, side, f, best) == Filtered(ws, keep);
      assert SnapshotKept(other, ws, side, f, best) == Filtered(ws, keep');
      FilteredSame(ws, keep, keep');
    }
  }

  // One input: a bid at 1.0, then a snapshot of asks alone. The bid outlives the snapshot.
  lemma {:induction false} OldBidOutlivesSnapshot()
    ensures var b := Book(map[1.0 := 1.0], map[]);
      var b' := Processed(b, Message(Some(Data([], [Some(Level(2.0, 1.0))])), Some(Snapshot)), None);
      b'.bids == map[1.0 := 1.0] && b'.bids != FromSnapshot(Parsed([]))
  {
    assert 1.0 in map[1.0 := 1.0];
  }

  // Another: under MaxLevelPct a negative price is outside its own window, so nothing is kept.
  lemma {:induction false} NegativePriceIsNotKept(b: Book)
    ensures SideProcessed(b, Snapshot, [Some(Level(-1.0, 1.0))], Bid, Some(MaxLevelPct(10.0))) == b
  {
    var ws := [Some(Level(-1.0, 1.0))];
    assert ws[1..] == [] && Parsed(ws) == [Level(-1.0, 1.0)];
    assert BestPrice(Bid, Parsed(ws)) == Some(-1.0) by {
      assert Parsed(ws)[0] in Parsed(ws);
    }
    WindowIsAPercentage(Bid, 10.0, -1.0, -1.0);
    SnapshotReplacesExactlyWhen(b, ws, Bid, Some(MaxLevelPct(10.0)));
  }

  // ----- no ghost prices under MaxLevelPct -----

  ghost predicate NonNegativePrices(msgs: seq<Message>) {
    forall m :: m in msgs && m.data.Some? ==> NonNegative(m.data.value.bids) && NonNegative(m.data.value.asks)
  }

  ghost predicate NonNegative(ws: seq<WireLevel>) {
    forall l :: Some(l) in ws ==> l.price >= 0.0
  }

  lemma {:induction false} AnchorInItsWindow(anchor: real, pct: real, side: Side)
    requires anchor >= 0.0 && pct >= 0.0
    ensures MaxLevelPct(pct).InWindow(Some(anchor), anchor, side.Bid?)
  {
    var k := MaxLevelPct(pct).Factor(side.Bid?);
    if side.Bid? {
      Scale(k, 1.0, anchor);
    } else {
      Scale(1.0, k, anchor);
    }
  }

  // The best level of a snapshot is within its own window, so the side is always replaced.
  lemma {:induction false} PctSnapshotNeverEmpty(b: Book, ws: seq<WireLevel>, side: Side, pct: real)
    requires pct >= 0.0 && NonNegative(ws) && ws != []
    ensures SnapshotKept(b, ws, side, MaxLevelPct(pct), BestPrice(side, Parsed(ws))) != []
  {
    PctSnapshotKept(b, ws, side, pct);
    ParsedMembers(ws);
    if Parsed(ws) == [] {
      assert ws[0].None? && ws[0] in ws;
    } else {
      var anchor := SnapshotAnchor(ws, side).value;
      var l :| l in Parsed(ws) && l.price == anchor;
      assert Some(l) in ws;
      AnchorInItsWindow(anchor, pct, side);
    }
  }

  lemma {:induction false} PctSidePrices(b: Book, full: Book, action: Action, ws: seq<WireLevel>, side: Side, pct: real)
    requires b.On(side).Keys <= full.On(side).Keys
    requires pct >= 0.0 && NonNegative(ws)
    ensures SideProcessed(b, action, ws, side, Some(MaxLevelPct(pct))).On(side).Keys
         <= SideProcessed(full, action, ws, side, None).On(side).Keys
  {
    var f := MaxLevelPct(pct);
    if ws != [] {
      match action {
        case Snapshot =>
          PctSnapshotNeverEmpty(b, ws, side, pct);
          PctSnapshotKept(b, ws, side, pct);
          var kept := SnapshotKept(b, ws, side, f, BestPrice(side, Parsed(ws)));
          forall p | p in FromSnapshot(Parsed(kept)) ensures p in FromSnapshot(Parsed(ws)) {
            StoredIsKept(kept, p);
            StoredIsKept(ws, p);
          }
        case Update =>
          UpdateIsUpsert(b, ws, side, f);
          var kept, m := UpdateKept(b, ws, side, f), b.On(side);
          var bb, ba := Best(Bid, b.bids), Best(Ask, b.asks);
          var keep := (l: Level) => f.ShouldInclude(bb, ba, l.price, l.amount, side.Bid?, |m|, l.price in m);
          assert kept == Filtered(ws, keep);
          forall p | p in Upsert(m, Parsed(kept)) ensures p in Upsert(full.On(side), Parsed(ws)) {
            UpsertAt(m, Parsed(kept), p);
            UpsertAt(full.On(side), Parsed(ws), p);
            FilteredKeepsRemoval(ws, keep, p);
          }
        case Other =>
      }
    }
  }

  // At every point of every run, the prices of the windowed book are prices of the unfiltered one.
  lemma {:induction false} NoGhostPrices(msgs: seq<Message>, pct: real)
    requires pct >= 0.0 && NonNegativePrices(msgs)
    ensures var b, full := ProcessedAll(msgs, Some(MaxLevelPct(pct))), ProcessedAll(msgs, None);
      b.bids.Keys <= full.bids.Keys && b.asks.Keys <= full.asks.Keys
  {
    if msgs != [] {
      var front, last := msgs[..|msgs| - 1], msgs[|msgs| - 1];
      NoGhostPrices(front, pct);
      assert last in msgs;
      if last.data.Some? {
        var b, full := ProcessedAll(front, Some(MaxLevelPct(pct))), ProcessedAll(front, None);
        var action, data := ActionOf(last), last.data.value;
        PctSidePrices(b, full, action, data.bids, Bid, pct);
        var b' := SideProcessed(b, action, data.bids, Bid, Some(MaxLevelPct(pct)));
        var full' := SideProcessed(full, action, data.bids, Bid, None);
        PctSidePrices(b', full', action, data.asks, Ask, pct);
      }
    }
  }
}
