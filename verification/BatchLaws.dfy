/** The OKX and Kraken book held against LevelLaws, message by message and on both sides. */
module BatchLaws {
  import opened Options
  import opened PriceLevels
  import opened LobFilters
  import opened LevelFilters
  import opened LevelLaws
  import opened BatchSpec
  import opened BatchBook
  import opened BatchRuns

  // ----- updates -----

  // The entries of an update that a filter lets through, judged by the side as it was before.
  ghost function UpdateThrough(side: Side, ws: seq<WireLevel>, m: Levels, filter: Option<LobFilter>): set<int> {
    match filter
    case None => Present(ws)
    case Some(MaxLevel(n)) =>
      set i | i in Present(ws) && (ws[i].value.amount == 0.0 || ws[i].value.price in m || |m| < n)
    case Some(MaxLevelPct(pct)) =>
      set i | i in Present(ws) && (ws[i].value.amount == 0.0 || InSideWindow(side, m, pct, ws[i].value.price))
  }

  lemma {:induction false} SideUpdate(b: Book, ws: seq<WireLevel>, side: Side, filter: Option<LobFilter>)
    ensures AppliedBy(b.On(side), ws, UpdateThrough(side, ws, b.On(side), filter),
                      SideProcessed(b, Update, ws, side, filter).On(side))
  {
    var m, through := b.On(side), UpdateThrough(side, ws, b.On(side), filter);
    PickedApply(m, ws, through);
    assert ws[0..] == ws;
    if filter.None? {
      ParsedPicks(ws, 0);
    } else {
      var f, bb, ba := filter.value, Best(Bid, b.bids), Best(Ask, b.asks);
      var keep := (l: Level) => f.ShouldInclude(bb, ba, l.price, l.amount, side.Bid?, |m|, l.price in m);
      UpdateIsUpsert(b, ws, side, f);
      assert UpdateKept(b, ws, side, f) == Filtered(ws, keep);
      forall i | i in Present(ws) ensures keep(ws[i].value) <==> i in through {
        if f.MaxLevelPct? { WindowIsSideWindow(side, m, f.pct, ws[i].value.price); }
      }
      FilteredPicks(ws, keep, through, 0);
    }
  }

  lemma {:induction false} OneSideOnly(b: Book, action: Action, ws: seq<WireLevel>, side: Side,
                                       filter: Option<LobFilter>)
    ensures side.Bid? ==> SideProcessed(b, action, ws, side, filter).asks == b.asks
    ensures side.Ask? ==> SideProcessed(b, action, ws, side, filter).bids == b.bids
  {
  }

  // An update applies to each side of the book exactly the entries of that side's list that its filter
  // lets through.
  lemma {:induction false} UpdateMessage(b: Book, data: Data, filter: Option<LobFilter>)
    ensures var b' := Processed(b, Message(Some(data), Some(Update)), filter);
      && AppliedBy(b.bids, data.bids, UpdateThrough(Bid, data.bids, b.bids, filter), b'.bids)
      && AppliedBy(b.asks, data.asks, UpdateThrough(Ask, data.asks, b.asks, filter), b'.asks)
  {
    var b1 := SideProcessed(b, Update, data.bids, Bid, filter);
    SideUpdate(b, data.bids, Bid, filter);
    OneSideOnly(b, Update, data.bids, Bid, filter);
    SideUpdate(b1, data.asks, Ask, filter);
    OneSideOnly(b1, Update, data.asks, Ask, filter);
  }

  // Under any percentage, a side with nothing stored takes an update as if there were no filter.
  lemma {:induction false} EmptySideTakesAll(b: Book, data: Data, pct: real)
    ensures var b' := Processed(b, Message(Some(data), Some(Update)), Some(MaxLevelPct(pct)));
      && (b.bids == map[] ==> AppliedBy(map[], data.bids, Present(data.bids), b'.bids))
      && (b.asks == map[] ==> AppliedBy(map[], data.asks, Present(data.asks), b'.asks))
  {
    UpdateMessage(b, data, Some(MaxLevelPct(pct)));
    assert b.bids == map[] ==> UpdateThrough(Bid, data.bids, b.bids, Some(MaxLevelPct(pct))) == Present(data.bids);
    assert b.asks == map[] ==> UpdateThrough(Ask, data.asks, b.asks, Some(MaxLevelPct(pct))) == Present(data.asks);
  }

  // A message without data, or with any other action, changes nothing.
  lemma {:induction false} OtherMessage(b: Book, msg: Message, filter: Option<LobFilter>)
    requires msg.data.None? || msg.action == Some(Other)
    ensures Processed(b, msg, filter) == b
  {
  }

  // ----- snapshots -----

  // The best price a list carries, zero amounts included.
  ghost predicate IsAnchor(side: Side, ws: seq<WireLevel>, x: real) {
    && (exists i :: i in Present(ws) && ws[i].value.price == x)
    && forall i :: i in Present(ws) ==> if side.Bid? then ws[i].value.price <= x else ws[i].value.price >= x
  }

  ghost predicate InListWindow(side: Side, ws: seq<WireLevel>, pct: real, p: real) {
    exists x :: IsAnchor(side, ws, x) && Within(side, x, pct, p)
  }

  // Entry i comes before entry j: at a better price, or earlier at the same.
  ghost predicate Ahead(side: Side, ws: seq<WireLevel>, i: int, j: int)
    requires 0 <= i < |ws| && 0 <= j < |ws| && ws[i].Some? && ws[j].Some?
  {
    var p, q := ws[i].value.price, ws[j].value.price;
    (if side.Bid? then p > q else p < q) || (p == q && i < j)
  }

  ghost function AllAhead(side: Side, ws: seq<WireLevel>, j: int): set<int>
    requires j in Positives(ws)
  {
    set i | i in Positives(ws) && Ahead(side, ws, i, j)
  }

  ghost function SnapshotThrough(side: Side, ws: seq<WireLevel>, filter: Option<LobFilter>): set<int> {
    match filter
    case None => Positives(ws)
    case Some(MaxLevel(n)) => set i | i in Positives(ws) && |AllAhead(side, ws, i)| < n
    case Some(MaxLevelPct(pct)) => set i | i in Positives(ws) && InListWindow(side, ws, pct, ws[i].value.price)
  }

  // Whether the filter leaves anything of the list, levels that do not parse and removals included.
  ghost predicate LeavesSome(side: Side, ws: seq<WireLevel>, filter: Option<LobFilter>) {
    match filter
    case None => ws != []
    case Some(MaxLevel(n)) => n > 0 && Positives(ws) != {}
    case Some(MaxLevelPct(pct)) =>
      exists i :: 0 <= i < |ws| && (ws[i].None? || ws[i].value.amount == 0.0
                                    || InListWindow(side, ws, pct, ws[i].value.price))
  }

  // What a snapshot makes of one side.
  ghost predicate SideReplaced(side: Side, ws: seq<WireLevel>, filter: Option<LobFilter>, before: Levels,
                               after: Levels) {
    if LeavesSome(side, ws, filter) then AppliedBy(map[], ws, SnapshotThrough(side, ws, filter), after)
    else after == before
  }

  lemma {:induction false} ParsedEntry(ws: seq<WireLevel>, l: Level) returns (i: int)
    requires l in Parsed(ws)
    ensures i in Present(ws) && ws[i].value == l
  {
    ParsedMembers(ws);
    i :| 0 <= i < |ws| && ws[i] == Some(l);
  }

  lemma {:induction false} EntryParsed(ws: seq<WireLevel>, i: int)
    requires i in Present(ws)
    ensures ws[i].value in Parsed(ws)
  {
    ParsedMembers(ws);
    assert ws[i] in ws;
  }

  lemma {:induction false} BestPriceIsAnchor(side: Side, ws: seq<WireLevel>, x: real)
    requires BestPrice(side, Parsed(ws)) == Some(x)
    ensures IsAnchor(side, ws, x)
  {
    var l :| l in Parsed(ws) && l.price == x;
    var i := ParsedEntry(ws, l);
    forall j | j in Present(ws) ensures !Better(side, ws[j].value.price, x) {
      EntryParsed(ws, j);
    }
  }

  lemma {:induction false} OneAnchor(side: Side, ws: seq<WireLevel>, x: real, y: real)
    requires IsAnchor(side, ws, x) && IsAnchor(side, ws, y)
    ensures x == y
  {
  }

  lemma {:induction false} AnchorIsBestPrice(side: Side, ws: seq<WireLevel>, x: real)
    ensures IsAnchor(side, ws, x) <==> BestPrice(side, Parsed(ws)) == Some(x)
  {
    if IsAnchor(side, ws, x) {
      var i :| i in Present(ws) && ws[i].value.price == x;
      EntryParsed(ws, i);
      var best := BestPrice(side, Parsed(ws)).value;
      BestPriceIsAnchor(side, ws, best);
      OneAnchor(side, ws, x, best);
    }
    if BestPrice(side, Parsed(ws)) == Some(x) { BestPriceIsAnchor(side, ws, x); }
  }

  lemma {:induction false} ListWindowIsModels(side: Side, ws: seq<WireLevel>, pct: real, i: int)
    requires i in Present(ws)
    ensures MaxLevelPct(pct).InWindow(SnapshotAnchor(ws, side), ws[i].value.price, side.Bid?)
       <==> InListWindow(side, ws, pct, ws[i].value.price)
  {
    EntryParsed(ws, i);
    var best := BestPrice(side, Parsed(ws)).value;
    BestPriceIsAnchor(side, ws, best);
    forall x | IsAnchor(side, ws, x) ensures x == best { OneAnchor(side, ws, x, best); }
    WindowIsAPercentage(side, pct, best, ws[i].value.price);
  }

  lemma {:induction false} LeavesSomeIsSurvives(side: Side, ws: seq<WireLevel>, filter: Option<LobFilter>)
    ensures LeavesSome(side, ws, filter) <==> Survives(ws, side, filter)
  {
    match filter {
      case None =>
      case Some(MaxLevel(n)) =>
        ParsedMembers(ws);
        if Positives(ws) != {} {
          var i :| i in Positives(ws);
          assert ws[i] in ws;
          assert ws[i].value in Positive(Parsed(ws));
        }
        if Positive(Parsed(ws)) != [] {
          var l := Positive(Parsed(ws))[0];
          assert l in Positive(Parsed(ws));
          assert Some(l) in ws;
          var i :| 0 <= i < |ws| && ws[i] == Some(l);
          assert i in Positives(ws);
        }
      case Some(MaxLevelPct(pct)) =>
        forall i | 0 <= i < |ws|
          ensures ws[i] in ws
          ensures ws[i].Some? ==> (MaxLevelPct(pct).InWindow(SnapshotAnchor(ws, side), ws[i].value.price, side.Bid?)
                                   <==> InListWindow(side, ws, pct, ws[i].value.price))
        {
          if ws[i].Some? { ListWindowIsModels(side, ws, pct, i); }
        }
    }
  }

  // ----- the sorted cut, by index -----

  ghost function IndexInserted(side: Side, ws: seq<WireLevel>, i: int, order: seq<int>): (longer: seq<int>)
    requires i in Positives(ws) && forall k :: 0 <= k < |order| ==> order[k] in Positives(ws)
    ensures forall k :: 0 <= k < |longer| ==> longer[k] in Positives(ws)
    decreases |order|
  {
    if order == [] || !Better(side, ws[order[0]].value.price, ws[i].value.price) then [i] + order
    else [order[0]] + IndexInserted(side, ws, i, order[1..])
  }

  ghost predicate Ordered(side: Side, ws: seq<WireLevel>, order: seq<int>) {
    && (forall k :: 0 <= k < |order| ==> order[k] in Positives(ws))
    && (forall x, y :: 0 <= x < y < |order| ==> Ahead(side, ws, order[x], order[y]))
  }

  ghost function LevelsAt(ws: seq<WireLevel>, order: seq<int>): (ls: seq<Level>)
    requires forall k :: 0 <= k < |order| ==> 0 <= order[k] < |ws| && ws[order[k]].Some?
    ensures |ls| == |order| && forall k :: 0 <= k < |ls| ==> ls[k] == ws[order[k]].value
  {
    seq(|order|, k requires 0 <= k < |order| => ws[order[k]].value)
  }

  lemma {:induction false} InsertedMembers(side: Side, ws: seq<WireLevel>, i: int, order: seq<int>)
    requires i in Positives(ws) && forall k :: 0 <= k < |order| ==> order[k] in Positives(ws)
    ensures forall j :: j in IndexInserted(side, ws, i, order) <==> j == i || j in order
    decreases |order|
  {
    if order != [] && Better(side, ws[order[0]].value.price, ws[i].value.price) {
      InsertedMembers(side, ws, i, order[1..]);
      assert order == [order[0]] + order[1..];
    }
  }

  lemma {:induction false} InsertedOrdered(side: Side, ws: seq<WireLevel>, i: int, order: seq<int>)
    requires i in Positives(ws) && Ordered(side, ws, order)
    requires forall k :: 0 <= k < |order| ==> i < order[k]
    ensures Ordered(side, ws, IndexInserted(side, ws, i, order))
    decreases |order|
  {
    if order == [] || !Better(side, ws[order[0]].value.price, ws[i].value.price) {
      forall y | 0 <= y < |order| ensures Ahead(side, ws, i, order[y]) {
        assert y > 0 ==> Ahead(side, ws, order[0], order[y]);
      }
    } else {
      var tail := IndexInserted(side, ws, i, order[1..]);
      InsertedOrdered(side, ws, i, order[1..]);
      InsertedMembers(side, ws, i, order[1..]);
      forall y | 0 <= y < |tail| ensures Ahead(side, ws, order[0], tail[y]) {
        assert tail[y] in tail;
      }
    }
  }

  lemma {:induction false} LevelsCons(ws: seq<WireLevel>, i: int, order: seq<int>)
    requires i in Present(ws) && forall k :: 0 <= k < |order| ==> order[k] in Present(ws)
    ensures LevelsAt(ws, [i] + order) == [ws[i].value] + LevelsAt(ws, order)
  {
  }

  lemma {:induction false} InsertCons(side: Side, l: Level, head: Level, tail: seq<Level>)
    ensures Insert(side, l, [head] + tail)
         == if Better(side, head.price, l.price) then [head] + Insert(side, l, tail) else [l] + ([head] + tail)
  {
    assert ([head] + tail)[1..] == tail;
  }

  lemma {:induction false} InsertedLevels(side: Side, ws: seq<WireLevel>, i: int, order: seq<int>)
    requires i in Positives(ws) && forall k :: 0 <= k < |order| ==> order[k] in Positives(ws)
    ensures LevelsAt(ws, IndexInserted(side, ws, i, order)) == Insert(side, ws[i].value, LevelsAt(ws, order))
    decreases |order|
  {
    if order == [] {
      LevelsCons(ws, i, []);
    } else {
      var head, rest := order[0], order[1..];
      assert order == [head] + rest;
      LevelsCons(ws, head, rest);
      InsertCons(side, ws[i].value, ws[head].value, LevelsAt(ws, rest));
      if Better(side, ws[head].value.price, ws[i].value.price) {
        InsertedLevels(side, ws, i, rest);
        LevelsCons(ws, head, IndexInserted(side, ws, i, rest));
      } else {
        LevelsCons(ws, i, order);
      }
    }
  }

  // The positive entries from i on, best first and earlier ones first among equals, is what the sort yields.
  lemma {:induction false} SortedOrder(side: Side, ws: seq<WireLevel>, i: nat) returns (order: seq<int>)
    requires i <= |ws|
    ensures Ordered(side, ws, order)
    ensures forall j :: j in order <==> j in Positives(ws) && j >= i
    ensures LevelsAt(ws, order) == SortBy(side, Positive(Parsed(ws[i..])))
    decreases |ws| - i
  {
    if i == |ws| {
      order := [];
    } else {
      order := SortedOrder(side, ws, i + 1);
      assert ws[i..][1..] == ws[i + 1..];
      var rest := Parsed(ws[i + 1..]);
      if ws[i].Some? { PositiveCons(ws[i].value, rest); }
      if i in Positives(ws) {
        forall k | 0 <= k < |order| ensures i < order[k] { assert order[k] in order; }
        InsertedMembers(side, ws, i, order);
        InsertedOrdered(side, ws, i, order);
        InsertedLevels(side, ws, i, order);
        assert ([ws[i].value] + Positive(rest))[1..] == Positive(rest);
        order := IndexInserted(side, ws, i, order);
      }
    }
  }

  // In that order, exactly k entries are ahead of the k-th.
  lemma {:induction false} RankIsPosition(side: Side, ws: seq<WireLevel>, order: seq<int>, k: nat)
    requires Ordered(side, ws, order) && (forall j :: j in order <==> j in Positives(ws)) && k < |order|
    ensures |AllAhead(side, ws, order[k])| == k
  {
    var ahead := set x | 0 <= x < k :: order[x];
    assert forall x :: k < x < |order| ==> Ahead(side, ws, order[k], order[x]);
    forall j ensures j in AllAhead(side, ws, order[k]) <==> j in ahead {
      if j in AllAhead(side, ws, order[k]) {
        assert j in order;
        var x :| 0 <= x < |order| && order[x] == j;
      }
    }
    assert AllAhead(side, ws, order[k]) == ahead;
    assert forall x, y :: 0 <= x < y < |order| ==> Ahead(side, ws, order[x], order[y]);
    PrefixSize(order, k);
  }

  lemma {:induction false} LastWriteAt(ls: seq<Level>, k: nat)
    requires k < |ls| && forall y :: k < y < |ls| ==> ls[y].price != ls[k].price
    ensures LastWrite(ls, ls[k].price) == Some(ls[k].amount)
  {
    if k == 0 {
      LastWriteIsMember(ls[1..], ls[0].price);
    } else {
      LastWriteAt(ls[1..], k - 1);
    }
  }

  // Building the first n of the order applies exactly the entries with fewer than n ahead of them.
  lemma {:induction false} TopEntriesApply(side: Side, ws: seq<WireLevel>, n: nat)
    ensures AppliedBy(map[], ws, SnapshotThrough(side, ws, Some(MaxLevel(n))),
                      Upsert(map[], Take(SortBy(side, Positive(Parsed(ws))), n)))
  {
    var order := SortedOrder(side, ws, 0);
    assert ws[0..] == ws;
    var through := SnapshotThrough(side, ws, Some(MaxLevel(n)));
    forall k | 0 <= k < |order| ensures order[k] in through <==> k < n {
      RankIsPosition(side, ws, order, k);
    }
    var top := Take(LevelsAt(ws, order), n);
    forall p
      ensures Untouched(ws, through, p) ==> Lookup(Upsert(map[], top), p) == None
      ensures forall i :: IsLastAt(ws, through, p, i) ==> Lookup(Upsert(map[], top), p) == Some(ws[i].value.amount)
    {
      TopEntryAt(side, ws, order, n, p);
    }
  }

  lemma {:induction false} TopEntryAt(side: Side, ws: seq<WireLevel>, order: seq<int>, n: nat, p: real)
    requires Ordered(side, ws, order) && forall j :: j in order <==> j in Positives(ws)
    requires forall k :: 0 <= k < |order| ==> (order[k] in SnapshotThrough(side, ws, Some(MaxLevel(n))) <==> k < n)
    ensures var through, top := SnapshotThrough(side, ws, Some(MaxLevel(n))), Take(LevelsAt(ws, order), n);
      && (Untouched(ws, through, p) ==> Lookup(Upsert(map[], top), p) == None)
      && forall i :: IsLastAt(ws, through, p, i) ==> Lookup(Upsert(map[], top), p) == Some(ws[i].value.amount)
  {
    var through, top := SnapshotThrough(side, ws, Some(MaxLevel(n))), Take(LevelsAt(ws, order), n);
    UpsertAt(map[], top, p);
    if Untouched(ws, through, p) { NoneOfTop(side, ws, order, n, p); }
    forall i | IsLastAt(ws, through, p, i) ensures LastWrite(top, p) == Some(ws[i].value.amount) {
      LastOfTop(side, ws, order, n, p, i);
    }
  }

  lemma {:induction false} NoneOfTop(side: Side, ws: seq<WireLevel>, order: seq<int>, n: nat, p: real)
    requires Ordered(side, ws, order) && Untouched(ws, SnapshotThrough(side, ws, Some(MaxLevel(n))), p)
    requires forall k :: 0 <= k < |order| ==> (order[k] in SnapshotThrough(side, ws, Some(MaxLevel(n))) <==> k < n)
    ensures LastWrite(Take(LevelsAt(ws, order), n), p) == None
  {
    var top := Take(LevelsAt(ws, order), n);
    LastWriteIsMember(top, p);
    forall l | l in top ensures l.price != p {
      var k :| 0 <= k < |top| && top[k] == l;
      assert order[k] in SnapshotThrough(side, ws, Some(MaxLevel(n)));
    }
  }

  lemma {:induction false} LastOfTop(side: Side, ws: seq<WireLevel>, order: seq<int>, n: nat, p: real, i: int)
    requires Ordered(side, ws, order) && forall j :: j in order <==> j in Positives(ws)
    requires var through := SnapshotThrough(side, ws, Some(MaxLevel(n)));
      && (forall k :: 0 <= k < |order| ==> (order[k] in through <==> k < n))
      && IsLastAt(ws, through, p, i)
    ensures LastWrite(Take(LevelsAt(ws, order), n), p) == Some(ws[i].value.amount)
  {
    var top := Take(LevelsAt(ws, order), n);
    assert i in order;
    var k :| 0 <= k < |order| && order[k] == i;
    forall y | k < y < |top| ensures top[y].price != top[k].price {
      assert Ahead(side, ws, order[k], order[y]);
      assert order[y] in SnapshotThrough(side, ws, Some(MaxLevel(n)));
    }
    LastWriteAt(top, k);
  }

  // ----- snapshot messages -----

  lemma {:induction false} SideSnapshot(b: Book, ws: seq<WireLevel>, side: Side, filter: Option<LobFilter>)
    ensures SideReplaced(side, ws, filter, b.On(side), SideProcessed(b, Snapshot, ws, side, filter).On(side))
  {
    LeavesSomeIsSurvives(side, ws, filter);
    KeptIffSurvives(b, ws, side, filter);
    if LeavesSome(side, ws, filter) { KeptApplies(b, ws, side, filter); }
  }

  lemma {:induction false} KeptApplies(b: Book, ws: seq<WireLevel>, side: Side, filter: Option<LobFilter>)
    ensures AppliedBy(map[], ws, SnapshotThrough(side, ws, filter),
                      FromSnapshot(Parsed(Kept(b, Snapshot, ws, side, filter))))
  {
    var through := SnapshotThrough(side, ws, filter);
    assert ws[0..] == ws;
    match filter {
      case None =>
        ParsedPicks(ws, 0);
        PositivePicks(ws, Present(ws), 0);
        assert Present(ws) * Positives(ws) == through;
        PickedApply(map[], ws, through);
      case Some(MaxLevel(n)) =>
        var sorted := SortBy(side, Positive(Parsed(ws)));
        SortBySorts(side, Positive(Parsed(ws)));
        ParsedWire(Take(sorted, n));
        PositiveId(Take(sorted, n));
        TopEntriesApply(side, ws, n);
      case Some(MaxLevelPct(pct)) => WindowApplies(b, ws, side, pct);
    }
  }

  lemma {:induction false} WindowApplies(b: Book, ws: seq<WireLevel>, side: Side, pct: real)
    ensures AppliedBy(map[], ws, SnapshotThrough(side, ws, Some(MaxLevelPct(pct))),
                      FromSnapshot(Parsed(SnapshotKept(b, ws, side, MaxLevelPct(pct), BestPrice(side, Parsed(ws))))))
  {
    var f, best := MaxLevelPct(pct), BestPrice(side, Parsed(ws));
    var bb := if side.Bid? then best else Best(Bid, b.bids);
    var ba := if side.Ask? then best else Best(Ask, b.asks);
    var keep := (l: Level) => f.ShouldInclude(bb, ba, l.price, l.amount, side.Bid?, 0, false);
    var kept := set j | 0 <= j < |ws| && ws[j].Some? && keep(ws[j].value);
    assert SnapshotKept(b, ws, side, f, best) == Filtered(ws, keep);
    assert ws[0..] == ws;
    FilteredPicks(ws, keep, kept, 0);
    PositivePicks(ws, kept, 0);
    forall i ensures i in kept * Positives(ws) <==> i in SnapshotThrough(side, ws, Some(f)) {
      if i in Positives(ws) { ListWindowIsModels(side, ws, pct, i); }
    }
    assert kept * Positives(ws) == SnapshotThrough(side, ws, Some(f));
    PickedApply(map[], ws, kept * Positives(ws));
  }

  // A snapshot, or a message that names no action, replaces each side by exactly the positive entries of
  // that side's list that its filter lets through; a side of which nothing is left stays as it was.
  lemma {:induction false} SnapshotMessage(b: Book, data: Data, action: Option<Action>, filter: Option<LobFilter>)
    requires action == None || action == Some(Snapshot)
    ensures var b' := Processed(b, Message(Some(data), action), filter);
      && SideReplaced(Bid, data.bids, filter, b.bids, b'.bids)
      && SideReplaced(Ask, data.asks, filter, b.asks, b'.asks)
  {
    var b1 := SideProcessed(b, Snapshot, data.bids, Bid, filter);
    SideSnapshot(b, data.bids, Bid, filter);
    OneSideOnly(b, Snapshot, data.bids, Bid, filter);
    SideSnapshot(b1, data.asks, Ask, filter);
    OneSideOnly(b1, Snapshot, data.asks, Ask, filter);
  }

  // ----- what the book shows -----

  // Strictly best first.
  ghost predicate BestFirst(side: Side, ls: seq<Level>) {
    forall i, j :: 0 <= i < j < |ls| ==> if side.Bid? then ls[i].price > ls[j].price else ls[i].price < ls[j].price
  }

  // The stored levels that pass a test on the price, in order.
  ghost predicate Shows(side: Side, m: Levels, ls: seq<Level>, prices: set<real>) {
    BestFirst(side, ls) && forall l :: l in ls <==> Lookup(m, l.price) == Some(l.amount) && l.price in prices
  }

  lemma {:induction false} UpToMembers(ls: seq<Level>, side: Side, threshold: real)
    requires StrictlySorted(side, ls)
    ensures StrictlySorted(side, UpTo(ls, side, threshold))
    ensures forall l :: l in UpTo(ls, side, threshold) <==> l in ls && !Better(side, threshold, l.price)
  {
    if ls != [] {
      UpToMembers(ls[1..], side, threshold);
      assert forall l :: l in ls <==> l == ls[0] || l in ls[1..];
      var tail := UpTo(ls[1..], side, threshold);
      forall j | 0 <= j < |tail| ensures Better(side, ls[0].price, tail[j].price) {
        assert tail[j] in ls[1..];
        var k :| 0 <= k < |ls[1..]| && ls[1..][k] == tail[j];
        assert ls[k + 1] == tail[j];
      }
    }
  }

  lemma {:induction false} WithinPctShows(side: Side, m: Levels, pct: real)
    ensures Shows(side, m, WithinPct(side, m, pct), set p | p in m && InSideWindow(side, m, pct, p))
  {
    var best := Best(side, m);
    if best.Some? {
      var threshold := MaxLevelPct(pct).Threshold(best.value, side.Bid?);
      UpToMembers(Listing(side, m), side, threshold);
      forall p ensures !Better(side, threshold, p) <==> InSideWindow(side, m, pct, p) {
        WindowIsSideWindow(side, m, pct, p);
      }
    }
  }

  // levels_within_pct shows exactly the stored levels within pct percent of the best stored price, best first.
  lemma {:induction false} LevelsWithinPctExactly(book: OrderBook, pct: real)
    ensures Shows(Bid, book.bids, book.LevelsWithinPct(pct).0,
                  set p | p in book.bids && InSideWindow(Bid, book.bids, pct, p))
    ensures Shows(Ask, book.asks, book.LevelsWithinPct(pct).1,
                  set p | p in book.asks && InSideWindow(Ask, book.asks, pct, p))
  {
    WithinPctShows(Bid, book.bids, pct);
    WithinPctShows(Ask, book.asks, pct);
  }

  // The prices of a side with fewer than n better ones.
  ghost function TopPrices(side: Side, m: Levels, n: nat): set<real> {
    set p | p in m && |BetterPrices(side, m, p)| < n
  }

  ghost function BetterPrices(side: Side, m: Levels, p: real): set<real> {
    set q | q in m && if side.Bid? then q > p else q < p
  }

  lemma {:induction false} FirstPrices(side: Side, m: Levels, k: nat)
    requires k < |Listing(side, m)|
    ensures |BetterPrices(side, m, Listing(side, m)[k].price)| == k
  {
    var ls := Listing(side, m);
    var prices := seq(|ls|, i requires 0 <= i < |ls| => ls[i].price);
    var ahead := set x | 0 <= x < k :: prices[x];
    forall q ensures q in BetterPrices(side, m, ls[k].price) <==> q in ahead {
      if q in BetterPrices(side, m, ls[k].price) {
        assert Level(q, m[q]) in ls;
        var x :| 0 <= x < |ls| && ls[x] == Level(q, m[q]);
        assert prices[x] == q;
      }
      if q in ahead {
        var x :| 0 <= x < k && prices[x] == q;
        assert ls[x] in ls;
      }
    }
    assert BetterPrices(side, m, ls[k].price) == ahead;
    PrefixSize(prices, k);
  }

  lemma {:induction false} TakenIff<T>(s: seq<T>, n: nat, k: nat)
    requires k < |s| && forall x, y :: 0 <= x < y < |s| ==> s[x] != s[y]
    ensures s[k] in Take(s, n) <==> k < n
  {
    if k < n { assert Take(s, n)[k] == s[k]; }
  }

  lemma {:induction false} TopShows(side: Side, m: Levels, n: nat)
    ensures Shows(side, m, Take(Listing(side, m), n), TopPrices(side, m, n))
  {
    var ls := Listing(side, m);
    TakeMembers(ls, n);
    forall l ensures l in Take(ls, n) <==> l in ls && l.price in TopPrices(side, m, n) {
      if l in ls {
        var k :| 0 <= k < |ls| && ls[k] == l;
        FirstPrices(side, m, k);
        TakenIff(ls, n, k);
      }
    }
  }

  // top_bids and top_asks show exactly the levels with fewer than n better ones, best first.
  lemma {:induction false} TopLevelsExactly(book: OrderBook, n: nat)
    ensures Shows(Bid, book.bids, book.TopBids(n), TopPrices(Bid, book.bids, n))
    ensures Shows(Ask, book.asks, book.TopAsks(n), TopPrices(Ask, book.asks, n))
  {
    TopShows(Bid, book.bids, n);
    TopShows(Ask, book.asks, n);
  }
}
