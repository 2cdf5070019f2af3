/** Snapshot and diff runs: the filtered book against the unfiltered one, and its size. */
module BitstampFilterRuns {
  import opened Options
  import opened PriceLevels
  import opened TopLevels
  import opened LobFilters
  import opened LevelFilters
  import opened LevelLaws
  import opened BitstampMessages
  import opened BitstampSpec
  import opened BitstampOrders

  ghost predicate LevelListRun(msgs: seq<Message>) {
    forall m :: m in msgs ==> !IsOrder(m)
  }

  function BookDataOf(msg: Message): Option<BookData> {
    match msg
    case L2Snapshot(snapshot) => snapshot
    case L2Update(BookPayload(data), _) => Some(data)
    case _ => None
  }

  // No snapshot is cut at the snapshot depth.
  ghost predicate SnapshotsFit(msgs: seq<Message>, depth: nat) {
    forall m :: m in msgs && m.L2Snapshot? && m.snapshot.Some? ==>
      |m.snapshot.value.bids| <= depth && |m.snapshot.value.asks| <= depth
  }

  ghost predicate DistinctMessages(msgs: seq<Message>) {
    forall m :: m in msgs && BookDataOf(m).Some? ==>
      DistinctPrices(Parsed(BookDataOf(m).value.bids)) && DistinctPrices(Parsed(BookDataOf(m).value.asks))
  }

  // ----- one side, one batch -----

  lemma {:induction false} KeptInSnapshotFacts(ws: seq<WireLevel>, f: LobFilter, side: Side,
                                               bb: Option<real>, ba: Option<real>, count: nat)
    ensures forall w :: w in KeptInSnapshot(ws, f, side, bb, ba, count) ==> w in ws && w.Some? && w.value.amount > 0.0
    ensures |KeptInSnapshot(ws, f, side, bb, ba, count)| <= |ws|
    ensures f.MaxLevel? && count <= f.max ==> |KeptInSnapshot(ws, f, side, bb, ba, count)| <= f.max - count
    decreases |ws|
  {
    if ws != [] {
      assert forall w :: w in ws <==> w == ws[0] || w in ws[1..];
      KeptInSnapshotFacts(ws[1..], f, side, bb, ba,
                          if KeepInSnapshot(ws[0], f, side, bb, ba, count) then count + 1 else count);
    }
  }

  // The distinct new prices that a kept diff can add.
  ghost function NewPrices(ws: seq<WireLevel>, m: Levels): set<real> {
    if ws == [] then {}
    else
      (if ws[0].Some? && ws[0].value.amount != 0.0 && ws[0].value.price !in m then {ws[0].value.price} else {})
      + NewPrices(ws[1..], m)
  }

  lemma {:induction false} NewPricesCover(ws: seq<WireLevel>, m: Levels)
    ensures Upsert(m, Parsed(ws)).Keys <= m.Keys + NewPrices(ws, m)
  {
    NewPricesMembers(ws, m);
    ParsedMembers(ws);
    UpsertKeys(m, Parsed(ws), NewPrices(ws, m));
  }

  lemma {:induction false} NewPricesMembers(ws: seq<WireLevel>, m: Levels)
    ensures forall l :: Some(l) in ws && l.amount != 0.0 ==> l.price in m || l.price in NewPrices(ws, m)
  {
    if ws != [] {
      NewPricesMembers(ws[1..], m);
      assert forall w :: w in ws <==> w == ws[0] || w in ws[1..];
    }
  }

  lemma {:induction false} KeptInDiffRoom(ws: seq<WireLevel>, max: nat, side: Side,
                                          bb: Option<real>, ba: Option<real>, m: Levels, count: nat)
    ensures |NewPrices(KeptInDiff(ws, MaxLevel(max), side, bb, ba, m, count), m)|
         <= if count <= max then max - count else 0
    decreases |ws|
  {
    if ws != [] {
      var kept := KeptInDiff(ws, MaxLevel(max), side, bb, ba, m, count);
      if KeepInDiff(ws[0], MaxLevel(max), side, bb, ba, m, count) {
        var count' := if ws[0].value.price in m then count else count + 1;
        KeptInDiffRoom(ws[1..], max, side, bb, ba, m, count');
        assert kept[1..] == KeptInDiff(ws[1..], MaxLevel(max), side, bb, ba, m, count');
        assert kept[0] == ws[0];
      } else {
        KeptInDiffRoom(ws[1..], max, side, bb, ba, m, count);
      }
    }
  }

  // Every removal survives a diff filter, under MaxLevel every change to an existing price too, and
  // nothing is invented.
  lemma {:induction false} KeptInDiffFacts(ws: seq<WireLevel>, f: LobFilter, side: Side,
                                           bb: Option<real>, ba: Option<real>, m: Levels, count: nat)
    ensures forall w :: w in KeptInDiff(ws, f, side, bb, ba, m, count) ==> w in ws && w.Some?
    ensures forall l :: Some(l) in ws && (l.amount == 0.0 || (f.MaxLevel? && l.price in m)) ==>
              Some(l) in KeptInDiff(ws, f, side, bb, ba, m, count)
    decreases |ws|
  {
    if ws != [] {
      assert forall w :: w in ws <==> w == ws[0] || w in ws[1..];
      if KeepInDiff(ws[0], f, side, bb, ba, m, count) {
        KeptInDiffFacts(ws[1..], f, side, bb, ba, m, if ws[0].value.price in m then count else count + 1);
      } else {
        KeptInDiffFacts(ws[1..], f, side, bb, ba, m, count);
      }
    }
  }

  // If a price's last change removes it, the filter keeps that removal as the last change.
  lemma {:induction false} RemovalStaysLast(ws: seq<WireLevel>, f: LobFilter, side: Side,
                                            bb: Option<real>, ba: Option<real>, m: Levels, count: nat, p: real)
    ensures var last, kept := LastWrite(Parsed(ws), p), LastWrite(Parsed(KeptInDiff(ws, f, side, bb, ba, m, count)), p);
      && (last.None? ==> kept.None?)
      && (last == Some(0.0) ==> kept == Some(0.0))
    decreases |ws|
  {
    if ws != [] {
      var rest := Parsed(ws[1..]);
      LastWriteAppend(if ws[0].Some? then [ws[0].value] else [], rest, p);
      if KeepInDiff(ws[0], f, side, bb, ba, m, count) {
        var count' := if ws[0].value.price in m then count else count + 1;
        RemovalStaysLast(ws[1..], f, side, bb, ba, m, count', p);
        var tail := KeptInDiff(ws[1..], f, side, bb, ba, m, count');
        assert ([ws[0]] + tail)[1..] == tail;
        LastWriteAppend([ws[0].value], Parsed(tail), p);
      } else {
        RemovalStaysLast(ws[1..], f, side, bb, ba, m, count, p);
      }
    }
  }

  // Under MaxLevel a snapshot keeps exactly its first max positive levels.
  lemma {:induction false} SnapshotKeepsFirst(ws: seq<WireLevel>, max: nat, side: Side,
                                              bb: Option<real>, ba: Option<real>, count: nat)
    requires count <= max
    ensures Parsed(KeptInSnapshot(ws, MaxLevel(max), side, bb, ba, count)) == Take(Positive(Parsed(ws)), max - count)
    decreases |ws|
  {
    if ws != [] {
      if ws[0].None? {
        assert Parsed(ws) == Parsed(ws[1..]);
        SnapshotKeepsFirst(ws[1..], max, side, bb, ba, count);
      } else {
        var keep := KeepInSnapshot(ws[0], MaxLevel(max), side, bb, ba, count);
        var count' := if keep then count + 1 else count;
        SnapshotKeepsFirst(ws[1..], max, side, bb, ba, count');
        PositiveCons(ws[0].value, Parsed(ws[1..]));
        if keep {
          ParsedCons(ws[0], KeptInSnapshot(ws[1..], MaxLevel(max), side, bb, ba, count'));
          TakeCons(ws[0].value, Positive(Parsed(ws[1..])), max - count);
        }
      }
    }
  }

  // How many kept changes are at prices the book did not hold, removals included.
  function NewEntries(ws: seq<WireLevel>, m: Levels): nat {
    if ws == [] then 0
    else (if ws[0].Some? && ws[0].value.price !in m then 1 else 0) + NewEntries(ws[1..], m)
  }

  // Under MaxLevel a diff loses a change only once kept changes at new prices have filled the side.
  lemma {:induction false} DiffDropsOnlyWhenFull(ws: seq<WireLevel>, max: nat, side: Side,
                                                 bb: Option<real>, ba: Option<real>, m: Levels, count: nat)
    ensures var kept := KeptInDiff(ws, MaxLevel(max), side, bb, ba, m, count);
      forall l :: Some(l) in ws && Some(l) !in kept ==> count + NewEntries(kept, m) >= max
    decreases |ws|
  {
    if ws != [] {
      assert forall w :: w in ws <==> w == ws[0] || w in ws[1..];
      if KeepInDiff(ws[0], MaxLevel(max), side, bb, ba, m, count) {
        var count' := if ws[0].value.price in m then count else count + 1;
        DiffDropsOnlyWhenFull(ws[1..], max, side, bb, ba, m, count');
        var tail := KeptInDiff(ws[1..], MaxLevel(max), side, bb, ba, m, count');
        assert ([ws[0]] + tail)[1..] == tail;
      } else {
        DiffDropsOnlyWhenFull(ws[1..], max, side, bb, ba, m, count);
      }
    }
  }

  // Where the side is full: the entries before it that are at new prices, removals included, use up `room`.
  function FullAt(ws: seq<WireLevel>, m: Levels, room: nat): (i: nat)
    ensures i <= |ws|
  {
    if ws == [] || room == 0 then 0
    else 1 + FullAt(ws[1..], m, if ws[0].Some? && ws[0].value.price !in m then room - 1 else room)
  }

  lemma {:induction false} FullStep(ws: seq<WireLevel>, max: nat, side: Side, bb: Option<real>, ba: Option<real>,
                                    m: Levels, count: nat)
    requires count >= max && ws != []
    ensures var kept := ws[0].Some? && Known(m)(ws[0].value);
      var count' := if kept && ws[0].value.price !in m then count + 1 else count;
      Parsed(KeptInDiff(ws, MaxLevel(max), side, bb, ba, m, count))
      == (if kept then [ws[0].value] else []) + Parsed(KeptInDiff(ws[1..], MaxLevel(max), side, bb, ba, m, count'))
  {
    if ws[0].Some? && Known(m)(ws[0].value) {
      var count' := if ws[0].value.price !in m then count + 1 else count;
      ParsedCons(ws[0], KeptInDiff(ws[1..], MaxLevel(max), side, bb, ba, m, count'));
    }
  }

  lemma {:induction false} FullDiff(ws: seq<WireLevel>, max: nat, side: Side, bb: Option<real>, ba: Option<real>,
                                    m: Levels, count: nat)
    requires count >= max
    ensures Parsed(KeptInDiff(ws, MaxLevel(max), side, bb, ba, m, count)) == Parsed(Filtered(ws, Known(m)))
    decreases |ws|
  {
    if ws != [] {
      var kept := ws[0].Some? && Known(m)(ws[0].value);
      FullStep(ws, max, side, bb, ba, m, count);
      ParsedFilteredStep(ws, Known(m));
      FullDiff(ws[1..], max, side, bb, ba, m, if kept && ws[0].value.price !in m then count + 1 else count);
    }
  }

  lemma {:induction false} RoomyStep(ws: seq<WireLevel>, max: nat, side: Side, bb: Option<real>, ba: Option<real>,
                                     m: Levels, count: nat)
    requires count < max && ws != []
    ensures var count' := if ws[0].Some? && ws[0].value.price !in m then count + 1 else count;
      Parsed(KeptInDiff(ws, MaxLevel(max), side, bb, ba, m, count))
      == (if ws[0].Some? then [ws[0].value] else [])
         + Parsed(KeptInDiff(ws[1..], MaxLevel(max), side, bb, ba, m, count'))
  {
    var count' := if ws[0].Some? && ws[0].value.price !in m then count + 1 else count;
    ParsedCons(ws[0], KeptInDiff(ws[1..], MaxLevel(max), side, bb, ba, m, count'));
  }

  lemma {:induction false} SplitStep(ws: seq<WireLevel>, i: nat)
    requires i < |ws|
    ensures ws[i + 1..] == ws[1..][i..]
    ensures Parsed(ws[..i + 1]) == (if ws[0].Some? then [ws[0].value] else []) + Parsed(ws[1..][..i])
  {
    assert ws[..i + 1] == [ws[0]] + ws[1..][..i];
    ParsedCons(ws[0], ws[1..][..i]);
  }

  // What MaxLevel keeps of any diff: all of it until the side is full, and from there on the removals
  // and the changes to prices the side held before.
  lemma {:induction false} DiffKeepsExactly(ws: seq<WireLevel>, max: nat, side: Side, bb: Option<real>,
                                            ba: Option<real>,
                                            m: Levels, count: nat)
    requires count <= max
    ensures var i := FullAt(ws, m, max - count);
      Parsed(KeptInDiff(ws, MaxLevel(max), side, bb, ba, m, count))
      == Parsed(ws[..i]) + Parsed(Filtered(ws[i..], Known(m)))
    decreases |ws|
  {
    if ws == [] {
    } else if count == max {
      FullDiff(ws, max, side, bb, ba, m, count);
      assert ws[..0] == [] && ws[0..] == ws;
    } else {
      var count' := if ws[0].Some? && ws[0].value.price !in m then count + 1 else count;
      var i := FullAt(ws[1..], m, max - count');
      assert FullAt(ws, m, max - count) == i + 1;
      DiffKeepsExactly(ws[1..], max, side, bb, ba, m, count');
      RoomyStep(ws, max, side, bb, ba, m, count);
      SplitStep(ws, i);
      Associative(if ws[0].Some? then [ws[0].value] else [], Parsed(ws[1..][..i]),
                  Parsed(Filtered(ws[i + 1..], Known(m))));
    }
  }

  // ----- the depth cut -----

  lemma {:induction false} ParsedTake(ws: seq<WireLevel>, n: nat)
    requires |Parsed(ws)| == |ws|
    ensures Parsed(Take(ws, n)) == Take(Parsed(ws), n)
  {
    if ws != [] && n > 0 {
      ParsedTake(ws[1..], n - 1);
      TakeCons(ws[0], ws[1..], n);
      ParsedCons(ws[0], Take(ws[1..], n - 1));
      TakeCons(ws[0].value, Parsed(ws[1..]), n);
      assert ws == [ws[0]] + ws[1..];
    }
  }

  // ----- size bound -----

  lemma {:induction false} DiffSideSize(ws: seq<WireLevel>, max: nat, side: Side, bb: Option<real>, ba: Option<real>,
                                        m: Levels)
    requires |m| <= max
    ensures |Upsert(m, Parsed(KeptInDiff(ws, MaxLevel(max), side, bb, ba, m, |m|)))| <= max
  {
    var kept := KeptInDiff(ws, MaxLevel(max), side, bb, ba, m, |m|);
    KeptInDiffRoom(ws, max, side, bb, ba, m, |m|);
    NewPricesCover(kept, m);
    SubsetSize(Upsert(m, Parsed(kept)).Keys, m.Keys + NewPrices(kept, m));
    UnionSize(m.Keys, NewPrices(kept, m));
  }

  // Under MaxLevel(max), no snapshot/diff run exceeds max levels on a side, whatever its batches hold.
  lemma {:induction false} LevelRunSize(msgs: seq<Message>, max: nat, depth: nat)
    requires LevelListRun(msgs)
    ensures AtMost(ProcessedAll(EMPTY_BOOK, msgs, Some(MaxLevel(max)), depth), max)
  {
    if msgs != [] {
      var f := MaxLevel(max);
      var front, last := msgs[..|msgs| - 1], msgs[|msgs| - 1];
      var b := ProcessedAll(EMPTY_BOOK, front, Some(f), depth);
      LevelRunSize(front, max, depth);
      assert last in msgs;
      match last {
        case L2Snapshot(Some(data)) =>
          var kept := SnapshotFiltered(b, data, f);
          var bb := Or(FirstPositive(data.bids), Best(Bid, b.bids));
          var ba := Or(FirstPositive(data.asks), Best(Ask, b.asks));
          KeptInSnapshotFacts(data.bids, f, Bid, bb, ba, 0);
          KeptInSnapshotFacts(data.asks, f, Ask, bb, ba, 0);
          FromSnapshotSize(Parsed(Take(kept.bids, depth)));
          FromSnapshotSize(Parsed(Take(kept.asks, depth)));
        case L2Update(BookPayload(data), _) =>
          DiffSideSize(data.bids, max, Bid, Best(Bid, b.bids), Best(Ask, b.asks), b.bids);
          DiffSideSize(data.asks, max, Ask, Best(Bid, b.bids), Best(Ask, b.asks), b.asks);
        case _ =>
      }
    }
  }

  // ----- the percentage window -----

  lemma {:induction false} PctKeptInDiff(ws: seq<WireLevel>, f: LobFilter, side: Side, bb: Option<real>,
                                         ba: Option<real>,
                                         m: Levels, count: nat, keep: Level -> bool)
    requires f.MaxLevelPct?
    requires forall l: Level ::
               keep(l) <==> l.amount == 0.0 || f.InWindow(if side.Bid? then bb else ba, l.price, side.Bid?)
    ensures Parsed(KeptInDiff(ws, f, side, bb, ba, m, count)) == Parsed(Filtered(ws, keep))
    decreases |ws|
  {
    if ws != [] {
      if KeepInDiff(ws[0], f, side, bb, ba, m, count) {
        var count' := if ws[0].value.price in m then count else count + 1;
        PctKeptInDiff(ws[1..], f, side, bb, ba, m, count', keep);
        ParsedCons(ws[0], KeptInDiff(ws[1..], f, side, bb, ba, m, count'));
        ParsedCons(ws[0], Filtered(ws[1..], keep));
      } else {
        PctKeptInDiff(ws[1..], f, side, bb, ba, m, count, keep);
        if ws[0].None? { ParsedCons(ws[0], Filtered(ws[1..], keep)); }
      }
    }
  }

  lemma {:induction false} PctKeptInSnapshot(ws: seq<WireLevel>, f: LobFilter, side: Side, bb: Option<real>,
                                             ba: Option<real>,
                                             count: nat, keep: Level -> bool)
    requires f.MaxLevelPct?
    requires forall l: Level ::
               keep(l) <==> l.amount == 0.0 || f.InWindow(if side.Bid? then bb else ba, l.price, side.Bid?)
    ensures Positive(Parsed(KeptInSnapshot(ws, f, side, bb, ba, count))) == Positive(Parsed(Filtered(ws, keep)))
    decreases |ws|
  {
    if ws != [] {
      var kept := KeepInSnapshot(ws[0], f, side, bb, ba, count);
      var count' := if kept then count + 1 else count;
      PctKeptInSnapshot(ws[1..], f, side, bb, ba, count', keep);
      ParsedCons(ws[0], Filtered(ws[1..], keep));
      if ws[0].Some? { PositiveCons(ws[0].value, Parsed(Filtered(ws[1..], keep))); }
      if kept {
        var tail := KeptInSnapshot(ws[1..], f, side, bb, ba, count');
        ParsedCons(ws[0], tail);
        PositiveCons(ws[0].value, Parsed(tail));
      }
    }
  }

  // A diff under the window around the side's best price: inside it nothing is lost, outside it only
  // removals get through.
  lemma {:induction false} PctDiff(b: Book, data: BookData, us: Option<nat>, side: Side, pct: real, depth: nat, p: real)
    ensures var m, within := b.On(side), InSideWindow(side, b.On(side), pct, p);
      Lookup(Processed(b, L2Update(BookPayload(data), us), Some(MaxLevelPct(pct)), depth).On(side), p)
      == if within then Lookup(Upsert(m, Parsed(data.On(side))), p)
         else if Some(Level(p, 0.0)) in data.On(side) then None
         else Lookup(m, p)
  {
    var f, ws, m := MaxLevelPct(pct), data.On(side), b.On(side);
    var keep := (l: Level) => l.amount == 0.0 || f.InWindow(Best(side, m), l.price, side.Bid?);
    PctKeptInDiff(ws, f, side, Best(Bid, b.bids), Best(Ask, b.asks), m, |m|, keep);
    WindowIsSideWindow(side, m, pct, p);
    WindowedUpdate(m, ws, keep, p, f.InWindow(Best(side, m), p, side.Bid?));
  }

  lemma {:induction false} SnapshotWindow(b: Book, data: BookData, side: Side, pct: real, depth: nat, p: real)
    requires |data.On(side)| <= depth
    ensures var anchor := Or(FirstPositive(data.On(side)), Best(side, b.On(side)));
      Lookup(Processed(b, L2Snapshot(Some(data)), Some(MaxLevelPct(pct)), depth).On(side), p)
      == if MaxLevelPct(pct).InWindow(anchor, p, side.Bid?)
         then Lookup(Processed(b, L2Snapshot(Some(data)), None, depth).On(side), p) else None
  {
    var f, ws := MaxLevelPct(pct), data.On(side);
    var bb, ba := Or(FirstPositive(data.bids), Best(Bid, b.bids)), Or(FirstPositive(data.asks), Best(Ask, b.asks));
    var anchor := if side.Bid? then bb else ba;
    var keep := (l: Level) => l.amount == 0.0 || f.InWindow(anchor, l.price, side.Bid?);
    KeptInSnapshotFacts(ws, f, side, bb, ba, 0);
    PctKeptInSnapshot(ws, f, side, bb, ba, 0, keep);
    WindowedSnapshot(ws, keep, p, f.InWindow(anchor, p, side.Bid?));
  }

  // ----- simulation: filtered within unfiltered -----

  ghost predicate SubBook(a: Book, b: Book) {
    Submap(a.bids, b.bids) && Submap(a.asks, b.asks)
  }

  ghost predicate PricesWithin(a: Book, b: Book) {
    a.bids.Keys <= b.bids.Keys && a.asks.Keys <= b.asks.Keys
  }

  lemma {:induction false} DistinctSubset(ws: seq<WireLevel>, f: LobFilter, side: Side,
                                          bb: Option<real>, ba: Option<real>, count: nat)
    requires DistinctPrices(Parsed(ws))
    ensures DistinctPrices(Parsed(KeptInSnapshot(ws, f, side, bb, ba, count)))
    decreases |ws|
  {
    if ws != [] {
      var keep := KeepInSnapshot(ws[0], f, side, bb, ba, count);
      var count' := if keep then count + 1 else count;
      if ws[0].Some? {
        DistinctCons(ws[0].value, Parsed(ws[1..]));
      } else {
        assert Parsed(ws) == Parsed(ws[1..]);
      }
      DistinctSubset(ws[1..], f, side, bb, ba, count');
      if keep {
        var tail := KeptInSnapshot(ws[1..], f, side, bb, ba, count');
        KeptInSnapshotFacts(ws[1..], f, side, bb, ba, count');
        ParsedMembers(tail);
        ParsedMembers(ws[1..]);
        ParsedCons(ws[0], tail);
        DistinctCons(ws[0].value, Parsed(tail));
      }
    }
  }

  lemma {:induction false} SnapshotSidePrices(ws: seq<WireLevel>, kept: seq<WireLevel>)
    requires forall w :: w in kept ==> w in ws
    ensures FromSnapshot(Parsed(kept)).Keys <= FromSnapshot(Parsed(ws)).Keys
  {
    ParsedMembers(kept);
    ParsedMembers(ws);
    forall p | p in FromSnapshot(Parsed(kept)) ensures p in FromSnapshot(Parsed(ws)) {
      UpsertAt(map[], Positive(Parsed(kept)), p);
      LastWriteIsMember(Positive(Parsed(kept)), p);
      UpsertAt(map[], Positive(Parsed(ws)), p);
      LastWriteIsMember(Positive(Parsed(ws)), p);
    }
  }

  lemma {:induction false} SnapshotSideSubmap(ws: seq<WireLevel>, kept: seq<WireLevel>)
    requires forall w :: w in kept ==> w in ws
    requires DistinctPrices(Parsed(kept)) && DistinctPrices(Parsed(ws))
    ensures Submap(FromSnapshot(Parsed(kept)), FromSnapshot(Parsed(ws)))
  {
    ParsedMembers(kept);
    ParsedMembers(ws);
    DistinctPositive(Parsed(kept));
    DistinctPositive(Parsed(ws));
    FromSnapshotDistinct(Parsed(kept));
    FromSnapshotDistinct(Parsed(ws));
    var a, b := FromSnapshot(Parsed(kept)), FromSnapshot(Parsed(ws));
    forall p | Lookup(a, p).Some? ensures Lookup(b, p) == Lookup(a, p) {
      assert Level(p, Lookup(a, p).value) in Parsed(kept);
    }
    LookupSubmap(a, b);
  }

  lemma {:induction false} SnapshotSideWithin(ws: seq<WireLevel>, f: LobFilter, side: Side, bb: Option<real>,
                                              ba: Option<real>, depth: nat)
    requires |ws| <= depth
    ensures var kept := FromSnapshot(Parsed(Take(KeptInSnapshot(ws, f, side, bb, ba, 0), depth)));
      && kept.Keys <= FromSnapshot(Parsed(ws)).Keys
      && (DistinctPrices(Parsed(ws)) ==> Submap(kept, FromSnapshot(Parsed(ws))))
  {
    var kept := KeptInSnapshot(ws, f, side, bb, ba, 0);
    KeptInSnapshotFacts(ws, f, side, bb, ba, 0);
    SnapshotSidePrices(ws, kept);
    if DistinctPrices(Parsed(ws)) {
      DistinctSubset(ws, f, side, bb, ba, 0);
      SnapshotSideSubmap(ws, kept);
    }
  }

  lemma {:induction false} DiffSidePrices(ws: seq<WireLevel>, f: LobFilter, side: Side, bb: Option<real>,
                                          ba: Option<real>,
                       m: Levels, full: Levels)
    requires m.Keys <= full.Keys
    ensures Upsert(m, Parsed(KeptInDiff(ws, f, side, bb, ba, m, |m|))).Keys <= Upsert(full, Parsed(ws)).Keys
  {
    var kept := KeptInDiff(ws, f, side, bb, ba, m, |m|);
    forall p | p in Upsert(m, Parsed(kept)) ensures p in Upsert(full, Parsed(ws)) {
      UpsertAt(m, Parsed(kept), p);
      UpsertAt(full, Parsed(ws), p);
      RemovalStaysLast(ws, f, side, bb, ba, m, |m|, p);
    }
  }

  lemma {:induction false} DiffSideSubmap(ws: seq<WireLevel>, max: nat, side: Side, bb: Option<real>, ba: Option<real>,
                       m: Levels, full: Levels)
    requires DistinctPrices(Parsed(ws))
    requires Submap(m, full)
    ensures Submap(Upsert(m, Parsed(KeptInDiff(ws, MaxLevel(max), side, bb, ba, m, |m|))), Upsert(full, Parsed(ws)))
  {
    var kept := KeptInDiff(ws, MaxLevel(max), side, bb, ba, m, |m|);
    KeptInDiffFacts(ws, MaxLevel(max), side, bb, ba, m, |m|);
    ParsedMembers(kept);
    ParsedMembers(ws);
    forall p | p in Upsert(m, Parsed(kept))
      ensures Lookup(Upsert(full, Parsed(ws)), p) == Lookup(Upsert(m, Parsed(kept)), p)
    {
      UpsertAt(m, Parsed(kept), p);
      UpsertAt(full, Parsed(ws), p);
      LastWriteIsMember(Parsed(kept), p);
      LastWriteIsMember(Parsed(ws), p);
      if LastWrite(Parsed(kept), p).Some? {
        LastWriteOfDistinct(Parsed(ws), Level(p, LastWrite(Parsed(kept), p).value));
      }
    }
    forall p | p in Upsert(m, Parsed(kept))
      ensures p in Upsert(full, Parsed(ws)) && Upsert(m, Parsed(kept))[p] == Upsert(full, Parsed(ws))[p]
    {
      assert Lookup(Upsert(full, Parsed(ws)), p) == Lookup(Upsert(m, Parsed(kept)), p);
    }
  }

  // Under any filter, a snapshot/diff run never shows a price the unfiltered book does not have.
  lemma {:induction false} NoGhostPrices(msgs: seq<Message>, f: LobFilter, depth: nat)
    requires LevelListRun(msgs) && SnapshotsFit(msgs, depth)
    ensures PricesWithin(ProcessedAll(EMPTY_BOOK, msgs, Some(f), depth), ProcessedAll(EMPTY_BOOK, msgs, None, depth))
  {
    if msgs != [] {
      var front, last := msgs[..|msgs| - 1], msgs[|msgs| - 1];
      var b, full := ProcessedAll(EMPTY_BOOK, front, Some(f), depth), ProcessedAll(EMPTY_BOOK, front, None, depth);
      NoGhostPrices(front, f, depth);
      assert last in msgs;
      match last {
        case L2Snapshot(Some(data)) =>
          var bb := Or(FirstPositive(data.bids), Best(Bid, b.bids));
          var ba := Or(FirstPositive(data.asks), Best(Ask, b.asks));
          SnapshotSideWithin(data.bids, f, Bid, bb, ba, depth);
          SnapshotSideWithin(data.asks, f, Ask, bb, ba, depth);
        case L2Update(BookPayload(data), _) =>
          DiffSidePrices(data.bids, f, Bid, Best(Bid, b.bids), Best(Ask, b.asks), b.bids, full.bids);
          DiffSidePrices(data.asks, f, Ask, Best(Bid, b.bids), Best(Ask, b.asks), b.asks, full.asks);
        case _ =>
      }
    }
  }

  // Under MaxLevel, with distinct prices in each message, every level shown is exact.
  lemma {:induction false} MaxLevelIsExactSubmap(msgs: seq<Message>, max: nat, depth: nat)
    requires LevelListRun(msgs) && SnapshotsFit(msgs, depth) && DistinctMessages(msgs)
    ensures SubBook(ProcessedAll(EMPTY_BOOK, msgs, Some(MaxLevel(max)), depth),
                    ProcessedAll(EMPTY_BOOK, msgs, None, depth))
  {
    if msgs != [] {
      var f := MaxLevel(max);
      var front, last := msgs[..|msgs| - 1], msgs[|msgs| - 1];
      var b, full := ProcessedAll(EMPTY_BOOK, front, Some(f), depth), ProcessedAll(EMPTY_BOOK, front, None, depth);
      MaxLevelIsExactSubmap(front, max, depth);
      assert last in msgs;
      match last {
        case L2Snapshot(Some(data)) =>
          var bb := Or(FirstPositive(data.bids), Best(Bid, b.bids));
          var ba := Or(FirstPositive(data.asks), Best(Ask, b.asks));
          SnapshotSideWithin(data.bids, f, Bid, bb, ba, depth);
          SnapshotSideWithin(data.asks, f, Ask, bb, ba, depth);
        case L2Update(BookPayload(data), _) =>
          DiffSideSubmap(data.bids, max, Bid, Best(Bid, b.bids), Best(Ask, b.asks), b.bids, full.bids);
          DiffSideSubmap(data.asks, max, Ask, Best(Bid, b.bids), Best(Ask, b.asks), b.asks, full.asks);
        case _ =>
      }
    }
  }

  // Why distinct prices: the counter moves inside the batch, so of two changes at a new price the
  // second can be refused, and the filtered book keeps the older amount.
  lemma {:induction false} DuplicatePriceBreaksExactness(p: real, a: real, a': real, us: Option<nat>, depth: nat)
    requires a != 0.0 && a' != 0.0
    ensures var msgs := [L2Update(BookPayload(BookData([Some(Level(p, a)), Some(Level(p, a'))], [])), us)];
      SubBook(ProcessedAll(EMPTY_BOOK, msgs, Some(MaxLevel(1)), depth), ProcessedAll(EMPTY_BOOK, msgs, None, depth))
      <==> a == a'
  {
    var first, second := Some(Level(p, a)), Some(Level(p, a'));
    var ws := [first, second];
    var msgs := [L2Update(BookPayload(BookData(ws, [])), us)];
    assert msgs[..0] == [];
    assert ws[1..] == [second] && [second][1..] == [];
    assert KeptInDiff([second], MaxLevel(1), Bid, None, None, map[], 1) == [];
    assert KeptInDiff(ws, MaxLevel(1), Bid, None, None, map[], 0) == [first];
    assert Parsed([first]) == [Level(p, a)] && Parsed([second]) == [Level(p, a')];
    assert Parsed(ws) == [Level(p, a)] + [Level(p, a')];
    UpsertAppend(map[], [Level(p, a)], [Level(p, a')]);
    OneUpsert(map[], p, a);
    OneUpsert(map[p := a], p, a');
    assert ProcessedAll(EMPTY_BOOK, msgs, Some(MaxLevel(1)), depth).bids == map[p := a];
    assert ProcessedAll(EMPTY_BOOK, msgs, None, depth).bids == map[p := a'];
    assert p in map[p := a];
  }

  // ----- the top n levels -----

  // New prices whose last change is not a removal and comes after the side was full.
  function Refused(ws: seq<WireLevel>, m: Levels, room: nat): set<real> {
    var late := Parsed(ws[FullAt(ws, m, room)..]);
    set l | l in late && l.price !in m && LastWrite(late, l.price) != Some(0.0) :: l.price
  }

  // What such a price still holds: its last change before the side was full, if nothing removed it since.
  function Early(ws: seq<WireLevel>, m: Levels, room: nat, p: real): Option<real> {
    var i := FullAt(ws, m, room);
    var last := LastWrite(Parsed(ws[..i]), p);
    if Some(Level(p, 0.0)) in ws[i..] || last.None? then None else NonZero(last.value)
  }

  // Refused prices the filtered side lacks, and whether it holds one at an older amount.
  function Missing(ws: seq<WireLevel>, m: Levels, room: nat): set<real> {
    set p | p in Refused(ws, m, room) && Early(ws, m, room, p).None?
  }

  predicate OutdatedAt(ws: seq<WireLevel>, m: Levels, room: nat, p: real) {
    p in Refused(ws, m, room) && Early(ws, m, room, p).Some? && Early(ws, m, room, p) != LastWrite(Parsed(ws), p)
  }

  ghost predicate Outdated(ws: seq<WireLevel>, m: Levels, room: nat) {
    exists p :: OutdatedAt(ws, m, room, p)
  }

  lemma {:induction false} RefusedIff(ws: seq<WireLevel>, m: Levels, room: nat, p: real)
    ensures var last := LastWrite(Parsed(ws[FullAt(ws, m, room)..]), p);
      p in Refused(ws, m, room) <==> p !in m && last.Some? && last != Some(0.0)
  {
    LastWriteIsMember(Parsed(ws[FullAt(ws, m, room)..]), p);
  }

  lemma {:induction false} LastWriteInParts(ws: seq<WireLevel>, i: nat, p: real)
    requires i <= |ws|
    ensures LastWrite(Parsed(ws), p) == Or(LastWrite(Parsed(ws[i..]), p), LastWrite(Parsed(ws[..i]), p))
  {
    assert ws == ws[..i] + ws[i..];
    ParsedAppend(ws[..i], ws[i..]);
    LastWriteAppend(Parsed(ws[..i]), Parsed(ws[i..]), p);
  }

  lemma {:induction false} LastKnown(ws: seq<WireLevel>, m: Levels, p: real)
    ensures LastWrite(Parsed(Filtered(ws, Known(m))), p)
         == if p in m then LastWrite(Parsed(ws), p) else if Some(Level(p, 0.0)) in ws then Some(0.0) else None
    ensures LastWrite(Parsed(ws), p) == Some(0.0) ==> Some(Level(p, 0.0)) in ws
    ensures LastWrite(Parsed(ws), p).None? ==> Some(Level(p, 0.0)) !in ws
  {
    if p in m { FilteredKeepsPrice(ws, Known(m), p); } else { UnknownAt(m, ws, p); }
    LastWriteIsMember(Parsed(ws), p);
    ParsedMembers(ws);
    if Some(Level(p, 0.0)) in ws { assert Level(p, 0.0) in Parsed(ws); }
  }

  lemma {:induction false} LastWriteOfParts(all: seq<Level>, a: seq<Level>, b: seq<Level>, p: real)
    requires all == a + b
    ensures LastWrite(all, p) == Or(LastWrite(b, p), LastWrite(a, p))
  {
    LastWriteAppend(a, b, p);
  }

  lemma {:induction false} KeptInParts(ws: seq<WireLevel>, side: Side, bb: Option<real>, ba: Option<real>, m: Levels,
                                       n: nat, p: real)
    requires |m| <= n
    ensures var i := FullAt(ws, m, n - |m|);
      LastWrite(Parsed(KeptInDiff(ws, MaxLevel(n), side, bb, ba, m, |m|)), p)
      == Or(LastWrite(Parsed(Filtered(ws[i..], Known(m))), p), LastWrite(Parsed(ws[..i]), p))
  {
    var i := FullAt(ws, m, n - |m|);
    DiffKeepsExactly(ws, n, side, bb, ba, m, |m|);
    LastWriteOfParts(Parsed(KeptInDiff(ws, MaxLevel(n), side, bb, ba, m, |m|)),
                     Parsed(ws[..i]), Parsed(Filtered(ws[i..], Known(m))), p);
  }

  // Per price: the last kept change is the list's own, unless the price is refused.
  lemma {:induction false} LastKept(ws: seq<WireLevel>, side: Side, bb: Option<real>, ba: Option<real>, m: Levels,
                                    n: nat, p: real)
    requires |m| <= n
    ensures var kept := LastWrite(Parsed(KeptInDiff(ws, MaxLevel(n), side, bb, ba, m, |m|)), p);
      var last := LastWrite(Parsed(ws), p);
      if p !in Refused(ws, m, n - |m|) then kept == last
      else p !in m && last.Some? && last != Some(0.0)
           && Early(ws, m, n - |m|, p) == if kept.Some? then NonZero(kept.value) else None
  {
    var i := FullAt(ws, m, n - |m|);
    KeptInParts(ws, side, bb, ba, m, n, p);
    LastWriteInParts(ws, i, p);
    LastKnown(ws[i..], m, p);
    RefusedIff(ws, m, n - |m|, p);
  }

  // What the kept part of a diff leaves of a price, against the whole diff.
  lemma {:induction false} DiffSideAt(ws: seq<WireLevel>, side: Side, bb: Option<real>, ba: Option<real>, m: Levels,
                                      n: nat, p: real)
    requires |m| <= n
    ensures var kept := Upsert(m, Parsed(KeptInDiff(ws, MaxLevel(n), side, bb, ba, m, |m|)));
      if p in Refused(ws, m, n - |m|)
      then Lookup(kept, p) == Early(ws, m, n - |m|, p) && Lookup(Upsert(m, Parsed(ws)), p) == LastWrite(Parsed(ws), p)
      else Lookup(kept, p) == Lookup(Upsert(m, Parsed(ws)), p)
    ensures p in Refused(ws, m, n - |m|) ==> LastWrite(Parsed(ws), p).Some?
  {
    LastKept(ws, side, bb, ba, m, n, p);
    UpsertAt(m, Parsed(KeptInDiff(ws, MaxLevel(n), side, bb, ba, m, |m|)), p);
    UpsertAt(m, Parsed(ws), p);
  }

  // With room, the filtered side stays the top n exactly when no refused price is held at an older amount,
  // and either none is missing, or the side is then full and the missing prices are the worst.
  ghost predicate RoomySideKeepsTop(side: Side, m: Levels, ws: seq<WireLevel>, n: nat)
    requires |m| < n
  {
    var after, missing := Upsert(m, Parsed(ws)), Missing(ws, m, n - |m|);
    && !Outdated(ws, m, n - |m|)
    && (missing == {} || (|after| == n + |missing|
                          && forall p, q :: p in after && p !in missing && q in missing ==> Better(side, p, q)))
  }

  // `all` is the side after the whole diff, `kept` the side after what the filter lets through.
  ghost predicate SeenThrough(ws: seq<WireLevel>, m: Levels, room: nat, kept: Levels, all: Levels) {
    forall p :: if p in Refused(ws, m, room) then Lookup(kept, p) == Early(ws, m, room, p)
                                                  && Lookup(all, p) == LastWrite(Parsed(ws), p) && p in all
                else Lookup(kept, p) == Lookup(all, p)
  }

  lemma {:induction false} KeptPrices(ws: seq<WireLevel>, m: Levels, room: nat, kept: Levels, all: Levels)
    requires SeenThrough(ws, m, room, kept, all)
    ensures Missing(ws, m, room) <= all.Keys && kept.Keys == all.Keys - Missing(ws, m, room)
  {
    forall p ensures p in kept.Keys <==> p in all.Keys && p !in Missing(ws, m, room) {
      assert p in Refused(ws, m, room) || p !in Refused(ws, m, room);
    }
  }

  lemma {:induction false} ExactUnlessOutdated(ws: seq<WireLevel>, m: Levels, room: nat, kept: Levels, all: Levels)
    requires SeenThrough(ws, m, room, kept, all)
    ensures Submap(kept, all) <==> !Outdated(ws, m, room)
  {
    forall p ensures OutdatedAt(ws, m, room, p) <==> p in kept && !(p in all && all[p] == kept[p]) {
      assert p in Refused(ws, m, room) || p !in Refused(ws, m, room);
    }
    if Outdated(ws, m, room) {
      var p :| OutdatedAt(ws, m, room, p);
      assert p in kept && !(p in all && all[p] == kept[p]);
    } else {
      forall p | p in kept ensures p in all && all[p] == kept[p] {
        assert !OutdatedAt(ws, m, room, p);
      }
    }
  }

  lemma {:induction false} RoomyDiffSide(ws: seq<WireLevel>, side: Side, bb: Option<real>, ba: Option<real>,
                                         m: Levels, n: nat)
    requires |m| < n
    ensures IsTop(side, Upsert(m, Parsed(KeptInDiff(ws, MaxLevel(n), side, bb, ba, m, |m|))), Upsert(m, Parsed(ws)), n)
       <==> RoomySideKeepsTop(side, m, ws, n)
  {
    var kept, all := Upsert(m, Parsed(KeptInDiff(ws, MaxLevel(n), side, bb, ba, m, |m|))), Upsert(m, Parsed(ws));
    forall p
      ensures if p in Refused(ws, m, n - |m|) then Lookup(kept, p) == Early(ws, m, n - |m|, p)
                                                   && Lookup(all, p) == LastWrite(Parsed(ws), p) && p in all
              else Lookup(kept, p) == Lookup(all, p)
    {
      DiffSideAt(ws, side, bb, ba, m, n, p);
    }
    DiffSideSize(ws, n, side, bb, ba, m);
    KeptIsTop(ws, side, m, n, kept, all);
  }

  lemma {:induction false} KeptIsTop(ws: seq<WireLevel>, side: Side, m: Levels, n: nat, kept: Levels, all: Levels)
    requires |m| < n && |kept| <= n && all == Upsert(m, Parsed(ws)) && SeenThrough(ws, m, n - |m|, kept, all)
    ensures IsTop(side, kept, all, n) <==> RoomySideKeepsTop(side, m, ws, n)
  {
    KeptPrices(ws, m, n - |m|, kept, all);
    ExactUnlessOutdated(ws, m, n - |m|, kept, all);
    PartIsTopExactlyWhen(side, kept, all, Missing(ws, m, n - |m|), n);
  }

  // Whether a diff keeps a side the top n.
  ghost predicate DiffKeepsTop(side: Side, m: Levels, full: Levels, ws: seq<WireLevel>, n: nat) {
    if |m| < n then RoomySideKeepsTop(side, m, ws, n) else FullSideKeepsTop(side, m, full, Parsed(ws))
  }

  // For every diff: a side that is the top n of the unfiltered side stays so exactly when DiffKeepsTop.
  lemma {:induction false} DiffKeepsTopExactlyWhen(b: Book, full: Book, data: BookData, us: Option<nat>, side: Side,
                                                   n: nat, depth: nat)
    requires IsTop(side, b.On(side), full.On(side), n)
    ensures var msg := L2Update(BookPayload(data), us);
      IsTop(side, Processed(b, msg, Some(MaxLevel(n)), depth).On(side), Processed(full, msg, None, depth).On(side), n)
      <==> DiffKeepsTop(side, b.On(side), full.On(side), data.On(side), n)
  {
    var m, ws, bb, ba := b.On(side), data.On(side), Best(Bid, b.bids), Best(Ask, b.asks);
    if |m| < n {
      RoomyIsWhole(side, m, full.On(side), n);
      RoomyDiffSide(ws, side, bb, ba, m, n);
    } else {
      FullDiff(ws, n, side, bb, ba, m, |m|);
      KnownChanges(m, ws);
      FullSideBatch(side, m, full.On(side), Parsed(ws), n);
    }
  }

  lemma {:induction false} DistinctParts(all: seq<Level>, a: seq<Level>, b: seq<Level>, p: real)
    requires all == a + b && DistinctPrices(all) && LastWrite(b, p).Some?
    ensures LastWrite(a, p).None?
  {
    LastWriteIsMember(a, p);
    LastWriteIsMember(b, p);
    var y :| 0 <= y < |b| && b[y].price == p;
    forall x | 0 <= x < |a| ensures a[x].price != p {
      assert all[x].price != all[|a| + y].price;
    }
  }

  // When no price comes twice, every refused price is missing and none is held at an older amount.
  lemma {:induction false} DistinctRefusedAreMissing(ws: seq<WireLevel>, m: Levels, room: nat)
    requires DistinctPrices(Parsed(ws))
    ensures Missing(ws, m, room) == Refused(ws, m, room) && !Outdated(ws, m, room)
  {
    var i := FullAt(ws, m, room);
    assert ws == ws[..i] + ws[i..];
    ParsedAppend(ws[..i], ws[i..]);
    forall p | p in Refused(ws, m, room) ensures Early(ws, m, room, p).None? {
      RefusedIff(ws, m, room, p);
      DistinctParts(Parsed(ws), Parsed(ws[..i]), Parsed(ws[i..]), p);
    }
  }

  lemma {:induction false} CutSnapshotSide(ws: seq<WireLevel>, side: Side, bb: Option<real>, ba: Option<real>, n: nat,
                                           depth: nat)
    requires |ws| <= depth
    ensures FromSnapshot(Parsed(Take(KeptInSnapshot(ws, MaxLevel(n), side, bb, ba, 0), depth)))
         == Upsert(map[], Take(Positive(Parsed(ws)), n))
  {
    SnapshotKeepsFirst(ws, n, side, bb, ba, 0);
    KeptInSnapshotFacts(ws, MaxLevel(n), side, bb, ba, 0);
    TakeMembers(Positive(Parsed(ws)), n);
    PositiveId(Take(Positive(Parsed(ws)), n));
  }

  lemma {:induction false} SnapshotSides(b: Book, data: BookData, side: Side, n: nat, depth: nat)
    requires |data.On(side)| <= depth
    ensures var msg, positive := L2Snapshot(Some(data)), Positive(Parsed(data.On(side)));
      && Processed(b, msg, Some(MaxLevel(n)), depth).On(side) == Upsert(map[], Take(positive, n))
      && Processed(b, msg, None, depth).On(side) == Upsert(map[], positive)
  {
    var bb := Or(FirstPositive(data.bids), Best(Bid, b.bids));
    var ba := Or(FirstPositive(data.asks), Best(Ask, b.asks));
    CutSnapshotSide(data.On(side), side, bb, ba, n, depth);
  }

  // A snapshot under MaxLevel(n) is cut after its first n positive levels, so its side is the top n of the
  // unfiltered one exactly when those are the best.
  lemma {:induction false} SnapshotIsTopExactlyWhen(b: Book, other: Book, data: BookData, side: Side, n: nat,
                                                    depth: nat)
    requires |data.On(side)| <= depth
    ensures var msg := L2Snapshot(Some(data));
      IsTop(side, Processed(b, msg, Some(MaxLevel(n)), depth).On(side), Processed(other, msg, None, depth).On(side), n)
      <==> FirstAreTop(side, Positive(Parsed(data.On(side))), n)
  {
    SnapshotSides(b, data, side, n, depth);
    SnapshotSides(other, data, side, n, depth);
    FirstAreTopExactlyWhen(side, Positive(Parsed(data.On(side))), n);
  }

  // The same two new bids that overshoot an OKX side: here the second is refused, though it is the better.
  lemma {:induction false} SecondBidIsRefused(us: Option<nat>, depth: nat)
    ensures var ws := [Some(Level(1.0, 1.0)), Some(Level(2.0, 1.0))];
      && Missing(ws, map[], 1) == {2.0}
      && Processed(EMPTY_BOOK, L2Update(BookPayload(BookData(ws, [])), us), Some(MaxLevel(1)), depth).bids
         == map[1.0 := 1.0]
  {
    var first, second := Some(Level(1.0, 1.0)), Some(Level(2.0, 1.0));
    var ws := [first, second];
    assert ws[1..] == [second] && [second][1..] == [];
    assert KeptInDiff([second], MaxLevel(1), Bid, None, None, map[], 1) == [];
    assert KeptInDiff(ws, MaxLevel(1), Bid, None, None, map[], 0) == [first];
    ParsedOne(Level(1.0, 1.0));
    ParsedOne(Level(2.0, 1.0));
    OneUpsert(map[], 1.0, 1.0);
    assert FullAt(ws, map[], 1) == 1 && ws[..1] == [first];
    assert Parsed(ws[1..]) == [Level(2.0, 1.0)];
    assert LastWrite([Level(2.0, 1.0)], 2.0) == Some(1.0);
    RefusedIff(ws, map[], 1, 2.0);
    assert forall p :: p in Missing(ws, map[], 1) <==> p == 2.0;
  }

  // ----- a filter with room changes nothing -----

  // The batch fits beside what the book holds, so the counter never reaches max.
  ghost predicate HasRoom(b: Book, msg: Message, max: nat, depth: nat) {
    match msg
    case L2Snapshot(Some(data)) =>
      |data.bids| <= max && |data.asks| <= max && |data.bids| <= depth && |data.asks| <= depth
    case L2Update(BookPayload(data), _) => |b.bids| + |data.bids| <= max && |b.asks| + |data.asks| <= max
    case L2Update(OrderPayload(e), _) => e.price.Some? && e.amount.Some? && |b.bids| < max && |b.asks| < max
    case _ => true
  }

  lemma {:induction false} RoomyDiff(ws: seq<WireLevel>, max: nat, side: Side, bb: Option<real>, ba: Option<real>,
                                     m: Levels, count: nat)
    requires count + |ws| <= max
    ensures Parsed(KeptInDiff(ws, MaxLevel(max), side, bb, ba, m, count)) == Parsed(ws)
    decreases |ws|
  {
    if ws != [] {
      if ws[0].Some? {
        var count' := if ws[0].value.price in m then count else count + 1;
        RoomyDiff(ws[1..], max, side, bb, ba, m, count');
        var tail := KeptInDiff(ws[1..], MaxLevel(max), side, bb, ba, m, count');
        assert ([ws[0]] + tail)[1..] == tail;
      } else {
        RoomyDiff(ws[1..], max, side, bb, ba, m, count);
      }
    }
  }

  lemma {:induction false} RoomySnapshot(ws: seq<WireLevel>, max: nat, side: Side, bb: Option<real>, ba: Option<real>,
                                         count: nat)
    requires count + |ws| <= max
    ensures Positive(Parsed(KeptInSnapshot(ws, MaxLevel(max), side, bb, ba, count))) == Positive(Parsed(ws))
    decreases |ws|
  {
    if ws != [] {
      var keep := KeepInSnapshot(ws[0], MaxLevel(max), side, bb, ba, count);
      var count' := if keep then count + 1 else count;
      RoomySnapshot(ws[1..], max, side, bb, ba, count');
      if ws[0].Some? {
        PositiveCons(ws[0].value, Parsed(ws[1..]));
      } else {
        assert Parsed(ws) == Parsed(ws[1..]);
      }
      if keep {
        var tail := KeptInSnapshot(ws[1..], MaxLevel(max), side, bb, ba, count');
        ParsedCons(ws[0], tail);
        PositiveCons(ws[0].value, Parsed(tail));
      }
    }
  }

  // MaxLevel only ever drops what there is no room for: with room all along, the books are equal.
  lemma {:induction false} RoomyRunIsUnfiltered(msgs: seq<Message>, max: nat, depth: nat)
    requires forall i :: 0 <= i < |msgs| ==>
               HasRoom(ProcessedAll(EMPTY_BOOK, msgs[..i], None, depth), msgs[i], max, depth)
    ensures ProcessedAll(EMPTY_BOOK, msgs, Some(MaxLevel(max)), depth) == ProcessedAll(EMPTY_BOOK, msgs, None, depth)
  {
    if msgs != [] {
      var front, last := msgs[..|msgs| - 1], msgs[|msgs| - 1];
      forall i | 0 <= i < |front|
        ensures HasRoom(ProcessedAll(EMPTY_BOOK, front[..i], None, depth), front[i], max, depth)
      {
        assert front[..i] == msgs[..i];
      }
      RoomyRunIsUnfiltered(front, max, depth);
      var b := ProcessedAll(EMPTY_BOOK, front, None, depth);
      assert HasRoom(b, last, max, depth);
      match last {
        case L2Snapshot(Some(data)) =>
          var bb := Or(FirstPositive(data.bids), Best(Bid, b.bids));
          var ba := Or(FirstPositive(data.asks), Best(Ask, b.asks));
          KeptInSnapshotFacts(data.bids, MaxLevel(max), Bid, bb, ba, 0);
          KeptInSnapshotFacts(data.asks, MaxLevel(max), Ask, bb, ba, 0);
          RoomySnapshot(data.bids, max, Bid, bb, ba, 0);
          RoomySnapshot(data.asks, max, Ask, bb, ba, 0);
        case L2Update(BookPayload(data), _) =>
          RoomyDiff(data.bids, max, Bid, Best(Bid, b.bids), Best(Ask, b.asks), b.bids, |b.bids|);
          RoomyDiff(data.asks, max, Ask, Best(Bid, b.bids), Best(Ask, b.asks), b.asks, |b.asks|);
        case _ =>
      }
    }
  }
}
