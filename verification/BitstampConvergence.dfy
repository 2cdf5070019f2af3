/** The reconciled book against the exchange's own history of books and diffs. */
module BitstampConvergence {
  import opened Options
  import opened PriceLevels
  import opened LobFilters
  import opened LevelLaws
  import opened BitstampMessages
  import opened BitstampSpec
  import opened BitstampFilterRuns
  import opened BitstampConnection
  import opened BitstampConservation

  datatype Diff = Diff(us: nat, data: BookData)

  datatype TrueBook = TrueBook(bids: Levels, asks: Levels)
  {
    function On(side: Side): Levels { if side.Bid? then bids else asks }
  }

  // books[j] is the true book before diffs[j] and books[j + 1] the true book after it.
  datatype Exchange = Exchange(diffs: seq<Diff>, books: seq<TrueBook>)

  // A price's level once its last change, if it has one, is made.
  function After(before: Option<real>, last: Option<real>): Option<real> {
    if last.None? then before else NonZero(last.value)
  }

  // Every diff leads from the book before it to the book after it.
  ghost predicate Genuine(ex: Exchange) {
    && |ex.books| == |ex.diffs| + 1
    && forall j :: 0 <= j < |ex.diffs| ==> LeadsOn(ex, j)
  }

  ghost predicate LeadsOn(ex: Exchange, j: nat)
    requires |ex.books| == |ex.diffs| + 1 && j < |ex.diffs|
  {
    var before, data, after := ex.books[j], ex.diffs[j].data, ex.books[j + 1];
    && AppliedBy(before.bids, data.bids, Present(data.bids), after.bids)
    && AppliedBy(before.asks, data.asks, Present(data.asks), after.asks)
  }

  // Diffs a to b, as the messages that carry them.
  function Msgs(ds: seq<Diff>, a: nat, b: nat): seq<Message>
    requires a <= b <= |ds|
  {
    seq(b - a, i requires 0 <= i < b - a => L2Update(BookPayload(ds[a + i].data), Some(ds[a + i].us)))
  }

  // The last amount diffs a to b give a price.
  function LastChange(ds: seq<Diff>, a: nat, b: nat, side: Side, p: real): Option<real>
    requires a <= b <= |ds|
    decreases b - a
  {
    if a == b then None
    else
      var last := LastWrite(Parsed(ds[b - 1].data.On(side)), p);
      if last.Some? then last else LastChange(ds, a, b - 1, side, p)
  }

  // ----- diffs, price by price -----

  lemma {:induction false} AllApplied(before: Levels, ws: seq<WireLevel>, after: Levels, p: real)
    requires AppliedBy(before, ws, Present(ws), after)
    ensures Lookup(after, p) == After(Lookup(before, p), LastWrite(Parsed(ws), p))
  {
    assert ws[0..] == ws;
    ParsedPicks(ws, 0);
    PickedApply(before, ws, Present(ws));
    AppliedByIsUnique(before, ws, Present(ws), after, Upsert(before, Parsed(ws)));
    UpsertAt(before, Parsed(ws), p);
  }

  lemma {:induction false} PositivesApplied(ws: seq<WireLevel>, after: Levels)
    requires AppliedBy(map[], ws, Positives(ws), after)
    ensures after == FromSnapshot(Parsed(ws))
  {
    assert ws[0..] == ws && Present(ws) * Positives(ws) == Positives(ws);
    ParsedPicks(ws, 0);
    PositivePicks(ws, Present(ws), 0);
    PickedApply(map[], ws, Positives(ws));
    AppliedByIsUnique(map[], ws, Positives(ws), after, FromSnapshot(Parsed(ws)));
  }

  lemma {:induction false} OneDiffAdvances(ex: Exchange, j: nat, side: Side, p: real)
    requires Genuine(ex) && j < |ex.diffs|
    ensures Lookup(ex.books[j + 1].On(side), p)
         == After(Lookup(ex.books[j].On(side), p), LastWrite(Parsed(ex.diffs[j].data.On(side)), p))
  {
    assert LeadsOn(ex, j);
    AllApplied(ex.books[j].On(side), ex.diffs[j].data.On(side), ex.books[j + 1].On(side), p);
  }

  // The true book b is the true book a with every price at the last of its changes in between.
  lemma {:induction false} TrueBookAdvances(ex: Exchange, a: nat, b: nat, side: Side, p: real)
    requires Genuine(ex) && a <= b <= |ex.diffs|
    ensures Lookup(ex.books[b].On(side), p)
         == After(Lookup(ex.books[a].On(side), p), LastChange(ex.diffs, a, b, side, p))
    decreases b - a
  {
    if a < b {
      TrueBookAdvances(ex, a, b - 1, side, p);
      OneDiffAdvances(ex, b - 1, side, p);
    }
  }

  lemma {:induction false} FewerDiffs(ds: seq<Diff>, a: nat, k: nat, b: nat, side: Side, p: real)
    requires a <= k <= b <= |ds| && LastChange(ds, k, b, side, p).Some?
    ensures LastChange(ds, a, b, side, p) == LastChange(ds, k, b, side, p)
    decreases b - k
  {
    if LastWrite(Parsed(ds[b - 1].data.On(side)), p).None? { FewerDiffs(ds, a, k, b - 1, side, p); }
  }

  // Diffs s..k that the snapshot already contains change nothing by the time diff n is reached.
  lemma {:induction false} StaleDiffsAreHarmless(ex: Exchange, s: nat, k: nat, n: nat, side: Side, p: real)
    requires Genuine(ex) && s <= k <= n <= |ex.diffs|
    ensures After(Lookup(ex.books[k].On(side), p), LastChange(ex.diffs, s, n, side, p))
         == Lookup(ex.books[n].On(side), p)
  {
    TrueBookAdvances(ex, s, n, side, p);
    TrueBookAdvances(ex, k, n, side, p);
    if LastChange(ex.diffs, k, n, side, p).Some? { FewerDiffs(ex.diffs, s, k, n, side, p); }
  }

  // ----- diffs folded into the client's book -----

  // Diffs a to b applied to a client's book, one at a time.
  ghost function Folded(book: Book, ds: seq<Diff>, a: nat, b: nat): Book
    requires a <= b <= |ds|
    decreases b - a
  {
    if a == b then book else DiffApplied(Folded(book, ds, a, b - 1), ds[b - 1].data)
  }

  lemma {:induction false} LastDiff(book: Book, ds: seq<Diff>, a: nat, b: nat, depth: nat)
    requires a < b <= |ds|
    ensures ProcessedAll(book, Msgs(ds, a, b), None, depth)
         == DiffApplied(ProcessedAll(book, Msgs(ds, a, b - 1), None, depth), ds[b - 1].data)
  {
    var msgs := Msgs(ds, a, b);
    assert msgs[..|msgs| - 1] == Msgs(ds, a, b - 1);
  }

  lemma {:induction false} DiffsFold(book: Book, ds: seq<Diff>, a: nat, b: nat, depth: nat)
    requires a <= b <= |ds|
    ensures ProcessedAll(book, Msgs(ds, a, b), None, depth) == Folded(book, ds, a, b)
    decreases b - a
  {
    if a == b {
      assert Msgs(ds, a, b) == [];
    } else {
      LastDiff(book, ds, a, b, depth);
      DiffsFold(book, ds, a, b - 1, depth);
    }
  }

  lemma {:induction false} FoldedOrders(book: Book, ds: seq<Diff>, a: nat, b: nat)
    requires a <= b <= |ds|
    ensures Folded(book, ds, a, b).orders == book.orders
    decreases b - a
  {
    if a < b { FoldedOrders(book, ds, a, b - 1); }
  }

  lemma {:induction false} DiffAppliedAt(book: Book, data: BookData, side: Side, p: real)
    ensures Lookup(DiffApplied(book, data).On(side), p)
         == After(Lookup(book.On(side), p), LastWrite(Parsed(data.On(side)), p))
  {
    UpsertAt(book.On(side), Parsed(data.On(side)), p);
  }

  lemma {:induction false} FoldedAt(book: Book, ds: seq<Diff>, a: nat, b: nat, side: Side, p: real)
    requires a <= b <= |ds|
    ensures Lookup(Folded(book, ds, a, b).On(side), p) == After(Lookup(book.On(side), p), LastChange(ds, a, b, side, p))
    decreases b - a
  {
    if a < b {
      FoldedAt(book, ds, a, b - 1, side, p);
      DiffAppliedAt(Folded(book, ds, a, b - 1), ds[b - 1].data, side, p);
    }
  }

  // ----- what the connection feeds the book -----

  // The snapshot's positive levels are the true book after k diffs, and none is cut off.
  ghost predicate SnapshotOf(ex: Exchange, k: nat, data: BookData, depth: nat)
    requires Genuine(ex) && k <= |ex.diffs|
  {
    && |data.bids| <= depth && |data.asks| <= depth
    && AppliedBy(map[], data.bids, Positives(data.bids), ex.books[k].bids)
    && AppliedBy(map[], data.asks, Positives(data.asks), ex.books[k].asks)
  }

  // A gap-free stream of diffs start..n of a genuine exchange, and no live snapshots.
  ghost predicate Streams(inputs: seq<Input>, ex: Exchange, start: nat, n: nat) {
    && Genuine(ex) && start <= n <= |ex.diffs|
    && Updates(inputs) == Msgs(ex.diffs, start, n)
    && (forall input :: input in inputs ==> !input.msg.L2Snapshot?)
    && ConfirmedAt(inputs) < |inputs|
  }

  // The one snapshot request was answered with the book after k diffs, and its timestamp says so; without
  // a timestamp, the diffs' own are positive.
  ghost predicate Answered(inputs: seq<Input>, ex: Exchange, k: nat, depth: nat)
    requires Genuine(ex) && k <= |ex.diffs| && ConfirmedAt(inputs) < |inputs|
  {
    match inputs[ConfirmedAt(inputs)].rest
    case Snapshot(data, Some(us)) =>
      SnapshotOf(ex, k, data, depth) && forall j :: 0 <= j < |ex.diffs| ==> (ex.diffs[j].us <= us <==> j < k)
    case Snapshot(data, None) =>
      SnapshotOf(ex, k, data, depth) && forall j :: 0 <= j < |ex.diffs| ==> ex.diffs[j].us > 0
    case _ => false
  }

  // The snapshot is no older than the diff before the first one received, and diff k has arrived.
  ghost predicate Follows(inputs: seq<Input>, ex: Exchange, start: nat, k: nat, n: nat, depth: nat) {
    Streams(inputs, ex, start, n) && start <= k <= n && Answered(inputs, ex, k, depth)
  }

  lemma {:induction false} NewerIsSuffix(msgs: seq<Message>, us: nat, j: nat)
    requires j <= |msgs|
    requires forall i :: 0 <= i < |msgs| ==> (IsNewer(msgs[i], us) <==> j <= i)
    ensures Newer(msgs, us) == msgs[j..]
  {
    if msgs != [] {
      NewerIsSuffix(msgs[1..], us, if j == 0 then 0 else j - 1);
      if j == 0 {
        assert msgs == [msgs[0]] + msgs[1..];
      } else {
        assert msgs[1..][j - 1..] == msgs[j..];
      }
    }
  }

  lemma {:induction false} MsgsFrom(ds: seq<Diff>, a: nat, s: nat, b: nat)
    requires a <= s <= b <= |ds|
    ensures Msgs(ds, a, b)[s - a..] == Msgs(ds, s, b)
  {
  }

  // Of diffs a to b, those before s are dropped.
  lemma {:induction false} NewerOfHistory(ds: seq<Diff>, a: nat, s: nat, b: nat, us: nat)
    requires a <= s <= b <= |ds|
    requires forall j :: a <= j < b ==> (ds[j].us <= us <==> j < s)
    ensures Newer(Msgs(ds, a, b), us) == Msgs(ds, s, b)
  {
    var msgs := Msgs(ds, a, b);
    forall i | 0 <= i < |msgs| ensures IsNewer(msgs[i], us) <==> s - a <= i {
      assert msgs[i].us == Some(ds[a + i].us);
    }
    NewerIsSuffix(msgs, us, s - a);
    MsgsFrom(ds, a, s, b);
  }

  lemma {:induction false} LiveUpdatesOnly(inputs: seq<Input>)
    requires forall input :: input in inputs ==> !input.msg.L2Snapshot?
    ensures BookMessages(inputs) == Updates(inputs)
  {
    if inputs != [] { LiveUpdatesOnly(inputs[..|inputs| - 1]); }
  }

  lemma {:induction false} MsgsJoin(ds: seq<Diff>, a: nat, b: nat, c: nat)
    requires a <= b <= c <= |ds|
    ensures Msgs(ds, a, b) + Msgs(ds, b, c) == Msgs(ds, a, c)
  {
  }

  // Buffered diffs start..mid are cut down to those from `cut` on, no later than k; followed by mid..n they
  // run on from s.
  lemma {:induction false} KeptRunsOn(ex: Exchange, start: nat, mid: nat, k: nat, cut: nat, n: nat, us: nat)
    returns (s: nat)
    requires start <= mid <= n <= |ex.diffs| && cut <= k
    requires forall j :: 0 <= j < |ex.diffs| ==> (ex.diffs[j].us <= us <==> j < cut)
    ensures if start <= k then s <= k else s == start
    ensures s <= n && Newer(Msgs(ex.diffs, start, mid), us) + Msgs(ex.diffs, mid, n) == Msgs(ex.diffs, s, n)
  {
    s := if cut < start then start else if mid <= cut then mid else cut;
    NewerOfHistory(ex.diffs, start, s, mid, us);
    MsgsJoin(ex.diffs, s, mid, n);
  }

  lemma {:induction false} GivenAfterSnapshot(inputs: seq<Input>, i: nat)
    requires i == ConfirmedAt(inputs) < |inputs| && inputs[i].rest.Snapshot?
    requires forall input :: input in inputs ==> !input.msg.L2Snapshot?
    ensures Updates(inputs) == Updates(inputs[..i]) + Updates(inputs[i + 1..])
    ensures Given(inputs) == [L2Snapshot(Some(inputs[i].rest.data))]
      + (Newer(Updates(inputs[..i]), SnapshotUs(inputs[i].rest)) + Updates(inputs[i + 1..]))
  {
    SplitUpdates(inputs, i);
    LiveUpdatesOnly(inputs[i + 1..]);
    assert Given(inputs) == Replayed(inputs[..i], inputs[i].rest) + BookMessages(inputs[i + 1..]);
  }

  lemma {:induction false} HistorySplit(ex: Exchange, start: nat, n: nat, before: seq<Message>, live: seq<Message>)
    returns (mid: nat)
    requires start <= n <= |ex.diffs|
    requires before + live == Msgs(ex.diffs, start, n)
    ensures mid == start + |before| <= n
    ensures before == Msgs(ex.diffs, start, mid) && live == Msgs(ex.diffs, mid, n)
  {
    assert |before + live| == n - start;
    mid := start + |before|;
    assert before == (before + live)[..|before|] && live == (before + live)[|before|..];
  }

  // The book gets the snapshot and then a gap-free stream, from no later than diff k if it was received.
  lemma {:induction false} GivenIsSnapshotAndDiffs(inputs: seq<Input>, ex: Exchange, start: nat, k: nat, n: nat,
                                                   depth: nat)
    returns (s: nat)
    requires Streams(inputs, ex, start, n) && k <= n && Answered(inputs, ex, k, depth)
    ensures s <= n && if start <= k then s <= k else s == start
    ensures Given(inputs) == [L2Snapshot(Some(inputs[ConfirmedAt(inputs)].rest.data))] + Msgs(ex.diffs, s, n)
  {
    var i := ConfirmedAt(inputs);
    GivenAfterSnapshot(inputs, i);
    var mid := HistorySplit(ex, start, n, Updates(inputs[..i]), Updates(inputs[i + 1..]));
    s := KeptRunsOn(ex, start, mid, k, if inputs[i].rest.us.Some? then k else 0, n, SnapshotUs(inputs[i].rest));
  }

  // ----- convergence -----

  // The unfiltered book is the snapshot's book with the diffs it was given folded in.
  lemma {:induction false} AnsweredBook(inputs: seq<Input>, ex: Exchange, start: nat, k: nat, n: nat, depth: nat)
    returns (s: nat)
    requires Streams(inputs, ex, start, n) && k <= n && Answered(inputs, ex, k, depth)
    ensures s <= n && if start <= k then s <= k else s == start
    ensures var b := HandledAll(inputs, None, depth).book;
      && b.orders == map[]
      && forall side, p :: Lookup(b.On(side), p)
                           == After(Lookup(ex.books[k].On(side), p), LastChange(ex.diffs, s, n, side, p))
  {
    s := GivenIsSnapshotAndDiffs(inputs, ex, start, k, n, depth);
    ConnectionIsDetermined(inputs, None, depth);
    var snapshot := L2Snapshot(Some(inputs[ConfirmedAt(inputs)].rest.data));
    ProcessedAllAppend(EMPTY_BOOK, [snapshot], Msgs(ex.diffs, s, n), None, depth);
    OneMessage(EMPTY_BOOK, snapshot, None, depth);
    var b := Processed(EMPTY_BOOK, snapshot, None, depth);
    PositivesApplied(snapshot.snapshot.value.bids, ex.books[k].bids);
    PositivesApplied(snapshot.snapshot.value.asks, ex.books[k].asks);
    assert b == Book(map[], ex.books[k].bids, ex.books[k].asks);
    DiffsFold(b, ex.diffs, s, n, depth);
    FoldedOrders(b, ex.diffs, s, n);
    forall side, p {
      FoldedAt(b, ex.diffs, s, n, side, p);
    }
  }

  lemma {:induction false} OneMessage(b: Book, msg: Message, filter: Option<LobFilter>, depth: nat)
    ensures ProcessedAll(b, [msg], filter, depth) == Processed(b, msg, filter, depth)
  {
    assert [msg][..0] == [];
  }

  lemma {:induction false} SameBook(b: Book, t: TrueBook)
    ensures b == Book(map[], t.bids, t.asks)
       <==> b.orders == map[] && forall side, p :: Lookup(b.On(side), p) == Lookup(t.On(side), p)
  {
    if b.orders == map[] && forall side, p :: Lookup(b.On(side), p) == Lookup(t.On(side), p) {
      forall p ensures Lookup(b.bids, p) == Lookup(t.bids, p) && Lookup(b.asks, p) == Lookup(t.asks, p) {
        assert Lookup(b.On(Bid), p) == Lookup(t.On(Bid), p) && Lookup(b.On(Ask), p) == Lookup(t.On(Ask), p);
      }
      SameLookups(b.bids, t.bids);
      SameLookups(b.asks, t.asks);
    }
  }

  // Once diff n has been handled, the unfiltered book is the exchange's book after n diffs.
  lemma {:induction false} ReconciliationConverges(inputs: seq<Input>, ex: Exchange, start: nat, k: nat, n: nat,
                                                   depth: nat)
    requires Follows(inputs, ex, start, k, n, depth)
    ensures HandledAll(inputs, None, depth).book == Book(map[], ex.books[n].bids, ex.books[n].asks)
  {
    var s := AnsweredBook(inputs, ex, start, k, n, depth);
    forall side, p {
      StaleDiffsAreHarmless(ex, s, k, n, side, p);
    }
    SameBook(HandledAll(inputs, None, depth).book, ex.books[n]);
  }

  // ----- connections that do not meet the assumption -----

  // A side whose diffs k..start were missed: every price is rewritten later or back where it was.
  ghost predicate GapIsHealed(ex: Exchange, k: nat, start: nat, n: nat, side: Side)
    requires Genuine(ex) && k < start <= n <= |ex.diffs|
  {
    forall p :: LastChange(ex.diffs, start, n, side, p).Some?
                || Lookup(ex.books[k].On(side), p) == Lookup(ex.books[start].On(side), p)
  }

  // A snapshot older than the first diff received leaves a gap, and the book is true exactly when the
  // gap does not show.
  lemma {:induction false} LateStreamIsTrueExactlyWhen(inputs: seq<Input>, ex: Exchange, start: nat, k: nat, n: nat,
                                                       depth: nat)
    requires Streams(inputs, ex, start, n) && k < start && Answered(inputs, ex, k, depth)
    ensures HandledAll(inputs, None, depth).book == Book(map[], ex.books[n].bids, ex.books[n].asks)
       <==> GapIsHealed(ex, k, start, n, Bid) && GapIsHealed(ex, k, start, n, Ask)
  {
    var s := AnsweredBook(inputs, ex, start, k, n, depth);
    var b := HandledAll(inputs, None, depth).book;
    forall side, p
      ensures Lookup(b.On(side), p) == Lookup(ex.books[n].On(side), p)
         <==> LastChange(ex.diffs, start, n, side, p).Some?
              || Lookup(ex.books[k].On(side), p) == Lookup(ex.books[start].On(side), p)
    {
      TrueBookAdvances(ex, start, n, side, p);
    }
    SameBook(b, ex.books[n]);
    HealedSides(ex, k, start, n, b);
  }

  lemma {:induction false} HealedSides(ex: Exchange, k: nat, start: nat, n: nat, b: Book)
    requires Genuine(ex) && k < start <= n <= |ex.diffs|
    requires forall side, p ::
               Lookup(b.On(side), p) == Lookup(ex.books[n].On(side), p)
               <==> LastChange(ex.diffs, start, n, side, p).Some?
                    || Lookup(ex.books[k].On(side), p) == Lookup(ex.books[start].On(side), p)
    ensures (forall side, p :: Lookup(b.On(side), p) == Lookup(ex.books[n].On(side), p))
       <==> GapIsHealed(ex, k, start, n, Bid) && GapIsHealed(ex, k, start, n, Ask)
  {
  }

  lemma {:induction false} GivenAfterFailure(inputs: seq<Input>, i: nat)
    requires i == ConfirmedAt(inputs) < |inputs| && !inputs[i].rest.Snapshot?
    requires forall input :: input in inputs ==> !input.msg.L2Snapshot?
    ensures Updates(inputs) == Updates(inputs[..i]) + Updates(inputs[i + 1..])
    ensures Given(inputs) == Updates(inputs[i + 1..])
  {
    SplitUpdates(inputs, i);
    LiveUpdatesOnly(inputs[i + 1..]);
    assert Given(inputs) == [] + BookMessages(inputs[i + 1..]);
  }

  // After a failed request the unfiltered book holds exactly the true levels of the prices that have
  // changed since diff `mid`, the first one handled live; so it is an exact submap of the true book.
  lemma {:induction false} FailedRequestBook(inputs: seq<Input>, ex: Exchange, start: nat, n: nat, depth: nat,
                                             side: Side)
    returns (mid: nat)
    requires Streams(inputs, ex, start, n) && !inputs[ConfirmedAt(inputs)].rest.Snapshot?
    ensures mid == start + |Updates(inputs[..ConfirmedAt(inputs)])| <= n
    ensures var b := HandledAll(inputs, None, depth).book;
      && (forall p :: Lookup(b.On(side), p) ==
            if LastChange(ex.diffs, mid, n, side, p).Some? then Lookup(ex.books[n].On(side), p) else None)
      && Submap(b.On(side), ex.books[n].On(side))
  {
    var i := ConfirmedAt(inputs);
    GivenAfterFailure(inputs, i);
    mid := HistorySplit(ex, start, n, Updates(inputs[..i]), Updates(inputs[i + 1..]));
    ConnectionIsDetermined(inputs, None, depth);
    DiffsFold(EMPTY_BOOK, ex.diffs, mid, n, depth);
    var b, full := HandledAll(inputs, None, depth).book.On(side), ex.books[n].On(side);
    forall p
      ensures Lookup(b, p) == if LastChange(ex.diffs, mid, n, side, p).Some? then Lookup(full, p) else None
    {
      FoldedAt(EMPTY_BOOK, ex.diffs, mid, n, side, p);
      TrueBookAdvances(ex, mid, n, side, p);
    }
    LookupSubmap(b, full);
  }

  // ----- filtered clients -----

  lemma {:induction false} MsgsAreDiffs(ds: seq<Diff>, a: nat, b: nat)
    requires a <= b <= |ds|
    ensures forall m :: m in Msgs(ds, a, b) ==> m.L2Update? && m.payload.BookPayload?
  {
  }

  lemma {:induction false} GivenIsLevelList(inputs: seq<Input>, ex: Exchange, start: nat, k: nat, n: nat, depth: nat)
    requires Follows(inputs, ex, start, k, n, depth)
    ensures LevelListRun(Given(inputs)) && SnapshotsFit(Given(inputs), depth)
  {
    var s := GivenIsSnapshotAndDiffs(inputs, ex, start, k, n, depth);
    var snapshot := L2Snapshot(Some(inputs[ConfirmedAt(inputs)].rest.data));
    MsgsAreDiffs(ex.diffs, s, n);
    assert forall m :: m in Given(inputs) ==> m == snapshot || m in Msgs(ex.diffs, s, n);
  }

  // The pre-filtered book a client really keeps: bounded, and every level exact in the true book.
  lemma {:induction false} FilteredReconciliation(inputs: seq<Input>, ex: Exchange, start: nat, k: nat, n: nat,
                                                  depth: nat, max: nat)
    requires Follows(inputs, ex, start, k, n, depth)
    requires DistinctMessages(Given(inputs))
    ensures var b := HandledAll(inputs, Some(MaxLevel(max)), depth).book;
      && Submap(b.bids, ex.books[n].bids) && Submap(b.asks, ex.books[n].asks)
      && |b.bids| <= max && |b.asks| <= max
  {
    GivenIsLevelList(inputs, ex, start, k, n, depth);
    ReconciliationConverges(inputs, ex, start, k, n, depth);
    ConnectionIsDetermined(inputs, None, depth);
    ConnectionIsDetermined(inputs, Some(MaxLevel(max)), depth);
    MaxLevelIsExactSubmap(Given(inputs), max, depth);
    LevelRunSize(Given(inputs), max, depth);
  }

  // Under either filter, a reconciled book shows only prices of the true book.
  lemma {:induction false} FilteredPricesAreTrue(inputs: seq<Input>, ex: Exchange, start: nat, k: nat, n: nat,
                                                 depth: nat, f: LobFilter)
    requires Follows(inputs, ex, start, k, n, depth)
    ensures var b := HandledAll(inputs, Some(f), depth).book;
      b.bids.Keys <= ex.books[n].bids.Keys && b.asks.Keys <= ex.books[n].asks.Keys
  {
    GivenIsLevelList(inputs, ex, start, k, n, depth);
    ReconciliationConverges(inputs, ex, start, k, n, depth);
    ConnectionIsDetermined(inputs, None, depth);
    ConnectionIsDetermined(inputs, Some(f), depth);
    NoGhostPrices(Given(inputs), f, depth);
  }
}
