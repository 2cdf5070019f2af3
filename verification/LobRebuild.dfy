/** What the offline rebuild promises: one book per run of equal timestamps. */
module LobRebuildSpec {
  import opened Options
  import opened PriceLevels

  // A row of the input file. Any action but "snapshot" is an update.
  datatype Row = Row(ts: int, isSnapshot: bool, priceAsk: Option<real>, amountAsk: real,
                     priceBid: Option<real>, amountBid: real)

  datatype Sides = Sides(bids: Levels, asks: Levels)

  datatype Entry = Entry(ts: int, sides: Sides)

  const NO_LEVELS := Sides(map[], map[])

  // A snapshot row stores its amount even when that is zero; an update of zero removes.
  function LevelApplied(levels: Levels, price: Option<real>, amount: real, isSnapshot: bool): Levels {
    if price.None? then levels
    else if isSnapshot then levels[price.value := amount]
    else SetLevel(levels, price.value, amount)
  }

  function RowApplied(s: Sides, r: Row): Sides {
    Sides(LevelApplied(s.bids, r.priceBid, r.amountBid, r.isSnapshot),
          LevelApplied(s.asks, r.priceAsk, r.amountAsk, r.isSnapshot))
  }

  function RowsApplied(s: Sides, rows: seq<Row>): Sides {
    if rows == [] then s else RowApplied(RowsApplied(s, rows[..|rows| - 1]), rows[|rows| - 1])
  }

  // ----- maximal runs of equal timestamps -----

  function Flatten<T>(ss: seq<seq<T>>): seq<T> {
    if ss == [] then [] else Flatten(ss[..|ss| - 1]) + ss[|ss| - 1]
  }

  ghost predicate IsRun(run: seq<Row>) {
    run != [] && forall i :: 0 <= i < |run| ==> run[i].ts == run[0].ts
  }

  predicate NonEmptyRuns(runs: seq<seq<Row>>) {
    forall i :: 0 <= i < |runs| ==> runs[i] != []
  }

  ghost predicate MaximalRuns(runs: seq<seq<Row>>) {
    && (forall i :: 0 <= i < |runs| ==> IsRun(runs[i]))
    && (forall i :: 0 < i < |runs| ==> runs[i][0].ts != runs[i - 1][0].ts)
  }

  // One more row: it goes on with the last run, or starts the next one.
  function Extend(runs: seq<seq<Row>>, r: Row): (extended: seq<seq<Row>>)
    requires NonEmptyRuns(runs)
    ensures extended != [] && NonEmptyRuns(extended)
  {
    var n := |runs|;
    if n > 0 && runs[n - 1][0].ts == r.ts then runs[..n - 1] + [runs[n - 1] + [r]]
    else runs + [[r]]
  }

  function Runs(rows: seq<Row>): (runs: seq<seq<Row>>)
    ensures runs == [] <==> rows == []
    ensures NonEmptyRuns(runs)
  {
    if rows == [] then [] else Extend(Runs(rows[..|rows| - 1]), rows[|rows| - 1])
  }

  lemma {:induction false} FlattenSnoc<T>(ss: seq<seq<T>>, s: seq<T>)
    ensures Flatten(ss + [s]) == Flatten(ss) + s
  {
    assert (ss + [s])[..|ss|] == ss;
  }

  lemma {:induction false} ExtendFlatten(runs: seq<seq<Row>>, r: Row)
    requires NonEmptyRuns(runs)
    ensures Flatten(Extend(runs, r)) == Flatten(runs) + [r]
  {
    var n := |runs|;
    if n > 0 && runs[n - 1][0].ts == r.ts {
      FlattenSnoc(runs[..n - 1], runs[n - 1] + [r]);
      assert Flatten(runs) == Flatten(runs[..n - 1]) + runs[n - 1];
    } else {
      FlattenSnoc(runs, [r]);
    }
  }

  lemma {:induction false} ExtendMaximal(runs: seq<seq<Row>>, r: Row)
    requires MaximalRuns(runs) && NonEmptyRuns(runs)
    ensures MaximalRuns(Extend(runs, r))
  {
    var n, longer := |runs|, Extend(runs, r);
    assert forall i :: 0 <= i < n - 1 ==> longer[i] == runs[i];
    if n > 0 {
      assert longer[n - 1][0] == runs[n - 1][0];
      assert IsRun(runs[n - 1]);
    }
    assert IsRun(longer[|longer| - 1]);
  }

  // Runs divides the rows into maximal runs, losing and reordering nothing.
  lemma {:induction false} RunsAreMaximal(rows: seq<Row>)
    ensures MaximalRuns(Runs(rows))
    ensures Flatten(Runs(rows)) == rows
  {
    if rows != [] {
      RunsAreMaximal(rows[..|rows| - 1]);
      ExtendMaximal(Runs(rows[..|rows| - 1]), rows[|rows| - 1]);
      ExtendFlatten(Runs(rows[..|rows| - 1]), rows[|rows| - 1]);
    }
  }

  // ----- the book at the end of a run -----

  function FirstSnapshot(run: seq<Row>): (i: nat)
    ensures i <= |run|
    ensures i < |run| ==> run[i].isSnapshot
    ensures forall j :: 0 <= j < i ==> !run[j].isSnapshot
  {
    if run == [] || run[0].isSnapshot then 0 else 1 + FirstSnapshot(run[1..])
  }

  // The first snapshot row of a run discards everything before it.
  function RunResult(before: Sides, run: seq<Row>): Sides {
    if FirstSnapshot(run) < |run| then RowsApplied(NO_LEVELS, run[FirstSnapshot(run)..])
    else RowsApplied(before, run)
  }

  function StateAfter(runs: seq<seq<Row>>): Sides {
    if runs == [] then NO_LEVELS else RunResult(StateAfter(runs[..|runs| - 1]), runs[|runs| - 1])
  }

  function Entries(runs: seq<seq<Row>>): (entries: seq<Entry>)
    requires NonEmptyRuns(runs)
    ensures |entries| == |runs|
  {
    seq(|runs|, i requires 0 <= i < |runs| => Entry(runs[i][0].ts, StateAfter(runs[..i + 1])))
  }

  // The price and amount a row carries for one side.
  function Carried(r: Row, side: Side): (Option<real>, real) {
    if side.Bid? then (r.priceBid, r.amountBid) else (r.priceAsk, r.amountAsk)
  }

  // The last row that carries price p on a side.
  function LastCarrier(rows: seq<Row>, side: Side, p: real): Option<Row> {
    if rows == [] then None
    else if Carried(rows[|rows| - 1], side).0 == Some(p) then Some(rows[|rows| - 1])
    else LastCarrier(rows[..|rows| - 1], side, p)
  }

  // ----- facts about the specification -----

  // Per side and price the last carrying row decides: an update of zero removes, all else stores.
  lemma {:induction false} RowsAppliedAt(s: Sides, rows: seq<Row>, side: Side, p: real)
    ensures var on := (t: Sides) => if side.Bid? then t.bids else t.asks;
      Lookup(on(RowsApplied(s, rows)), p)
      == match LastCarrier(rows, side, p)
         case None => Lookup(on(s), p)
         case Some(r) =>
           if !r.isSnapshot && Carried(r, side).1 == 0.0 then None else Some(Carried(r, side).1)
  {
    if rows != [] { RowsAppliedAt(s, rows[..|rows| - 1], side, p); }
  }

  lemma {:induction false} FirstSnapshotSnoc(run: seq<Row>, r: Row)
    ensures FirstSnapshot(run + [r])
         == if FirstSnapshot(run) < |run| || r.isSnapshot then FirstSnapshot(run) else |run| + 1
  {
    var i, j := FirstSnapshot(run), FirstSnapshot(run + [r]);
    assert forall k :: 0 <= k < |run| ==> (run + [r])[k] == run[k];
    assert (run + [r])[|run|] == r;
  }

  lemma {:induction false} RunResultSnoc(before: Sides, run: seq<Row>, r: Row)
    ensures RunResult(before, run + [r])
         == RowApplied(if FirstSnapshot(run) == |run| && r.isSnapshot then NO_LEVELS else RunResult(before, run), r)
  {
    FirstSnapshotSnoc(run, r);
    var i := FirstSnapshot(run);
    if i < |run| {
      assert (run + [r])[i..][..|run| - i] == run[i..];
    } else if r.isSnapshot {
      assert (run + [r])[i..] == [r];
      assert [r][..0] == [];
      assert RowsApplied(NO_LEVELS, [r]) == RowApplied(NO_LEVELS, r);
    } else {
      assert (run + [r])[..|run|] == run;
    }
  }

  lemma {:induction false} FlattenTail<T>(ss: seq<seq<T>>)
    requires ss != []
    ensures Flatten(ss) == ss[0] + Flatten(ss[1..])
  {
    if |ss| == 1 {
      assert ss[..0] == [] && ss[1..] == [];
    } else {
      var front, last := ss[..|ss| - 1], ss[|ss| - 1];
      FlattenTail(front);
      FlattenSnoc(front[1..], last);
      assert ss[1..] == front[1..] + [last];
      Associative(ss[0], Flatten(front[1..]), last);
    }
  }

  // A list of rows has only one division into maximal runs.
  lemma {:induction false} MaximalRunsUnique(xs: seq<seq<Row>>, ys: seq<seq<Row>>)
    requires MaximalRuns(xs) && MaximalRuns(ys) && Flatten(xs) == Flatten(ys)
    ensures xs == ys
  {
    if xs != [] { FlattenTail(xs); }
    if ys != [] { FlattenTail(ys); }
    if xs != [] && ys != [] {
      FirstRunNoLonger(xs, ys);
      FirstRunNoLonger(ys, xs);
      assert xs[0] == Flatten(xs)[..|xs[0]|] && ys[0] == Flatten(ys)[..|ys[0]|];
      assert Flatten(xs[1..]) == Flatten(xs)[|xs[0]|..] && Flatten(ys[1..]) == Flatten(ys)[|ys[0]|..];
      MaximalRunsUnique(xs[1..], ys[1..]);
    }
  }

  lemma {:induction false} FirstRunNoLonger(xs: seq<seq<Row>>, ys: seq<seq<Row>>)
    requires MaximalRuns(xs) && MaximalRuns(ys) && Flatten(xs) == Flatten(ys)
    requires xs != [] && ys != []
    ensures |ys[0]| <= |xs[0]|
  {
    FlattenTail(xs);
    FlattenTail(ys);
    if |xs| > 1 { FlattenTail(xs[1..]); }
    assert forall k :: 0 <= k < |ys[0]| ==> Flatten(ys)[k] == ys[0][k];
    assert |xs| > 1 ==> Flatten(xs)[|xs[0]|] == xs[1][0];
    assert Flatten(xs)[0] == xs[0][0];
  }

  lemma {:induction false} RunsSnoc(rows: seq<Row>, r: Row)
    ensures Runs(rows + [r]) == Extend(Runs(rows), r)
  {
    assert (rows + [r])[..|rows|] == rows;
  }

  function LastRun(rows: seq<Row>): seq<Row>
    requires rows != []
  {
    Runs(rows)[|Runs(rows)| - 1]
  }

  // Whether the run that the last row belongs to has had a snapshot row.
  predicate Cleared(rows: seq<Row>) {
    rows != [] && FirstSnapshot(LastRun(rows)) < |LastRun(rows)|
  }

  lemma {:induction false} LastRunEnds(rows: seq<Row>)
    requires rows != []
    ensures LastRun(rows)[0].ts == rows[|rows| - 1].ts
    ensures |LastRun(rows)| <= |rows| && LastRun(rows) == rows[|rows| - |LastRun(rows)|..]
  {
    RunsAreMaximal(rows);
    var run := LastRun(rows);
    assert rows[|rows| - 1] == run[|run| - 1];
  }

  // What one more row does to the book, and to whether its run has had a snapshot.
  lemma {:induction false} StateSnoc(rows: seq<Row>, r: Row)
    ensures var cleared := rows != [] && rows[|rows| - 1].ts == r.ts && Cleared(rows);
      && StateAfter(Runs(rows + [r]))
         == RowApplied(if r.isSnapshot && !cleared then NO_LEVELS else StateAfter(Runs(rows)), r)
      && (Cleared(rows + [r]) <==> cleared || r.isSnapshot)
  {
    RunsSnoc(rows, r);
    if rows != [] { LastRunEnds(rows); }
    if rows != [] && rows[|rows| - 1].ts == r.ts {
      var runs := Runs(rows);
      ContinueRun(runs[..|runs| - 1], runs[|runs| - 1], r);
    } else {
      ContinueRun(Runs(rows), [], r);
      assert [] + [r] == [r];
    }
  }

  // A side's stored prices, against the one price a row carries for it.
  ghost predicate OnlyPrice(levels: Levels, price: Option<real>) {
    forall p :: p in levels ==> price == Some(p)
  }

  lemma {:induction false} StoredInEmptyIff(levels: Levels, price: Option<real>, amount: real)
    ensures LevelApplied(levels, price, amount, true) == LevelApplied(map[], price, amount, true)
       <==> OnlyPrice(levels, price)
  {
    var a, b := LevelApplied(levels, price, amount, true), LevelApplied(map[], price, amount, true);
    if OnlyPrice(levels, price) {
      forall p ensures Lookup(a, p) == Lookup(b, p) {
        assert p in levels ==> price == Some(p);
      }
      SameLookups(a, b);
    } else {
      var p :| p in levels && price != Some(p);
      assert p in a && p !in b;
    }
  }

  // A snapshot row leaves nothing but its own levels exactly when it is the first of its run, or the book
  // held nothing else anyway.
  lemma {:induction false} SnapshotRowReplacesExactlyWhen(rows: seq<Row>, r: Row)
    requires r.isSnapshot
    ensures var cleared, s := rows != [] && rows[|rows| - 1].ts == r.ts && Cleared(rows), StateAfter(Runs(rows));
      StateAfter(Runs(rows + [r])) == RowApplied(NO_LEVELS, r)
      <==> !cleared || (OnlyPrice(s.bids, r.priceBid) && OnlyPrice(s.asks, r.priceAsk))
  {
    var s := StateAfter(Runs(rows));
    StateSnoc(rows, r);
    StoredInEmptyIff(s.bids, r.priceBid, r.amountBid);
    StoredInEmptyIff(s.asks, r.priceAsk, r.amountAsk);
  }

  // Two snapshot rows of one timestamp, a bid each: the second does not clear the first.
  lemma {:induction false} SecondSnapshotRowKeepsTheFirst(ts: int)
    ensures var first, second := Row(ts, true, None, 0.0, Some(1.0), 1.0), Row(ts, true, None, 0.0, Some(2.0), 1.0);
      StateAfter(Runs([first, second])) == Sides(map[1.0 := 1.0, 2.0 := 1.0], map[])
  {
    var first, second := Row(ts, true, None, 0.0, Some(1.0), 1.0), Row(ts, true, None, 0.0, Some(2.0), 1.0);
    StateSnoc([], first);
    StateSnoc([first], second);
    assert [] + [first] == [first] && [first] + [second] == [first, second];
  }

  lemma {:induction false} ContinueRun(before: seq<seq<Row>>, run: seq<Row>, r: Row)
    ensures StateAfter(before + [run + [r]])
         == RowApplied(if r.isSnapshot && FirstSnapshot(run) == |run| then NO_LEVELS
                       else RunResult(StateAfter(before), run), r)
    ensures FirstSnapshot(run + [r]) < |run + [r]| <==> FirstSnapshot(run) < |run| || r.isSnapshot
  {
    assert (before + [run + [r]])[..|before|] == before;
    RunResultSnoc(StateAfter(before), run, r);
    FirstSnapshotSnoc(run, r);
  }

  // ----- the book after any rows, read off the rows alone -----

  // Rows j to i all have one timestamp.
  ghost predicate SameRun(rows: seq<Row>, j: int, i: int)
    requires 0 <= j <= i < |rows|
  {
    forall k :: j <= k <= i ==> rows[k].ts == rows[i].ts
  }

  // Row i is the first snapshot row of its run of equal timestamps.
  ghost predicate Clears(rows: seq<Row>, i: int)
    requires 0 <= i < |rows|
  {
    rows[i].isSnapshot && forall j :: 0 <= j < i && SameRun(rows, j, i) ==> !rows[j].isSnapshot
  }

  // Where the last such row is; 0 if there is none.
  ghost function LastClear(rows: seq<Row>): (c: nat)
    ensures c <= |rows|
    ensures rows != [] ==> c < |rows| && (c > 0 ==> Clears(rows, c))
    ensures forall i :: c < i < |rows| ==> !Clears(rows, i)
  {
    if rows == [] then 0
    else if Clears(rows, |rows| - 1) then |rows| - 1
    else
      var front := rows[..|rows| - 1];
      var c := LastClear(front);
      assert forall i :: 0 <= i < |front| ==> (Clears(front, i) <==> Clears(rows, i)) by {
        forall i | 0 <= i < |front| ensures Clears(front, i) <==> Clears(rows, i) {
          assert forall j :: 0 <= j < i ==> (SameRun(front, j, i) <==> SameRun(rows, j, i));
        }
      }
      c
  }

  lemma {:induction false} SameRunSnoc(rows: seq<Row>, r: Row, j: int)
    requires 0 <= j < |rows|
    ensures SameRun(rows + [r], j, |rows|) <==> SameRun(rows, j, |rows| - 1) && rows[|rows| - 1].ts == r.ts
  {
    var all, n := rows + [r], |rows|;
    if SameRun(all, j, n) {
      assert all[n - 1].ts == all[n].ts;
      forall k | j <= k <= n - 1 ensures rows[k].ts == rows[n - 1].ts { assert all[k].ts == all[n].ts; }
    }
    if SameRun(rows, j, n - 1) && rows[n - 1].ts == r.ts {
      forall k | j <= k <= n ensures all[k].ts == all[n].ts { assert k < n ==> rows[k].ts == rows[n - 1].ts; }
    }
  }

  // Rows j to the last one have one timestamp, and row j is a snapshot row.
  ghost predicate SnapshotInRun(rows: seq<Row>, j: int)
    requires 0 <= j < |rows|
  {
    SameRun(rows, j, |rows| - 1) && rows[j].isSnapshot
  }

  lemma {:induction false} ClearedIff(rows: seq<Row>)
    requires rows != []
    ensures Cleared(rows) <==> exists j :: 0 <= j < |rows| && SnapshotInRun(rows, j)
  {
    var front, r := rows[..|rows| - 1], rows[|rows| - 1];
    assert rows == front + [r];
    StateSnoc(front, r);
    forall j | 0 <= j < |front|
      ensures SnapshotInRun(rows, j) <==> SnapshotInRun(front, j) && front[|front| - 1].ts == r.ts
    {
      SameRunSnoc(front, r, j);
    }
    assert SnapshotInRun(rows, |rows| - 1) <==> r.isSnapshot;
    if front != [] { ClearedIff(front); }
  }

  lemma {:induction false} ClearsIff(rows: seq<Row>, r: Row)
    ensures Clears(rows + [r], |rows|)
       <==> r.isSnapshot && !(rows != [] && rows[|rows| - 1].ts == r.ts && Cleared(rows))
  {
    var all := rows + [r];
    forall j | 0 <= j < |rows|
      ensures SameRun(all, j, |rows|) && all[j].isSnapshot <==> SnapshotInRun(rows, j) && rows[|rows| - 1].ts == r.ts
    {
      SameRunSnoc(rows, r, j);
    }
    if rows != [] { ClearedIff(rows); }
    if Clears(all, |rows|) {
      forall j | 0 <= j < |rows| ensures !(SnapshotInRun(rows, j) && rows[|rows| - 1].ts == r.ts) {
        assert !(SameRun(all, j, |rows|) && all[j].isSnapshot);
      }
    }
  }

  lemma {:induction false} RowsAppliedSnoc(s: Sides, rows: seq<Row>, r: Row)
    ensures RowsApplied(s, rows + [r]) == RowApplied(RowsApplied(s, rows), r)
  {
    assert (rows + [r])[..|rows|] == rows;
  }

  lemma {:induction false} SliceSnoc<T>(s: seq<T>, x: T, c: nat)
    requires c <= |s|
    ensures (s + [x])[c..] == s[c..] + [x]
  {
  }

  lemma {:induction false} LastClearSnoc(rows: seq<Row>, r: Row)
    ensures LastClear(rows + [r]) == if Clears(rows + [r], |rows|) then |rows| else LastClear(rows)
  {
    assert (rows + [r])[..|rows|] == rows;
  }

  lemma {:induction false} SinceLastClearSnoc(rows: seq<Row>, r: Row)
    requires StateAfter(Runs(rows)) == RowsApplied(NO_LEVELS, rows[LastClear(rows)..])
    ensures StateAfter(Runs(rows + [r])) == RowsApplied(NO_LEVELS, (rows + [r])[LastClear(rows + [r])..])
  {
    StateSnoc(rows, r);
    ClearsIff(rows, r);
    LastClearSnoc(rows, r);
    var c := LastClear(rows + [r]);
    SliceSnoc(rows, r, c);
    RowsAppliedSnoc(NO_LEVELS, rows[c..], r);
    if c == |rows| { assert rows[c..] == []; }
  }

  // After any rows, the book is what the rows from the last clearing one on make of an empty book.
  lemma {:induction false} StateIsSinceLastClear(rows: seq<Row>)
    ensures StateAfter(Runs(rows)) == RowsApplied(NO_LEVELS, rows[LastClear(rows)..])
  {
    if rows != [] {
      var front, r := rows[..|rows| - 1], rows[|rows| - 1];
      assert rows == front + [r];
      StateIsSinceLastClear(front);
      SinceLastClearSnoc(front, r);
    }
  }

  lemma {:induction false} MaximalParts(runs: seq<seq<Row>>, n: nat)
    requires MaximalRuns(runs) && n <= |runs|
    ensures MaximalRuns(runs[..n])
  {
  }

  // The rows up to the end of some runs are divided into just those runs.
  lemma {:induction false} PrefixRuns(rows: seq<Row>, n: nat)
    requires n <= |Runs(rows)|
    ensures var end := |Flatten(Runs(rows)[..n])|;
      end <= |rows| && rows[..end] == Flatten(Runs(rows)[..n]) && Runs(rows[..end]) == Runs(rows)[..n]
  {
    var runs := Runs(rows);
    RunsAreMaximal(rows);
    FlattenSplit(runs, n);
    var part := Flatten(runs[..n]);
    assert rows == part + Flatten(runs[n..]);
    assert rows[..|part|] == part;
    RunsAreMaximal(part);
    MaximalParts(runs, n);
    MaximalRunsUnique(Runs(part), runs[..n]);
  }

  lemma {:induction false} FlattenLast(runs: seq<seq<Row>>, i: nat)
    requires i < |runs| && runs[i] != []
    ensures var part := Flatten(runs[..i + 1]); part != [] && part[|part| - 1] == runs[i][|runs[i]| - 1]
  {
    assert runs[..i + 1] == runs[..i] + [runs[i]];
    FlattenSnoc(runs[..i], runs[i]);
  }

  lemma {:induction false} FlattenNext(runs: seq<seq<Row>>, n: nat)
    requires n < |runs| && runs[n] != []
    ensures |Flatten(runs[..n])| < |Flatten(runs)| && Flatten(runs)[|Flatten(runs[..n])|] == runs[n][0]
  {
    FlattenSplit(runs, n);
    FlattenTail(runs[n..]);
    assert runs[n..][0] == runs[n];
  }

  // Entry i is the book after the rows up to the end of run i, under the timestamp of that run.
  lemma {:induction false} EntryIsPrefixBook(rows: seq<Row>, i: nat) returns (end: nat)
    requires i < |Runs(rows)|
    ensures end == |Flatten(Runs(rows)[..i + 1])| && 0 < end <= |rows|
    ensures end < |rows| ==> rows[end].ts != rows[end - 1].ts
    ensures Entries(Runs(rows))[i] == Entry(rows[end - 1].ts, StateAfter(Runs(rows[..end])))
  {
    var runs: seq<seq<Row>> := Runs(rows);
    end := |Flatten(runs[..i + 1])|;
    PrefixRuns(rows, i + 1);
    FlattenLast(runs, i);
    RunsAreMaximal(rows);
    assert IsRun(runs[i]);
    assert rows[end - 1] == rows[..end][end - 1];
    if i + 1 < |runs| {
      FlattenNext(runs, i + 1);
      assert runs[i + 1][0].ts != runs[i][0].ts;
    } else {
      assert runs[..i + 1] == runs;
    }
  }

  lemma {:induction false} FlattenSplit<T>(ss: seq<seq<T>>, n: nat)
    requires n <= |ss|
    ensures Flatten(ss) == Flatten(ss[..n]) + Flatten(ss[n..])
  {
    if n == |ss| {
      assert ss[..n] == ss && ss[n..] == [];
    } else {
      var front := ss[..|ss| - 1];
      FlattenSplit(front, n);
      assert front[..n] == ss[..n] && ss[n..][..|ss[n..]| - 1] == front[n..];
      Associative(Flatten(ss[..n]), Flatten(front[n..]), ss[|ss| - 1]);
    }
  }

  // Rows that arrive later never change an entry of a finished run.
  lemma {:induction false} YieldedEntriesNeverChange(rows: seq<Row>, all: seq<Row>)
    requires rows != [] && rows <= all
    ensures var n := |Runs(rows)| - 1;
      n < |Runs(all)| && Entries(Runs(all))[..n] == Entries(Runs(rows))[..n]
  {
    FinishedRunsStay(rows, all);
    EntriesPrefix(Runs(rows), Runs(all), |Runs(rows)| - 1);
  }

  lemma {:induction false} EntriesPrefix(a: seq<seq<Row>>, b: seq<seq<Row>>, n: nat)
    requires NonEmptyRuns(a) && NonEmptyRuns(b)
    requires n <= |a| && n <= |b| && a[..n] == b[..n]
    ensures Entries(a)[..n] == Entries(b)[..n]
  {
    forall i | 0 <= i < n ensures Entries(a)[i] == Entries(b)[i] {
      assert a[i] == a[..n][i] && b[i] == b[..n][i];
      assert a[..i + 1] == a[..n][..i + 1] && b[..i + 1] == b[..n][..i + 1];
    }
  }

  lemma {:induction false} FinishedRunsStay(rows: seq<Row>, all: seq<Row>)
    requires rows != [] && rows <= all
    ensures |Runs(rows)| <= |Runs(all)|
    ensures Runs(all)[..|Runs(rows)| - 1] == Runs(rows)[..|Runs(rows)| - 1]
    decreases |all|
  {
    if |all| > |rows| {
      var front := all[..|all| - 1];
      FinishedRunsStay(rows, front);
      ExtendKeeps(Runs(front), all[|all| - 1], |Runs(rows)| - 1);
    } else {
      assert all == rows;
    }
  }

  lemma {:induction false} ExtendKeeps(runs: seq<seq<Row>>, r: Row, n: nat)
    requires NonEmptyRuns(runs) && n < |runs|
    ensures |Extend(runs, r)| >= |runs| && Extend(runs, r)[..n] == runs[..n]
  {
  }

  // If the last run of `past` goes on at timestamp `ts`, it has had no snapshot row.
  ghost predicate NoSnapshotYet(past: seq<Row>, ts: int) {
    past != [] && past[|past| - 1].ts == ts ==> !Cleared(past)
  }

  // From the first snapshot row of a run on, the book depends on that row and its successors alone.
  lemma {:induction false} SnapshotForgetsThePast(past: seq<Row>, run: seq<Row>)
    requires IsRun(run) && run[0].isSnapshot && NoSnapshotYet(past, run[0].ts)
    ensures StateAfter(Runs(past + run)) == RowsApplied(NO_LEVELS, run)
    ensures Cleared(past + run)
  {
    var front, last := run[..|run| - 1], run[|run| - 1];
    assert past + run == (past + front) + [last];
    if front == [] {
      assert past + front == past;
      StateSnoc(past, last);
    } else {
      SnapshotForgetsThePast(past, front);
      NextRow(past + front, last);
    }
  }

  // Within a run that has had its snapshot, a row is simply applied.
  lemma {:induction false} NextRow(rows: seq<Row>, r: Row)
    requires rows != [] && rows[|rows| - 1].ts == r.ts && Cleared(rows)
    ensures StateAfter(Runs(rows + [r])) == RowApplied(StateAfter(Runs(rows)), r)
    ensures Cleared(rows + [r])
  {
    StateSnoc(rows, r);
  }
}

/** The streaming reader and the chunked writer. */
module LobRebuild {
  import opened Options
  import opened PriceLevels
  import opened LobRebuildSpec

  class LobReader {
    var bids: Levels
    var asks: Levels
    var currentTs: Option<int>
    var snapshotCleared: bool

    constructor ()
      ensures Follows([])
    {
      bids, asks, currentTs, snapshotCleared := map[], map[], None, false;
    }

    // The reader has consumed exactly `rows`.
    ghost predicate Follows(rows: seq<Row>)
      reads this
    {
      && Sides(bids, asks) == StateAfter(Runs(rows))
      && currentTs == (if rows == [] then None else Some(rows[|rows| - 1].ts))
      && snapshotCleared == Cleared(rows)
    }

    method ApplyLevel(side: Side, price: Option<real>, amount: real, isSnapshot: bool)
      modifies this`bids, this`asks
      ensures bids == if side.Bid? then LevelApplied(old(bids), price, amount, isSnapshot) else old(bids)
      ensures asks == if side.Ask? then LevelApplied(old(asks), price, amount, isSnapshot) else old(asks)
    {
      var levels := if side.Bid? then bids else asks;
      if price.None? {
        return;
      }
      if isSnapshot {
        levels := levels[price.value := amount];
      } else if amount == 0.0 {
        levels := levels - {price.value};
      } else {
        levels := levels[price.value := amount];
      }
      if side.Bid? { bids := levels; } else { asks := levels; }
    }

    // One row; what it yields is the entry of the run it ends, if it ends one.
    method Consume(row: Row, ghost rows: seq<Row>) returns (yielded: seq<Entry>)
      requires Follows(rows)
      modifies this
      ensures Follows(rows + [row])
      ensures Yields(rows, rows + [row], yielded)
    {
      StateSnoc(rows, row);
      YieldedSnoc(rows, row);
      yielded := [];
      if currentTs.Some? && row.ts != currentTs.value {
        yielded := [Entry(currentTs.value, Sides(bids, asks))];
        snapshotCleared := false;
      }
      currentTs := Some(row.ts);
      if row.isSnapshot && !snapshotCleared {
        bids, asks := map[], map[];
        snapshotCleared := true;
      }
      ApplyLevel(Ask, row.priceAsk, row.amountAsk, row.isSnapshot);
      ApplyLevel(Bid, row.priceBid, row.amountBid, row.isSnapshot);
    }

    method ReadBatch(batch: seq<Row>, ghost rows: seq<Row>) returns (entries: seq<Entry>)
      requires Follows(rows)
      modifies this
      ensures Follows(rows + batch)
      ensures Yields(rows, rows + batch, entries)
    {
      entries := [];
      ghost var sofar := rows;
      for j := 0 to |batch|
        invariant sofar == rows + batch[..j]
        invariant Follows(sofar) && Yields(rows, sofar, entries)
      {
        PrefixStep(rows, batch, j);
        var yielded := Consume(batch[j], sofar);
        YieldsMore(rows, sofar, entries, sofar + [batch[j]], yielded);
        entries := entries + yielded;
        sofar := sofar + [batch[j]];
      }
      assert batch[..|batch|] == batch;
    }

    // Reading all batches yields one entry per maximal run of equal timestamps.
    method ReadLob(batches: seq<seq<Row>>) returns (entries: seq<Entry>)
      requires Follows([])
      modifies this
      ensures entries == Entries(Runs(Flatten(batches)))
    {
      entries := [];
      ghost var rows := [];
      for i := 0 to |batches|
        invariant rows == Flatten(batches[..i])
        invariant Follows(rows) && Yields([], rows, entries)
      {
        var yielded := ReadBatch(batches[i], rows);
        YieldsMore([], rows, entries, rows + batches[i], yielded);
        entries := entries + yielded;
        rows := rows + batches[i];
        FlattenStep(batches, i);
      }
      assert batches[..|batches|] == batches;
      AllYielded(rows, entries);
      if currentTs.Some? {
        entries := entries + [Entry(currentTs.value, Sides(bids, asks))];
      }
    }
  }

  // The entries of the runs that are known to be over.
  ghost function Yielded(rows: seq<Row>): seq<Entry> {
    if rows == [] then [] else Entries(Runs(rows))[..|Runs(rows)| - 1]
  }

  // Reading on from `before` to `after` yields `entries`.
  ghost predicate Yields(before: seq<Row>, after: seq<Row>, entries: seq<Entry>) {
    Yielded(after) == Yielded(before) + entries
  }

  lemma {:induction false} YieldsMore(before: seq<Row>, middle: seq<Row>, a: seq<Entry>, after: seq<Row>, b: seq<Entry>)
    requires Yields(before, middle, a) && Yields(middle, after, b)
    ensures Yields(before, after, a + b)
  {
    Associative(Yielded(before), a, b);
  }

  lemma {:induction false} PrefixStep<T>(rows: seq<T>, batch: seq<T>, j: nat)
    requires j < |batch|
    ensures rows + batch[..j + 1] == (rows + batch[..j]) + [batch[j]]
  {
  }

  lemma {:induction false} FlattenStep<T>(ss: seq<seq<T>>, i: nat)
    requires i < |ss|
    ensures Flatten(ss[..i + 1]) == Flatten(ss[..i]) + ss[i]
  {
    assert ss[..i + 1][..i] == ss[..i];
  }

  lemma {:induction false} LastEntry(rows: seq<Row>)
    requires rows != []
    ensures Entries(Runs(rows)) == Yielded(rows) + [Entry(rows[|rows| - 1].ts, StateAfter(Runs(rows)))]
  {
    LastRunEnds(rows);
    var runs := Runs(rows);
    var n := |runs|;
    var entries := Entries(runs);
    assert runs[..n] == runs;
    assert entries[n - 1] == Entry(rows[|rows| - 1].ts, StateAfter(runs));
    assert entries == entries[..n - 1] + [entries[n - 1]];
  }

  // What has been yielded from the start lacks only the entry of the run still being read.
  lemma {:induction false} AllYielded(rows: seq<Row>, entries: seq<Entry>)
    requires Yields([], rows, entries)
    ensures Entries(Runs(rows))
         == if rows == [] then entries else entries + [Entry(rows[|rows| - 1].ts, StateAfter(Runs(rows)))]
  {
    assert [] + entries == entries;
    if rows != [] { LastEntry(rows); }
  }

  lemma {:induction false} YieldedSnoc(rows: seq<Row>, r: Row)
    ensures Yielded(rows + [r]) == Yielded(rows)
      + if rows != [] && rows[|rows| - 1].ts != r.ts then [Entry(rows[|rows| - 1].ts, StateAfter(Runs(rows)))] else []
  {
    RunsSnoc(rows, r);
    if rows != [] {
      LastRunEnds(rows);
      LastEntry(rows);
      ExtendEntries(Runs(rows), r);
    }
  }

  lemma {:induction false} ExtendEntries(runs: seq<seq<Row>>, r: Row)
    requires runs != [] && NonEmptyRuns(runs)
    ensures var longer := Extend(runs, r);
      Entries(longer)[..|longer| - 1]
      == if runs[|runs| - 1][0].ts == r.ts then Entries(runs)[..|runs| - 1] else Entries(runs)
  {
    var longer := Extend(runs, r);
    EntriesPrefix(runs, longer, |longer| - 1);
    assert Entries(runs)[..|runs|] == Entries(runs);
  }

  // ----- the writer -----

  const FLUSH_SIZE: nat := 100_000

  datatype OutRow = OutRow(ts: int, bids: seq<Level>, asks: seq<Level>)

  function SnapshotToRow(e: Entry): OutRow {
    OutRow(e.ts, Listing(Bid, e.sides.bids), Listing(Ask, e.sides.asks))
  }

  function RowToSnapshot(row: OutRow): Entry {
    Entry(row.ts, Sides(ToMap(row.bids), ToMap(row.asks)))
  }

  function ToRows(entries: seq<Entry>): (rows: seq<OutRow>)
    ensures |rows| == |entries|
  {
    if entries == [] then [] else ToRows(entries[..|entries| - 1]) + [SnapshotToRow(entries[|entries| - 1])]
  }

  function FromRows(rows: seq<OutRow>): seq<Entry> {
    seq(|rows|, i requires 0 <= i < |rows| => RowToSnapshot(rows[i]))
  }

  // Full chunks, then at most one smaller chunk, never an empty one.
  ghost predicate Chunked<T>(tables: seq<seq<T>>, size: nat) {
    && (forall i :: 0 <= i < |tables| - 1 ==> |tables[i]| == size)
    && (tables != [] ==> 0 < |tables[|tables| - 1]| <= size)
  }

  lemma {:induction false} ToRowsSnoc(entries: seq<Entry>, i: nat)
    requires i < |entries|
    ensures ToRows(entries[..i + 1]) == ToRows(entries[..i]) + [SnapshotToRow(entries[i])]
  {
    assert entries[..i + 1][..i] == entries[..i];
  }

  method WriteTables(entries: seq<Entry>) returns (tables: seq<seq<OutRow>>)
    ensures Flatten(tables) == ToRows(entries)
    ensures Chunked(tables, FLUSH_SIZE)
  {
    tables := [];
    var buffer: seq<OutRow> := [];
    ghost var flushed: seq<OutRow> := [];
    for i := 0 to |entries|
      invariant flushed == Flatten(tables)
      invariant flushed + buffer == ToRows(entries[..i])
      invariant forall j :: 0 <= j < |tables| ==> |tables[j]| == FLUSH_SIZE
      invariant |buffer| < FLUSH_SIZE
    {
      ToRowsSnoc(entries, i);
      Associative(flushed, buffer, [SnapshotToRow(entries[i])]);
      buffer := buffer + [SnapshotToRow(entries[i])];
      if |buffer| >= FLUSH_SIZE {
        FlattenSnoc(tables, buffer);
        tables, flushed := tables + [buffer], flushed + buffer;
        buffer := [];
      }
    }
    assert entries[..|entries|] == entries;
    if buffer != [] {
      FlattenSnoc(tables, buffer);
      tables := tables + [buffer];
    }
  }

  // The written tables are the serialised books, in order, in chunks of the flush size.
  method RebuildToLob2(batches: seq<seq<Row>>) returns (tables: seq<seq<OutRow>>)
    ensures Flatten(tables) == ToRows(Entries(Runs(Flatten(batches))))
    ensures Chunked(tables, 100_000)
  {
    var reader := new LobReader();
    var entries := reader.ReadLob(batches);
    tables := WriteTables(entries);
  }

  // A written row has the entry's timestamp, its bids from the highest price down, and its asks from the
  // lowest up.
  ghost predicate Shows(row: OutRow, e: Entry) {
    && row.ts == e.ts
    && (forall l :: l in row.bids <==> Lookup(e.sides.bids, l.price) == Some(l.amount))
    && (forall l :: l in row.asks <==> Lookup(e.sides.asks, l.price) == Some(l.amount))
    && (forall x, y :: 0 <= x < y < |row.bids| ==> row.bids[x].price > row.bids[y].price)
    && (forall x, y :: 0 <= x < y < |row.asks| ==> row.asks[x].price < row.asks[y].price)
  }

  // The written rows show the books one by one, and reading the arrays back gives every book again.
  lemma {:induction false} OutputIsLossless(tables: seq<seq<OutRow>>, entries: seq<Entry>)
    requires Flatten(tables) == ToRows(entries)
    ensures FromRows(Flatten(tables)) == entries
    ensures |Flatten(tables)| == |entries|
    ensures forall i :: 0 <= i < |entries| ==> Shows(Flatten(tables)[i], entries[i])
  {
    forall i | 0 <= i < |entries| ensures FromRows(ToRows(entries))[i] == entries[i] {
      RowAt(entries, i);
      RowRoundTrip(entries[i]);
    }
    forall i | 0 <= i < |entries| ensures Shows(ToRows(entries)[i], entries[i]) {
      RowAt(entries, i);
    }
  }

  lemma {:induction false} RowAt(entries: seq<Entry>, i: nat)
    requires i < |entries|
    ensures ToRows(entries)[i] == SnapshotToRow(entries[i])
  {
    if i < |entries| - 1 { RowAt(entries[..|entries| - 1], i); }
  }

  lemma {:induction false} RowRoundTrip(entry: Entry)
    ensures RowToSnapshot(SnapshotToRow(entry)) == entry
  {
    ListingRoundTrip(Bid, entry.sides.bids);
    ListingRoundTrip(Ask, entry.sides.asks);
  }

  // The chunking is the only one with these sizes.
  lemma {:induction false} ChunksUnique<T>(xs: seq<seq<T>>, ys: seq<seq<T>>, size: nat)
    requires size > 0 && Chunked(xs, size) && Chunked(ys, size) && Flatten(xs) == Flatten(ys)
    ensures xs == ys
  {
    if xs != [] { FlattenTail(xs); }
    if ys != [] { FlattenTail(ys); }
    assert xs != [] ==> |xs[0]| > 0;
    assert ys != [] ==> |ys[0]| > 0;
    if xs != [] {
      assert |xs[0]| == if |Flatten(xs)| < size then |Flatten(xs)| else size;
      assert |ys[0]| == if |Flatten(ys)| < size then |Flatten(ys)| else size;
      assert xs[0] == Flatten(xs)[..|xs[0]|] && ys[0] == Flatten(ys)[..|ys[0]|];
      assert Flatten(xs[1..]) == Flatten(xs)[|xs[0]|..] && Flatten(ys[1..]) == Flatten(ys)[|ys[0]|..];
      ChunksUnique(xs[1..], ys[1..], size);
    }
  }
}
