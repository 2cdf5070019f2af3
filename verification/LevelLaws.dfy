/** What applying level changes means, entry by entry: which entries of a list count, and that per price
    the last of them decides. Nothing here is used by the books; it is what they are held against. */
module LevelLaws {
  import opened Options
  import opened PriceLevels
  import opened LobFilters
  import opened LevelFilters

  ghost predicate Indices(ws: seq<WireLevel>, through: set<int>) {
    forall i :: i in through ==> 0 <= i < |ws| && ws[i].Some?
  }

  // None of the entries of `ws` at the indices `through` is at price p.
  ghost predicate Untouched(ws: seq<WireLevel>, through: set<int>, p: real)
    requires Indices(ws, through)
  {
    forall i :: i in through ==> ws[i].value.price != p
  }

  ghost predicate IsLastAt(ws: seq<WireLevel>, through: set<int>, p: real, i: int)
    requires Indices(ws, through)
  {
    i in through && ws[i].value.price == p && forall j :: j in through && ws[j].value.price == p ==> j <= i
  }

  // `after` is `before` with the entries at `through` applied: at each price the last of them decides,
  // amount zero removes, and a price without one keeps its level.
  ghost predicate AppliedBy(before: Levels, ws: seq<WireLevel>, through: set<int>, after: Levels) {
    && Indices(ws, through)
    && forall p ::
         && (Untouched(ws, through, p) ==> Lookup(after, p) == Lookup(before, p))
         && forall i :: IsLastAt(ws, through, p, i) ==>
              Lookup(after, p) == if ws[i].value.amount == 0.0 then None else Some(ws[i].value.amount)
  }

  // ----- which entries -----

  ghost function Present(ws: seq<WireLevel>): set<int> {
    set i | 0 <= i < |ws| && ws[i].Some?
  }

  ghost function Positives(ws: seq<WireLevel>): set<int> {
    set i | 0 <= i < |ws| && ws[i].Some? && ws[i].value.amount > 0.0
  }

  // The n smallest members.
  ghost function First(s: set<int>, n: nat): set<int> {
    set i | i in s && |Below(s, i)| < n
  }

  ghost function Below(s: set<int>, i: int): set<int> {
    set j | j in s && j < i
  }

  // Within pct percent of a best price: below a best bid, above a best ask.
  ghost predicate Within(side: Side, best: real, pct: real, p: real) {
    if side.Bid? then (best - p) * 100.0 <= pct * best else (p - best) * 100.0 <= pct * best
  }

  ghost predicate IsBestOf(side: Side, m: Levels, x: real) {
    x in m && forall q :: q in m ==> if side.Bid? then q <= x else q >= x
  }

  // Within pct percent of the best stored price; anything is, when nothing is stored.
  ghost predicate InSideWindow(side: Side, m: Levels, pct: real, p: real) {
    m == map[] || exists x :: IsBestOf(side, m, x) && Within(side, x, pct, p)
  }

  // ----- the entries picked from a list, in order -----

  ghost function Picked(ws: seq<WireLevel>, through: set<int>, i: nat): seq<Level>
    requires Indices(ws, through) && i <= |ws|
    decreases |ws| - i
  {
    if i == |ws| then []
    else if i in through then [ws[i].value] + Picked(ws, through, i + 1)
    else Picked(ws, through, i + 1)
  }

  lemma {:induction false} PickedStep(ws: seq<WireLevel>, through: set<int>, i: nat, p: real)
    requires Indices(ws, through) && i < |ws|
    ensures LastWrite(Picked(ws, through, i), p)
         == Or(LastWrite(Picked(ws, through, i + 1), p),
               if i in through && ws[i].value.price == p then Some(ws[i].value.amount) else None)
  {
    if i in through {
      LastWriteAppend([ws[i].value], Picked(ws, through, i + 1), p);
      assert [ws[i].value][1..] == [];
    }
  }

  // The index of the last picked entry at a price, if there is one.
  ghost function LastIndex(ws: seq<WireLevel>, through: set<int>, p: real, i: nat): (last: Option<int>)
    requires Indices(ws, through) && i <= |ws|
    ensures last.None? ==> forall j :: j in through && j >= i ==> ws[j].value.price != p
    ensures last.Some? ==> last.value in through && last.value >= i && ws[last.value].value.price == p
    ensures last.Some? ==> forall j :: j in through && ws[j].value.price == p ==> j <= last.value
    decreases |ws| - i
  {
    if i == |ws| then None
    else
      var rest := LastIndex(ws, through, p, i + 1);
      if rest.Some? then rest
      else if i in through && ws[i].value.price == p then Some(i)
      else None
  }

  lemma {:induction false} LastPicked(ws: seq<WireLevel>, through: set<int>, p: real, i: nat)
    requires Indices(ws, through) && i <= |ws|
    ensures var last := LastIndex(ws, through, p, i);
      LastWrite(Picked(ws, through, i), p) == if last.Some? then Some(ws[last.value].value.amount) else None
    decreases |ws| - i
  {
    if i < |ws| {
      LastPicked(ws, through, p, i + 1);
      PickedStep(ws, through, i, p);
    }
  }

  lemma {:induction false} PickedApply(before: Levels, ws: seq<WireLevel>, through: set<int>)
    requires Indices(ws, through)
    ensures AppliedBy(before, ws, through, Upsert(before, Picked(ws, through, 0)))
  {
    forall p
      ensures Untouched(ws, through, p) ==> Lookup(Upsert(before, Picked(ws, through, 0)), p) == Lookup(before, p)
      ensures forall i :: IsLastAt(ws, through, p, i) ==>
                Lookup(Upsert(before, Picked(ws, through, 0)), p)
                == if ws[i].value.amount == 0.0 then None else Some(ws[i].value.amount)
    {
      PickedAt(before, ws, through, p);
    }
  }

  lemma {:induction false} PickedAt(before: Levels, ws: seq<WireLevel>, through: set<int>, p: real)
    requires Indices(ws, through)
    ensures Untouched(ws, through, p) ==> Lookup(Upsert(before, Picked(ws, through, 0)), p) == Lookup(before, p)
    ensures forall i :: IsLastAt(ws, through, p, i) ==>
              Lookup(Upsert(before, Picked(ws, through, 0)), p)
              == if ws[i].value.amount == 0.0 then None else Some(ws[i].value.amount)
  {
    UpsertAt(before, Picked(ws, through, 0), p);
    LastPicked(ws, through, p, 0);
    var last := LastIndex(ws, through, p, 0);
    forall i | IsLastAt(ws, through, p, i) ensures last == Some(i) {}
  }

  // There is only one such side.
  lemma {:induction false} AppliedByIsUnique(before: Levels, ws: seq<WireLevel>, through: set<int>,
                                             a: Levels, b: Levels)
    requires AppliedBy(before, ws, through, a) && AppliedBy(before, ws, through, b)
    ensures a == b
  {
    forall p ensures Lookup(a, p) == Lookup(b, p) {
      var last := LastIndex(ws, through, p, 0);
      if last.Some? { assert IsLastAt(ws, through, p, last.value); } else { assert Untouched(ws, through, p); }
    }
    SameLookups(a, b);
  }

  // ----- the lists the books work with, as picked entries -----

  lemma {:induction false} FilteredPicks(ws: seq<WireLevel>, keep: Level -> bool, through: set<int>, i: nat)
    requires i <= |ws| && through == set j | 0 <= j < |ws| && ws[j].Some? && keep(ws[j].value)
    ensures Parsed(Filtered(ws[i..], keep)) == Picked(ws, through, i)
    decreases |ws| - i
  {
    if i < |ws| {
      assert ws[i..][1..] == ws[i + 1..];
      FilteredPicks(ws, keep, through, i + 1);
      ParsedFilteredStep(ws[i..], keep);
    }
  }

  lemma {:induction false} ParsedPicks(ws: seq<WireLevel>, i: nat)
    requires i <= |ws|
    ensures Parsed(ws[i..]) == Picked(ws, Present(ws), i)
    decreases |ws| - i
  {
    if i < |ws| {
      assert ws[i..][1..] == ws[i + 1..];
      ParsedPicks(ws, i + 1);
    }
  }

  // The positive entries among some.
  lemma {:induction false} PositivePicks(ws: seq<WireLevel>, through: set<int>, i: nat)
    requires Indices(ws, through) && i <= |ws|
    ensures Positive(Picked(ws, through, i)) == Picked(ws, through * Positives(ws), i)
    decreases |ws| - i
  {
    if i < |ws| {
      PositivePicks(ws, through, i + 1);
      if i in through { PositiveCons(ws[i].value, Picked(ws, through, i + 1)); }
    }
  }

  // Entries below index n of a list are entries of the list cut at n.
  lemma {:induction false} CutPicks(ws: seq<WireLevel>, n: nat, through: set<int>, i: nat)
    requires i <= n <= |ws| && Indices(ws, through) && forall j :: j in through ==> j < n
    ensures Indices(ws[..n], through) && Picked(ws[..n], through, i) == Picked(ws, through, i)
    decreases n - i
  {
    if i < n { CutPicks(ws, n, through, i + 1); } else { NonePicked(ws, through, i); }
  }

  lemma {:induction false} NonePicked(ws: seq<WireLevel>, through: set<int>, i: nat)
    requires Indices(ws, through) && i <= |ws| && forall j :: j in through ==> j < i
    ensures Picked(ws, through, i) == []
    decreases |ws| - i
  {
    if i < |ws| { NonePicked(ws, through, i + 1); }
  }

  lemma {:induction false} BelowStep(s: set<int>, i: int)
    ensures |Below(s, i + 1)| == |Below(s, i)| + if i in s then 1 else 0
  {
    assert Below(s, i + 1) == if i in s then Below(s, i) + {i} else Below(s, i);
  }

  // Taking the first n picked entries picks the n smallest indices.
  lemma {:induction false} TakePicks(ws: seq<WireLevel>, through: set<int>, n: nat, i: nat)
    requires Indices(ws, through) && i <= |ws|
    ensures var left := if |Below(through, i)| <= n then n - |Below(through, i)| else 0;
      Take(Picked(ws, through, i), left) == Picked(ws, First(through, n), i)
    decreases |ws| - i
  {
    if i < |ws| {
      TakePicks(ws, through, n, i + 1);
      BelowStep(through, i);
      if i in through && |Below(through, i)| < n {
        TakeCons(ws[i].value, Picked(ws, through, i + 1), n - |Below(through, i)|);
      }
    }
  }

  lemma {:induction false} FirstPicks(ws: seq<WireLevel>, through: set<int>, n: nat)
    requires Indices(ws, through)
    ensures Take(Picked(ws, through, 0), n) == Picked(ws, First(through, n), 0)
  {
    assert Below(through, 0) == {};
    TakePicks(ws, through, n, 0);
  }

  // ----- the model's window, as a percentage -----

  // Around a best price the window is a percentage of it; without one, everything is inside.
  lemma {:induction false} WindowIsAPercentage(side: Side, pct: real, best: real, p: real)
    ensures MaxLevelPct(pct).InWindow(Some(best), p, side.Bid?) <==> Within(side, best, pct, p)
    ensures MaxLevelPct(pct).InWindow(None, p, side.Bid?)
  {
    var k := pct / 100.0;
    assert best * (1.0 - k) == best - best * k && best * (1.0 + k) == best + best * k;
    assert (best * k) * 100.0 == pct * best;
  }

  lemma {:induction false} BestIsBestOf(side: Side, m: Levels)
    ensures m != map[] ==> Best(side, m).Some? && IsBestOf(side, m, Best(side, m).value)
    ensures forall x :: IsBestOf(side, m, x) ==> Best(side, m) == Some(x)
  {
  }

  lemma {:induction false} WindowIsSideWindow(side: Side, m: Levels, pct: real, p: real)
    ensures MaxLevelPct(pct).InWindow(Best(side, m), p, side.Bid?) <==> InSideWindow(side, m, pct, p)
  {
    BestIsBestOf(side, m);
    if m != map[] { WindowIsAPercentage(side, pct, Best(side, m).value, p); }
  }
}
