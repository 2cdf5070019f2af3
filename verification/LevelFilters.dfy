/** Filtering a list of changes by a fixed test, and what that does price by price. */
module LevelFilters {
  import opened Options
  import opened PriceLevels
  import opened MapSums

  // Filtering with one fixed test per level; unparseable levels pass.
  function Filtered(ws: seq<WireLevel>, keep: Level -> bool): seq<WireLevel> {
    if ws == [] then []
    else if ws[0].None? || keep(ws[0].value) then [ws[0]] + Filtered(ws[1..], keep)
    else Filtered(ws[1..], keep)
  }

  lemma {:induction false} FilteredMembers(ws: seq<WireLevel>, keep: Level -> bool)
    ensures forall l :: Some(l) in Filtered(ws, keep) <==> Some(l) in ws && keep(l)
    ensures |Filtered(ws, keep)| <= |ws|
  {
    if ws != [] {
      FilteredMembers(ws[1..], keep);
      assert forall w :: w in ws <==> w == ws[0] || w in ws[1..];
    }
  }

  lemma {:induction false} FilteredInvents(ws: seq<WireLevel>, keep: Level -> bool)
    ensures forall w :: w in Filtered(ws, keep) ==> w in ws
  {
    if ws != [] { FilteredInvents(ws[1..], keep); }
  }

  lemma {:induction false} FilteredSame(ws: seq<WireLevel>, keep: Level -> bool, keep': Level -> bool)
    requires forall l :: keep(l) == keep'(l)
    ensures Filtered(ws, keep) == Filtered(ws, keep')
  {
    if ws != [] { FilteredSame(ws[1..], keep, keep'); }
  }

  lemma {:induction false} FilteredAll(ws: seq<WireLevel>, keep: Level -> bool)
    requires forall l :: Some(l) in ws ==> keep(l)
    ensures Filtered(ws, keep) == ws
  {
    if ws != [] {
      assert ws == [ws[0]] + ws[1..];
      FilteredAll(ws[1..], keep);
    }
  }

  lemma {:induction false} ParsedFilteredStep(ws: seq<WireLevel>, keep: Level -> bool)
    requires ws != []
    ensures Parsed(Filtered(ws, keep))
         == (if ws[0].Some? && keep(ws[0].value) then [ws[0].value] else []) + Parsed(Filtered(ws[1..], keep))
  {
    if ws[0].None? || keep(ws[0].value) { ParsedCons(ws[0], Filtered(ws[1..], keep)); }
  }

  lemma {:induction false} FilteredStep(ws: seq<WireLevel>, keep: Level -> bool, p: real)
    requires ws != []
    ensures var own := if ws[0].Some? && ws[0].value.price == p then Some(ws[0].value.amount) else None;
      && LastWrite(Parsed(ws), p) == Or(LastWrite(Parsed(ws[1..]), p), own)
      && LastWrite(Parsed(Filtered(ws, keep)), p)
         == Or(LastWrite(Parsed(Filtered(ws[1..], keep)), p), if own.Some? && keep(ws[0].value) then own else None)
  {
    var own := if ws[0].Some? then [ws[0].value] else [];
    LastWriteAppend(own, Parsed(ws[1..]), p);
    if ws[0].None? || keep(ws[0].value) {
      ParsedCons(ws[0], Filtered(ws[1..], keep));
      LastWriteAppend(own, Parsed(Filtered(ws[1..], keep)), p);
    } else {
      assert Filtered(ws, keep) == Filtered(ws[1..], keep);
    }
  }

  // The last kept change at a price is its last change, when all its changes are kept.
  lemma {:induction false} FilteredKeepsPrice(ws: seq<WireLevel>, keep: Level -> bool, p: real)
    requires forall l :: Some(l) in ws && l.price == p ==> keep(l)
    ensures LastWrite(Parsed(Filtered(ws, keep)), p) == LastWrite(Parsed(ws), p)
  {
    if ws != [] {
      assert forall w :: w in ws[1..] ==> w in ws;
      assert ws[0] in ws;
      FilteredKeepsPrice(ws[1..], keep, p);
      FilteredStep(ws, keep, p);
    }
  }

  // If the last change at a price removes it, the last kept change does too, removals being kept.
  lemma {:induction false} FilteredKeepsRemoval(ws: seq<WireLevel>, keep: Level -> bool, p: real)
    requires keep(Level(p, 0.0))
    ensures var last, kept := LastWrite(Parsed(ws), p), LastWrite(Parsed(Filtered(ws, keep)), p);
      && (last.None? ==> kept.None?)
      && (last == Some(0.0) ==> kept == Some(0.0))
  {
    if ws != [] {
      FilteredKeepsRemoval(ws[1..], keep, p);
      FilteredStep(ws, keep, p);
    }
  }

  lemma {:induction false} StoredIsKept(kept: seq<WireLevel>, p: real)
    ensures p in FromSnapshot(Parsed(kept)) <==> exists l :: Some(l) in kept && l.amount > 0.0 && l.price == p
  {
    UpsertAt(map[], Positive(Parsed(kept)), p);
    LastWriteIsMember(Positive(Parsed(kept)), p);
    ParsedMembers(kept);
    if p in FromSnapshot(Parsed(kept)) {
      var l := Level(p, LastWrite(Positive(Parsed(kept)), p).value);
      assert Some(l) in kept;
    }
  }

  lemma {:induction false} PositiveFiltered(ws: seq<WireLevel>, keep: Level -> bool, p: real)
    requires forall l :: Some(l) in ws && l.price == p ==> keep(l)
    ensures LastWrite(Positive(Parsed(Filtered(ws, keep))), p) == LastWrite(Positive(Parsed(ws)), p)
  {
    if ws != [] {
      assert forall w :: w in ws[1..] ==> w in ws;
      assert ws[0] in ws;
      PositiveFiltered(ws[1..], keep, p);
      var tail := Filtered(ws[1..], keep);
      if ws[0].None? {
        ParsedCons(ws[0], tail);
        assert [] + Parsed(tail) == Parsed(tail) && [] + Parsed(ws[1..]) == Parsed(ws[1..]);
      } else {
        PositiveLastWrite(ws[0].value, Parsed(ws[1..]), p);
        if keep(ws[0].value) {
          ParsedCons(ws[0], tail);
          PositiveLastWrite(ws[0].value, Parsed(tail), p);
        } else {
          assert Filtered(ws, keep) == tail;
        }
      }
    }
  }

  lemma {:induction false} PositiveLastWrite(l: Level, ls: seq<Level>, p: real)
    ensures LastWrite(Positive([l] + ls), p)
         == Or(LastWrite(Positive(ls), p), if l.amount > 0.0 && l.price == p then Some(l.amount) else None)
  {
    PositiveCons(l, ls);
    LastWriteAppend(if l.amount > 0.0 then [l] else [], Positive(ls), p);
  }

  // Building a snapshot from the kept levels, at a price whose non-zero changes are all kept or all dropped.
  lemma {:induction false} WindowedSnapshot(ws: seq<WireLevel>, keep: Level -> bool, p: real, within: bool)
    requires forall l: Level :: l.price == p && l.amount != 0.0 ==> keep(l) == within
    requires keep(Level(p, 0.0))
    ensures Lookup(FromSnapshot(Parsed(Filtered(ws, keep))), p)
         == if within then Lookup(FromSnapshot(Parsed(ws)), p) else None
  {
    if within {
      PositiveFiltered(ws, keep, p);
      UpsertAt(map[], Positive(Parsed(Filtered(ws, keep))), p);
      UpsertAt(map[], Positive(Parsed(ws)), p);
    } else {
      StoredIsKept(Filtered(ws, keep), p);
      FilteredMembers(ws, keep);
    }
  }

  // Applying the kept changes of an update, at such a price.
  lemma {:induction false} WindowedUpdate(m: Levels, ws: seq<WireLevel>, keep: Level -> bool, p: real, within: bool)
    requires forall l: Level :: l.price == p && l.amount != 0.0 ==> keep(l) == within
    requires keep(Level(p, 0.0))
    ensures Lookup(Upsert(m, Parsed(Filtered(ws, keep))), p)
         == if within then Lookup(Upsert(m, Parsed(ws)), p)
            else if Some(Level(p, 0.0)) in ws then None
            else Lookup(m, p)
  {
    var kept := Filtered(ws, keep);
    UpsertAt(m, Parsed(kept), p);
    UpsertAt(m, Parsed(ws), p);
    if within {
      FilteredKeepsPrice(ws, keep, p);
    } else {
      FilteredMembers(ws, keep);
      ParsedMembers(kept);
      LastWriteIsMember(Parsed(kept), p);
      if Some(Level(p, 0.0)) in ws {
        assert Level(p, 0.0) in Parsed(kept);
      }
    }
  }

  // The test a side without room puts to a change: a removal, or a price it holds.
  function Known(m: Levels): Level -> bool {
    (l: Level) => l.amount == 0.0 || l.price in m
  }

  lemma {:induction false} UnknownAt(m: Levels, ws: seq<WireLevel>, p: real)
    requires p !in m
    ensures LastWrite(Parsed(Filtered(ws, Known(m))), p) == if Some(Level(p, 0.0)) in ws then Some(0.0) else None
  {
    var kept := Filtered(ws, Known(m));
    FilteredMembers(ws, Known(m));
    ParsedMembers(kept);
    LastWriteIsMember(Parsed(kept), p);
    if Some(Level(p, 0.0)) in ws { assert Level(p, 0.0) in Parsed(kept); }
  }

  // What passes that test is exactly the batch's effect on the prices the side holds.
  lemma {:induction false} KnownChanges(m: Levels, ws: seq<WireLevel>)
    ensures Upsert(m, Parsed(Filtered(ws, Known(m)))) == Restrict(Upsert(m, Parsed(ws)), m.Keys)
  {
    var kept, all := Upsert(m, Parsed(Filtered(ws, Known(m)))), Upsert(m, Parsed(ws));
    forall p ensures Lookup(kept, p) == Lookup(Restrict(all, m.Keys), p) {
      UpsertAt(m, Parsed(Filtered(ws, Known(m))), p);
      UpsertAt(m, Parsed(ws), p);
      if p in m { FilteredKeepsPrice(ws, Known(m), p); } else { UnknownAt(m, ws, p); }
    }
    SameLookups(kept, Restrict(all, m.Keys));
  }
}
