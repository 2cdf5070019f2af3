/** The best n levels of a side, and which batches of changes keep a side the best n of another. */
module TopLevels {
  import opened Options
  import opened PriceLevels
  import opened MapSums

  // b holds the best n levels of full: as many as there can be, exact, and better than all the rest.
  ghost predicate IsTop(side: Side, b: Levels, full: Levels, n: nat) {
    && Submap(b, full)
    && |b| == (if |full| <= n then |full| else n)
    && forall p, q :: p in b && q in full && q !in b ==> Better(side, p, q)
  }

  lemma {:induction false} Outside<T>(a: set<T>, b: set<T>) returns (x: T)
    requires |a| == |b| && a != b
    ensures x in a && x !in b
  {
    if a <= b { ProperSubset(a, b); }
    x :| x in a && x !in b;
  }

  lemma {:induction false} ProperSubset<T>(a: set<T>, b: set<T>)
    requires a <= b && a != b
    ensures |a| < |b|
  {
    var x := Member(b - a);
    SubsetSize(a, b - {x});
  }

  // There is only one such part of a side.
  lemma {:induction false} TopUnique(side: Side, a: Levels, b: Levels, full: Levels, n: nat)
    requires IsTop(side, a, full, n) && IsTop(side, b, full, n)
    ensures a == b
  {
    if a.Keys != b.Keys {
      var x := Outside(a.Keys, b.Keys);
      var y := Outside(b.Keys, a.Keys);
    }
  }

  // What a best-first list's first n leave out is worse than all they hold.
  lemma {:induction false} TakenIsBetter(side: Side, all: seq<Level>, n: nat, l: Level, r: Level)
    requires StrictlySorted(side, all)
    requires l in Take(all, n) && r in all && r !in Take(all, n)
    ensures l in all && Better(side, l.price, r.price)
  {
    var i :| 0 <= i < |Take(all, n)| && Take(all, n)[i] == l;
    var j :| 0 <= j < |all| && all[j] == r;
    assert forall x :: 0 <= x < |Take(all, n)| ==> Take(all, n)[x] == all[x];
  }

  // The map of the first n levels of a side, and its listing.
  lemma {:induction false} TakenMap(side: Side, full: Levels, n: nat) returns (top: Levels)
    ensures Listing(side, top) == Take(Listing(side, full), n)
    ensures forall p, a :: Lookup(top, p) == Some(a) <==> Level(p, a) in Take(Listing(side, full), n)
  {
    var some := Take(Listing(side, full), n);
    top := ToMap(some);
    ToMapOfSorted(side, some);
    SortedUnique(side, Listing(side, top), some);
  }

  lemma {:induction false} TakenIsSubmap(side: Side, top: Levels, full: Levels, n: nat)
    requires Listing(side, top) == Take(Listing(side, full), n)
    ensures Submap(top, full)
  {
    TakeMembers(Listing(side, full), n);
    forall p | Lookup(top, p).Some? ensures Lookup(full, p) == Lookup(top, p) {
      assert Level(p, top[p]) in Listing(side, top);
      assert Level(p, top[p]) in Listing(side, full);
    }
    LookupSubmap(top, full);
  }

  lemma {:induction false} TakenBeatsTheRest(side: Side, top: Levels, full: Levels, n: nat, p: real, q: real)
    requires Listing(side, top) == Take(Listing(side, full), n)
    requires p in top && q in full && q !in top
    ensures Better(side, p, q)
  {
    var l, r := Level(p, top[p]), Level(q, full[q]);
    assert l in Listing(side, top);
    assert r in Listing(side, full);
    assert forall x :: x in Listing(side, top) ==> x.price in top;
    TakenIsBetter(side, Listing(side, full), n, l, r);
  }

  lemma {:induction false} TopMap(side: Side, full: Levels, n: nat) returns (top: Levels)
    ensures IsTop(side, top, full, n)
    ensures Listing(side, top) == Take(Listing(side, full), n)
  {
    top := TakenMap(side, full, n);
    ListedIsTop(side, top, full, n);
  }

  lemma {:induction false} ListedIsTop(side: Side, top: Levels, full: Levels, n: nat)
    requires Listing(side, top) == Take(Listing(side, full), n)
    ensures IsTop(side, top, full, n)
  {
    TakenIsSubmap(side, top, full, n);
    forall p, q | p in top && q in full && q !in top ensures Better(side, p, q) {
      TakenBeatsTheRest(side, top, full, n, p, q);
    }
    assert |top| == |Listing(side, top)| && |full| == |Listing(side, full)|;
  }

  lemma {:induction false} TopIffListing(side: Side, b: Levels, full: Levels, n: nat)
    ensures IsTop(side, b, full, n) <==> Listing(side, b) == Take(Listing(side, full), n)
  {
    if IsTop(side, b, full, n) {
      var top := TopMap(side, full, n);
      TopUnique(side, b, top, full, n);
    }
    if Listing(side, b) == Take(Listing(side, full), n) { ListedIsTop(side, b, full, n); }
  }

  // ----- batches of changes -----

  lemma {:induction false} SameSizeSubmap(b: Levels, full: Levels)
    requires Submap(b, full) && |b| == |full|
    ensures b == full
  {
    if b.Keys != full.Keys { ProperSubset(b.Keys, full.Keys); }
  }

  // A side with room is the whole of the full side.
  lemma {:induction false} RoomyIsWhole(side: Side, m: Levels, full: Levels, n: nat)
    requires IsTop(side, m, full, n) && |m| < n
    ensures m == full
  {
    SameSizeSubmap(m, full);
  }

  // A full side that takes only what a batch does to its own prices stays the top n exactly when: if it
  // loses a level, nothing is left outside it; if not, the batch brings nothing that beats any of it.
  ghost predicate FullSideKeepsTop(side: Side, m: Levels, full: Levels, ls: seq<Level>) {
    if exists p :: p in m && LastWrite(ls, p) == Some(0.0) then
      forall q :: q !in m ==> LastWrite(ls, q) == Some(0.0) || (LastWrite(ls, q).None? && q !in full)
    else
      forall p, q :: p in m && q !in m && LastWrite(ls, q).Some? && LastWrite(ls, q) != Some(0.0) ==> Better(side, p, q)
  }

  lemma {:induction false} OwnPricesAt(m: Levels, full: Levels, ls: seq<Level>, p: real)
    requires Submap(m, full)
    ensures Lookup(Restrict(Upsert(m, ls), m.Keys), p) == if p in m then Lookup(Upsert(full, ls), p) else None
    ensures p in m ==> (p in Upsert(full, ls) <==> LastWrite(ls, p) != Some(0.0))
    ensures p in Upsert(full, ls) <==> if LastWrite(ls, p).Some? then LastWrite(ls, p) != Some(0.0) else p in full
  {
    UpsertAt(m, ls, p);
    UpsertAt(full, ls, p);
  }

  lemma {:induction false} LevelLost(side: Side, m: Levels, full: Levels, ls: seq<Level>, n: nat, lost: real)
    requires IsTop(side, m, full, n) && |m| == n && lost in m && LastWrite(ls, lost) == Some(0.0)
    ensures IsTop(side, Restrict(Upsert(m, ls), m.Keys), Upsert(full, ls), n)
       <==> forall q :: q !in m ==> q !in Upsert(full, ls)
  {
    var m', full' := Restrict(Upsert(m, ls), m.Keys), Upsert(full, ls);
    forall p ensures Lookup(m', p) == if p in m then Lookup(full', p) else None { OwnPricesAt(m, full, ls, p); }
    OwnPricesAt(m, full, ls, lost);
    assert lost !in m' by { assert Lookup(m', lost) == None; }
    ProperSubset(m'.Keys, m.Keys);
    forall p | Lookup(m', p).Some? ensures Lookup(full', p) == Lookup(m', p) {}
    LookupSubmap(m', full');
    if IsTop(side, m', full', n) { SameSizeSubmap(m', full'); }
    if forall q :: q !in m ==> q !in full' { SameLookups(m', full'); }
  }

  lemma {:induction false} NoLevelLost(side: Side, m: Levels, full: Levels, ls: seq<Level>, n: nat)
    requires IsTop(side, m, full, n) && |m| == n
    requires forall p :: p in m ==> LastWrite(ls, p) != Some(0.0)
    ensures IsTop(side, Restrict(Upsert(m, ls), m.Keys), Upsert(full, ls), n)
       <==> forall p, q :: p in m && q !in m && q in Upsert(full, ls) ==> Better(side, p, q)
  {
    var m', full' := Restrict(Upsert(m, ls), m.Keys), Upsert(full, ls);
    forall p ensures Lookup(m', p) == (if p in m then Lookup(full', p) else None) && (p in m <==> p in m') {
      OwnPricesAt(m, full, ls, p);
    }
    forall p | Lookup(m', p).Some? ensures Lookup(full', p) == Lookup(m', p) {}
    LookupSubmap(m', full');
    assert m'.Keys == m.Keys;
    assert |m'| == |m'.Keys| && |m| == |m.Keys|;
    SubsetSize(m'.Keys, full'.Keys);
  }

  lemma {:induction false} FullSideBatch(side: Side, m: Levels, full: Levels, ls: seq<Level>, n: nat)
    requires IsTop(side, m, full, n) && |m| == n
    ensures IsTop(side, Restrict(Upsert(m, ls), m.Keys), Upsert(full, ls), n) <==> FullSideKeepsTop(side, m, full, ls)
  {
    forall q
      ensures q in Upsert(full, ls) <==> if LastWrite(ls, q).Some? then LastWrite(ls, q) != Some(0.0) else q in full
    {
      OwnPricesAt(m, full, ls, q);
    }
    if lost :| lost in m && LastWrite(ls, lost) == Some(0.0) {
      LevelLost(side, m, full, ls, n, lost);
    } else {
      NoLevelLost(side, m, full, ls, n);
    }
  }

  // A part of a side that lacks some of its prices, against the top n.
  lemma {:induction false} PartIsTopExactlyWhen(side: Side, part: Levels, full: Levels, missing: set<real>, n: nat)
    requires missing <= full.Keys && part.Keys == full.Keys - missing && |part| <= n
    ensures IsTop(side, part, full, n)
       <==> Submap(part, full)
            && (missing == {} || (|full| == n + |missing|
                                  && forall p, q :: p in full && p !in missing && q in missing ==> Better(side, p, q)))
  {
    assert |full.Keys - missing| == |full.Keys| - |missing|;
    assert |part| == |part.Keys| && |full| == |full.Keys|;
  }

  // Prices of a list that its first n entries do not have.
  function LatePrices(ls: seq<Level>, n: nat): set<real> {
    set l | l in ls && LastWrite(Take(ls, n), l.price).None? :: l.price
  }

  // Whether the first n entries of a list build the top n of what the whole list builds: no price is
  // given another amount later, and none is missing, or the first n are n prices that beat the rest.
  ghost predicate FirstAreTop(side: Side, ls: seq<Level>, n: nat) {
    var all, late := Upsert(map[], ls), LatePrices(ls, n);
    && (forall l :: l in Take(ls, n) ==> LastWrite(Take(ls, n), l.price) == LastWrite(ls, l.price))
    && (late == {} || (|all| == n + |late|
                       && forall p, q :: p in all && p !in late && q in late ==> Better(side, p, q)))
  }

  lemma {:induction false} BuiltAt(ls: seq<Level>, p: real)
    requires forall l :: l in ls ==> l.amount != 0.0
    ensures Lookup(Upsert(map[], ls), p) == LastWrite(ls, p)
    ensures p in Upsert(map[], ls) <==> exists l :: l in ls && l.price == p
  {
    UpsertAt(map[], ls, p);
    LastWriteIsMember(ls, p);
  }

  lemma {:induction false} FirstPrices(ls: seq<Level>, n: nat)
    requires forall l :: l in ls ==> l.amount != 0.0
    ensures var part, all, late := Upsert(map[], Take(ls, n)), Upsert(map[], ls), LatePrices(ls, n);
      late <= all.Keys && part.Keys == all.Keys - late && |part| <= n
  {
    var head := Take(ls, n);
    TakeMembers(ls, n);
    forall p
      ensures p in Upsert(map[], head) <==> exists l :: l in head && l.price == p
      ensures p in Upsert(map[], ls) <==> exists l :: l in ls && l.price == p
      ensures p in LatePrices(ls, n) <==> p in Upsert(map[], ls) && p !in Upsert(map[], head)
    {
      BuiltAt(head, p);
      BuiltAt(ls, p);
    }
    UpsertSize(map[], head);
  }

  lemma {:induction false} FirstAmounts(ls: seq<Level>, n: nat)
    requires forall l :: l in ls ==> l.amount != 0.0
    ensures Submap(Upsert(map[], Take(ls, n)), Upsert(map[], ls))
       <==> forall l :: l in Take(ls, n) ==> LastWrite(Take(ls, n), l.price) == LastWrite(ls, l.price)
  {
    var head := Take(ls, n);
    var part, all := Upsert(map[], head), Upsert(map[], ls);
    TakeMembers(ls, n);
    forall p
      ensures Lookup(part, p) == LastWrite(head, p) && Lookup(all, p) == LastWrite(ls, p)
      ensures p in part <==> exists l :: l in head && l.price == p
    {
      BuiltAt(head, p);
      BuiltAt(ls, p);
    }
    if Submap(part, all) {
      forall l | l in head ensures LastWrite(head, l.price) == LastWrite(ls, l.price) {
        assert l.price in part;
      }
    }
    if forall l :: l in head ==> LastWrite(head, l.price) == LastWrite(ls, l.price) {
      forall p | p in part ensures p in all && all[p] == part[p] {
        var l :| l in head && l.price == p;
        assert Lookup(part, p) == Lookup(all, p);
      }
    }
  }

  lemma {:induction false} FirstAreTopExactlyWhen(side: Side, ls: seq<Level>, n: nat)
    requires forall l :: l in ls ==> l.amount != 0.0
    ensures IsTop(side, Upsert(map[], Take(ls, n)), Upsert(map[], ls), n) <==> FirstAreTop(side, ls, n)
  {
    FirstPrices(ls, n);
    FirstAmounts(ls, n);
    PartIsTopExactlyWhen(side, Upsert(map[], Take(ls, n)), Upsert(map[], ls), LatePrices(ls, n), n);
  }
}
