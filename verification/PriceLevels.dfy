/** Optional values, as the source's `Option`. */
module Options {
  datatype Option<+T> = None | Some(value: T)

  function Or<T>(a: Option<T>, b: Option<T>): Option<T> {
    if a.Some? then a else b
  }
}

/** One side of a book as a map from price to amount, the list of level changes a message
    carries, and the order in which a side is read (bids downwards, asks upwards). */
module PriceLevels {
  import opened Options

  datatype Side = Bid | Ask

  datatype Level = Level(price: real, amount: real)

  // A level as received: None when its price or its amount is missing or not a number.
  type WireLevel = Option<Level>

  type Levels = map<real, real>

  function Parsed(ws: seq<WireLevel>): (ls: seq<Level>)
    ensures |ls| <= |ws|
  {
    if ws == [] then []
    else if ws[0].Some? then [ws[0].value] + Parsed(ws[1..])
    else Parsed(ws[1..])
  }

  function Positive(ls: seq<Level>): (out: seq<Level>)
    ensures |out| <= |ls|
    ensures forall l :: l in out <==> l in ls && l.amount > 0.0
  {
    if ls == [] then []
    else if ls[0].amount > 0.0 then [ls[0]] + Positive(ls[1..])
    else Positive(ls[1..])
  }

  function Take<T>(s: seq<T>, n: nat): seq<T> {
    if |s| <= n then s else s[..n]
  }

  function Lookup<K, V>(m: map<K, V>, k: K): Option<V> {
    if k in m then Some(m[k]) else None
  }

  // Amount zero removes a level, anything else stores it.
  function SetLevel(m: Levels, price: real, amount: real): Levels {
    if amount == 0.0 then m - {price} else m[price := amount]
  }

  function Upsert(m: Levels, ls: seq<Level>): Levels
    decreases |ls|
  {
    if ls == [] then m else Upsert(SetLevel(m, ls[0].price, ls[0].amount), ls[1..])
  }

  function FromSnapshot(ls: seq<Level>): Levels {
    Upsert(map[], Positive(ls))
  }

  ghost predicate DistinctPrices(ls: seq<Level>) {
    forall i, j :: 0 <= i < j < |ls| ==> ls[i].price != ls[j].price
  }

  ghost predicate Submap<K, V>(a: map<K, V>, b: map<K, V>) {
    forall k :: k in a ==> k in b && a[k] == b[k]
  }

  // ----- what a list of changes does to one price -----

  // The amount of the last change at `price`, if the list has one.
  function LastWrite(ls: seq<Level>, price: real): Option<real> {
    if ls == [] then None
    else
      Or(LastWrite(ls[1..], price), if ls[0].price == price then Some(ls[0].amount) else None)
  }

  function NonZero(amount: real): Option<real> {
    if amount == 0.0 then None else Some(amount)
  }

  // Per price the last write wins, and zero removes.
  lemma {:induction false} UpsertAt(m: Levels, ls: seq<Level>, price: real)
    ensures Lookup(Upsert(m, ls), price)
         == match LastWrite(ls, price) case None => Lookup(m, price) case Some(a) => NonZero(a)
    decreases |ls|
  {
    if ls != [] {
      UpsertAt(SetLevel(m, ls[0].price, ls[0].amount), ls[1..], price);
    }
  }

  lemma {:induction false} LastWriteAppend(a: seq<Level>, b: seq<Level>, price: real)
    ensures LastWrite(a + b, price) == Or(LastWrite(b, price), LastWrite(a, price))
  {
    if a == [] {
      assert a + b == b;
    } else {
      assert (a + b)[1..] == a[1..] + b;
      LastWriteAppend(a[1..], b, price);
    }
  }

  lemma {:induction false} LastWriteIsMember(ls: seq<Level>, price: real)
    ensures LastWrite(ls, price).Some? ==> Level(price, LastWrite(ls, price).value) in ls
    ensures LastWrite(ls, price).None? <==> forall l :: l in ls ==> l.price != price
  {
    if ls != [] {
      LastWriteIsMember(ls[1..], price);
      assert forall l :: l in ls <==> l == ls[0] || l in ls[1..];
    }
  }

  lemma {:induction false} LastWriteOfDistinct(ls: seq<Level>, l: Level)
    requires DistinctPrices(ls) && l in ls
    ensures LastWrite(ls, l.price) == Some(l.amount)
  {
    LastWriteIsMember(ls, l.price);
  }

  lemma {:induction false} SameLookups<K, V>(a: map<K, V>, b: map<K, V>)
    requires forall k :: Lookup(a, k) == Lookup(b, k)
    ensures a == b
  {
    forall k ensures k in a <==> k in b {
      assert Lookup(a, k) == Lookup(b, k);
    }
    forall k | k in a ensures a[k] == b[k] {
      assert Lookup(a, k) == Lookup(b, k);
    }
  }

  lemma {:induction false} UpsertAppend(m: Levels, a: seq<Level>, b: seq<Level>)
    ensures Upsert(m, a + b) == Upsert(Upsert(m, a), b)
    decreases |a|
  {
    if a == [] {
      assert a + b == b;
    } else {
      assert (a + b)[1..] == a[1..] + b;
      UpsertAppend(SetLevel(m, a[0].price, a[0].amount), a[1..], b);
    }
  }

  lemma {:induction false} OneUpsert(m: Levels, price: real, amount: real)
    ensures Upsert(m, [Level(price, amount)]) == SetLevel(m, price, amount)
  {
    assert [Level(price, amount)][1..] == [];
  }

  // Replaying changes that a side already holds, in order, gives the same side back.
  lemma {:induction false} StaleReplay(m: Levels, a: seq<Level>, b: seq<Level>)
    ensures Upsert(Upsert(m, a + b), b) == Upsert(m, a + b)
  {
    forall p ensures Lookup(Upsert(Upsert(m, a + b), b), p) == Lookup(Upsert(m, a + b), p) {
      UpsertAt(Upsert(m, a + b), b, p);
      UpsertAt(m, a + b, p);
      LastWriteAppend(a, b, p);
    }
    SameLookups(Upsert(Upsert(m, a + b), b), Upsert(m, a + b));
  }

  // A snapshot with distinct positive prices stores exactly its positive levels.
  lemma {:induction false} FromSnapshotDistinct(ls: seq<Level>)
    requires DistinctPrices(Positive(ls))
    ensures forall p, a :: Lookup(FromSnapshot(ls), p) == Some(a) <==> a > 0.0 && Level(p, a) in ls
  {
    forall p, a
      ensures Lookup(FromSnapshot(ls), p) == Some(a) <==> a > 0.0 && Level(p, a) in ls
    {
      UpsertAt(map[], Positive(ls), p);
      LastWriteIsMember(Positive(ls), p);
      if Level(p, a) in Positive(ls) {
        LastWriteOfDistinct(Positive(ls), Level(p, a));
      }
    }
  }

  lemma {:induction false} UpsertKeys(m: Levels, ls: seq<Level>, added: set<real>)
    requires forall l :: l in ls && l.amount != 0.0 ==> l.price in m || l.price in added
    ensures Upsert(m, ls).Keys <= m.Keys + added
  {
    forall p | p in Upsert(m, ls) ensures p in m.Keys + added {
      UpsertAt(m, ls, p);
      LastWriteIsMember(ls, p);
    }
  }

  lemma {:induction false} SubsetSize<T>(a: set<T>, b: set<T>)
    requires a <= b
    ensures |a| <= |b|
  {
    if a != {} {
      var x :| x in a;
      SubsetSize(a - {x}, b - {x});
    }
  }

  lemma {:induction false} UnionSize<T>(a: set<T>, b: set<T>)
    ensures |a + b| <= |a| + |b|
  {
    assert |a + b| + |a * b| == |a| + |b|;
  }

  lemma {:induction false} FromSnapshotSize(ls: seq<Level>)
    ensures |FromSnapshot(ls)| <= |ls|
  {
    UpsertSize(map[], Positive(ls));
  }

  lemma {:induction false} UpsertSize(m: Levels, ls: seq<Level>)
    ensures |Upsert(m, ls)| <= |m| + |ls|
    decreases |ls|
  {
    if ls != [] {
      assert (m - {ls[0].price}).Keys == m.Keys - {ls[0].price};
      UpsertSize(SetLevel(m, ls[0].price, ls[0].amount), ls[1..]);
    }
  }

  lemma {:induction false} LookupSubmap(a: Levels, b: Levels)
    requires forall p :: Lookup(a, p).Some? ==> Lookup(b, p) == Lookup(a, p)
    ensures Submap(a, b)
  {
    forall p | p in a ensures p in b && a[p] == b[p] {
      assert Lookup(b, p) == Lookup(a, p);
    }
  }

  // ----- wire lists -----

  lemma {:induction false} ParsedMembers(ws: seq<WireLevel>)
    ensures forall l :: l in Parsed(ws) <==> Some(l) in ws
  {
    if ws != [] {
      ParsedMembers(ws[1..]);
      assert forall w :: w in ws <==> w == ws[0] || w in ws[1..];
    }
  }

  lemma {:induction false} ParsedSnoc(ws: seq<WireLevel>, w: WireLevel)
    ensures Parsed(ws + [w]) == if w.Some? then Parsed(ws) + [w.value] else Parsed(ws)
  {
    if ws == [] {
      assert ws + [w] == [w];
    } else {
      assert (ws + [w])[1..] == ws[1..] + [w];
      ParsedSnoc(ws[1..], w);
    }
  }

  lemma {:induction false} ParsedCons(w: WireLevel, ws: seq<WireLevel>)
    ensures Parsed([w] + ws) == if w.Some? then [w.value] + Parsed(ws) else Parsed(ws)
  {
    assert ([w] + ws)[1..] == ws;
  }

  lemma {:induction false} ParsedAppend(a: seq<WireLevel>, b: seq<WireLevel>)
    ensures Parsed(a + b) == Parsed(a) + Parsed(b)
  {
    if a == [] {
      assert a + b == b;
    } else {
      assert (a + b)[1..] == a[1..] + b;
      ParsedAppend(a[1..], b);
    }
  }

  lemma {:induction false} ParsedOne(l: Level)
    ensures Parsed([Some(l)]) == [l]
  {
    assert [Some(l)][1..] == [];
  }

  lemma {:induction false} PositiveCons(l: Level, ls: seq<Level>)
    ensures Positive([l] + ls) == if l.amount > 0.0 then [l] + Positive(ls) else Positive(ls)
  {
    assert ([l] + ls)[1..] == ls;
  }

  lemma {:induction false} DistinctCons(l: Level, ls: seq<Level>)
    ensures DistinctPrices([l] + ls) <==> DistinctPrices(ls) && forall k :: k in ls ==> k.price != l.price
  {
    var all := [l] + ls;
    assert all[1..] == ls;
    if DistinctPrices(all) {
      forall i, j | 0 <= i < j < |ls| ensures ls[i].price != ls[j].price {
        assert all[i + 1].price != all[j + 1].price;
      }
      forall k | k in ls ensures k.price != l.price {
        var j :| 0 <= j < |ls| && ls[j] == k;
        assert all[0].price != all[j + 1].price;
      }
    }
    if DistinctPrices(ls) && forall k :: k in ls ==> k.price != l.price {
      forall i, j | 0 <= i < j < |all| ensures all[i].price != all[j].price {
        assert all[j] == ls[j - 1] && ls[j - 1] in ls;
        assert i > 0 ==> all[i] == ls[i - 1];
      }
    }
  }

  lemma {:induction false} DistinctPositive(ls: seq<Level>)
    requires DistinctPrices(ls)
    ensures DistinctPrices(Positive(ls))
  {
    if ls != [] {
      DistinctPositive(ls[1..]);
    }
  }

  // One loop iteration over wire levels: the rest of the list, applied to the side after it.
  lemma {:induction false} ParsedStep(ws: seq<WireLevel>, i: nat, m: Levels)
    requires i < |ws|
    ensures Upsert(m, Parsed(ws[i..]))
         == Upsert(if ws[i].Some? then SetLevel(m, ws[i].value.price, ws[i].value.amount) else m,
                   Parsed(ws[i + 1..]))
  {
    assert ws[i..][1..] == ws[i + 1..];
    if ws[i].Some? {
      assert Parsed(ws[i..])[1..] == Parsed(ws[i + 1..]);
    } else {
      assert Parsed(ws[i..]) == Parsed(ws[i + 1..]);
    }
  }

  lemma {:induction false} PositiveParsedStep(ws: seq<WireLevel>, i: nat, m: Levels)
    requires i < |ws|
    ensures Upsert(m, Positive(Parsed(ws[i..])))
         == Upsert(if ws[i].Some? && ws[i].value.amount > 0.0 then m[ws[i].value.price := ws[i].value.amount] else m,
                   Positive(Parsed(ws[i + 1..])))
  {
    assert ws[i..][1..] == ws[i + 1..];
    if ws[i].Some? {
      var ls := Parsed(ws[i..]);
      assert ls[1..] == Parsed(ws[i + 1..]);
      if ls[0].amount > 0.0 {
        assert Positive(ls)[1..] == Positive(ls[1..]);
      } else {
        assert Positive(ls) == Positive(ls[1..]);
      }
    } else {
      assert Parsed(ws[i..]) == Parsed(ws[i + 1..]);
    }
  }

  lemma {:induction false} Associative<T>(a: seq<T>, b: seq<T>, c: seq<T>)
    ensures (a + b) + c == a + (b + c)
  {
  }

  // ----- reading a side in order -----

  predicate Better(side: Side, p: real, q: real) {
    if side.Bid? then p > q else p < q
  }

  lemma {:induction false} Member<T>(s: set<T>) returns (x: T)
    requires s != {}
    ensures x in s
  {
    x :| x in s;
  }

  lemma {:induction false} BestExists(side: Side, prices: set<real>)
    requires prices != {}
    ensures exists p :: p in prices && forall q :: q in prices ==> !Better(side, q, p)
  {
    var x := Member(prices);
    if prices == {x} {
      assert x in prices;
    } else {
      BestExists(side, prices - {x});
      var y :| y in prices - {x} && forall q :: q in prices - {x} ==> !Better(side, q, y);
      var best := if Better(side, x, y) then x else y;
      forall q | q in prices ensures !Better(side, q, best) {
        assert q == x || q in prices - {x};
      }
      assert best in prices;
    }
  }

  // The first key of the side's tree.
  function Best(side: Side, m: Levels): (b: Option<real>)
    ensures b.None? <==> m == map[]
    ensures b.Some? ==> b.value in m && forall q :: q in m ==> !Better(side, q, b.value)
  {
    if m == map[] then None
    else
      BestExists(side, m.Keys);
      var p :| p in m && forall q :: q in m ==> !Better(side, q, p);
      Some(p)
  }

  ghost predicate StrictlySorted(side: Side, ls: seq<Level>) {
    forall i, j :: 0 <= i < j < |ls| ==> Better(side, ls[i].price, ls[j].price)
  }

  // The levels of a side in the order its tree is iterated.
  function Listing(side: Side, m: Levels): (ls: seq<Level>)
    ensures forall l :: l in ls <==> Lookup(m, l.price) == Some(l.amount)
    ensures StrictlySorted(side, ls)
    ensures |ls| == |m|
    decreases |m|
  {
    if m == map[] then []
    else
      var p := Best(side, m).value;
      var rest := m - {p};
      assert rest.Keys == m.Keys - {p};
      [Level(p, m[p])] + Listing(side, rest)
  }

  // A strictly sorted list is determined by its elements.
  lemma {:induction false} SortedUnique(side: Side, xs: seq<Level>, ys: seq<Level>)
    requires StrictlySorted(side, xs) && StrictlySorted(side, ys)
    requires forall l :: l in xs <==> l in ys
    ensures xs == ys
  {
    assert xs == [] || xs[0] in ys;
    assert ys == [] || ys[0] in xs;
    if xs != [] {
      assert xs[0] == ys[0];
      forall l ensures l in xs[1..] <==> l in ys[1..] {
        assert l in xs[1..] ==> l in xs && l != xs[0];
        assert l in ys[1..] ==> l in ys && l != ys[0];
        assert l in xs <==> l == xs[0] || l in xs[1..];
        assert l in ys <==> l == ys[0] || l in ys[1..];
      }
      SortedUnique(side, xs[1..], ys[1..]);
    }
  }

  function ToMap(ls: seq<Level>): Levels {
    if ls == [] then map[] else ToMap(ls[..|ls| - 1])[ls[|ls| - 1].price := ls[|ls| - 1].amount]
  }

  lemma {:induction false} ToMapOfSorted(side: Side, ls: seq<Level>)
    requires StrictlySorted(side, ls)
    ensures forall p, a :: Lookup(ToMap(ls), p) == Some(a) <==> Level(p, a) in ls
  {
    if ls != [] {
      var front, last := ls[..|ls| - 1], ls[|ls| - 1];
      ToMapOfSorted(side, front);
      assert forall l :: l in ls <==> l in front || l == last;
    }
  }

  // Reading a listing back as a map gives the side it lists.
  lemma {:induction false} ListingRoundTrip(side: Side, m: Levels)
    ensures ToMap(Listing(side, m)) == m
  {
    ToMapOfSorted(side, Listing(side, m));
    forall p ensures Lookup(ToMap(Listing(side, m)), p) == Lookup(m, p) {
      var l := Lookup(ToMap(Listing(side, m)), p);
      if p in m { assert Level(p, m[p]) in Listing(side, m); }
      if l.Some? { assert Level(p, l.value) in Listing(side, m); }
    }
    SameLookups(ToMap(Listing(side, m)), m);
  }

  lemma {:induction false} StrictIsDistinct(side: Side, ls: seq<Level>)
    requires StrictlySorted(side, ls)
    ensures DistinctPrices(ls)
  {
  }

  lemma {:induction false} TakeCons<T>(x: T, s: seq<T>, n: nat)
    requires n > 0
    ensures Take([x] + s, n) == [x] + Take(s, n - 1)
  {
  }

  lemma {:induction false} PrefixSize<T>(s: seq<T>, k: nat)
    requires k <= |s| && forall x, y :: 0 <= x < y < |s| ==> s[x] != s[y]
    ensures |set x | 0 <= x < k :: s[x]| == k
  {
    if k > 0 {
      PrefixSize(s, k - 1);
      assert (set x | 0 <= x < k :: s[x]) == (set x | 0 <= x < k - 1 :: s[x]) + {s[k - 1]};
    }
  }

  lemma {:induction false} TakeMembers<T>(s: seq<T>, n: nat)
    ensures forall x :: x in Take(s, n) ==> x in s
  {
  }

  lemma {:induction false} PositiveId(ls: seq<Level>)
    requires forall l :: l in ls ==> l.amount > 0.0
    ensures Positive(ls) == ls
  {
    if ls != [] { PositiveId(ls[1..]); }
  }

  // A strictly sorted list of positive levels is the listing of the side it builds.
  lemma {:induction false} ListingOfSorted(side: Side, ls: seq<Level>)
    requires StrictlySorted(side, ls)
    requires forall l :: l in ls ==> l.amount > 0.0
    ensures Listing(side, FromSnapshot(ls)) == ls
  {
    PositiveId(ls);
    StrictIsDistinct(side, ls);
    FromSnapshotDistinct(ls);
    SortedUnique(side, Listing(side, FromSnapshot(ls)), ls);
  }
}
