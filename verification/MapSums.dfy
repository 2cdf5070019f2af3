/** Sums over the values of a map, which do not depend on the order of visiting its keys. */
module MapSums {
  import opened Options
  import opened PriceLevels

  ghost function Total<K>(m: map<K, real>): real
    decreases |m|
  {
    if m == map[] then 0.0
    else
      var k :| k in m;
      m[k] + Total(m - {k})
  }

  // Any key may be taken out first.
  lemma {:induction false} TotalSplit<K>(m: map<K, real>, k: K)
    requires k in m
    ensures Total(m) == m[k] + Total(m - {k})
    decreases |m|
  {
    var j :| j in m && Total(m) == m[j] + Total(m - {j});
    if j != k {
      TotalSplit(m - {j}, k);
      TotalSplit(m - {k}, j);
      assert m - {j} - {k} == m - {k} - {j};
    }
  }

  ghost function Restrict<K, V>(m: map<K, V>, keys: set<K>): map<K, V> {
    map k | k in m && k in keys :: m[k]
  }

  lemma {:induction false} TotalPartition<K>(m: map<K, real>, keys: set<K>)
    ensures Total(m) == Total(Restrict(m, keys)) + Total(m - keys)
    decreases |m|
  {
    if m == map[] {
      assert Restrict(m, keys) == map[] && m - keys == map[];
    } else {
      var k :| k in m;
      TotalSplit(m, k);
      TotalPartition(m - {k}, keys);
      PartitionStep(m, keys, k);
    }
  }

  lemma {:induction false} PartitionStep<K>(m: map<K, real>, keys: set<K>, k: K)
    requires k in m
    ensures Total(Restrict(m, keys)) + Total(m - keys)
         == m[k] + Total(Restrict(m - {k}, keys)) + Total(m - {k} - keys)
  {
    if k in keys {
      assert Restrict(m - {k}, keys) == Restrict(m, keys) - {k};
      assert m - {k} - keys == m - keys;
      TotalSplit(Restrict(m, keys), k);
    } else {
      assert Restrict(m - {k}, keys) == Restrict(m, keys);
      assert m - {k} - keys == m - keys - {k};
      TotalSplit(m - keys, k);
    }
  }

  lemma {:induction false} TotalOfPositive<K>(m: map<K, real>)
    requires forall k :: k in m ==> m[k] > 0.0
    ensures Total(m) >= 0.0
    ensures Total(m) == 0.0 <==> m == map[]
    decreases |m|
  {
    if m != map[] {
      var k :| k in m;
      TotalSplit(m, k);
      TotalOfPositive(m - {k});
    }
  }

  ghost function Group<K>(sizes: map<K, real>, prices: map<K, real>, price: real): map<K, real>
    requires sizes.Keys == prices.Keys
  {
    map k | k in sizes && prices[k] == price :: sizes[k]
  }

  // Grouping sizes by price and dropping the groups that sum to zero keeps the total.
  lemma {:induction false} GroupedTotal<K>(sizes: map<K, real>, prices: map<K, real>, levels: Levels)
    requires sizes.Keys == prices.Keys
    requires forall p :: Lookup(levels, p) == NonZero(Total(Group(sizes, prices, p)))
    ensures Total(levels) == Total(sizes)
    decreases |sizes|
  {
    if sizes == map[] {
      forall p ensures p !in levels {
        assert Group(sizes, prices, p) == map[];
        assert Lookup(levels, p) == None;
      }
      assert levels == map[];
    } else {
      var k :| k in sizes;
      var p := prices[k];
      var ks := Group(sizes, prices, p).Keys;
      assert k in ks;
      TotalPartition(sizes, ks);
      assert Restrict(sizes, ks) == Group(sizes, prices, p);
      assert Lookup(levels, p) == NonZero(Total(Group(sizes, prices, p)));
      if p in levels { TotalSplit(levels, p); } else { assert levels - {p} == levels; }
      forall q ensures Lookup(levels - {p}, q) == NonZero(Total(Group(sizes - ks, prices - ks, q))) {
        assert Lookup(levels, q) == NonZero(Total(Group(sizes, prices, q)));
        if q == p {
          assert Group(sizes - ks, prices - ks, q) == map[];
        } else {
          assert Group(sizes - ks, prices - ks, q) == Group(sizes, prices, q);
        }
      }
      FewerKeys(sizes, ks, k);
      GroupedTotal(sizes - ks, prices - ks, levels - {p});
    }
  }

  lemma {:induction false} FewerKeys<K, V>(m: map<K, V>, ks: set<K>, k: K)
    requires k in m && k in ks
    ensures |m - ks| < |m|
  {
    SubsetSize((m - ks).Keys, m.Keys - {k});
  }

  // Adding the values up in whatever order the map yields its keys.
  method SumValues<K(==)>(m: map<K, real>) returns (total: real)
    ensures total == Total(m)
  {
    total := 0.0;
    var rest := m;
    while rest != map[]
      invariant total + Total(rest) == Total(m)
      decreases |rest|
    {
      var k :| k in rest;
      TotalSplit(rest, k);
      total := total + rest[k];
      rest := rest - {k};
    }
  }
}
