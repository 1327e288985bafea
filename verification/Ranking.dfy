/** The thresholded, boosted ranking of near misses. */
module Ranking {
  import opened Levenshtein

  /** An item that qualifies, with what it is ordered by. */
  datatype Ranked<T> = Ranked(item: T, name: string, dist: nat, boost: int)

  /** `localeCompare` as a total preorder on names. */
  ghost predicate TotalPreorder(leq: (string, string) -> bool) {
    && (forall a, b :: leq(a, b) || leq(b, a))
    && (forall a, b, c :: leq(a, b) && leq(b, c) ==> leq(a, c))
  }

  function Threshold(query: string): nat {
    var third := (|query| + 2) / 3;
    if third < 1 then 1 else third
  }

  /** A third of the query rounded up, and at least one. */
  lemma ThresholdIsThird(query: string)
    ensures Threshold(query) >= 1 && 3 * Threshold(query) >= |query|
    ensures forall k: nat :: k >= 1 && 3 * k >= |query| ==> Threshold(query) <= k
  {
  }

  /** By distance, then by boost descending, then by name. */
  predicate Before<T>(leq: (string, string) -> bool, a: Ranked<T>, b: Ranked<T>) {
    a.dist < b.dist ||
    (a.dist == b.dist && (a.boost > b.boost || (a.boost == b.boost && leq(a.name, b.name))))
  }

  ghost predicate Sorted<T>(leq: (string, string) -> bool, rs: seq<Ranked<T>>) {
    forall i, j :: 0 <= i < j < |rs| ==> Before(leq, rs[i], rs[j])
  }

  /** The items that qualify, in input order. */
  function Qualifying<T>(items: seq<T>, key: T -> string, lower: string -> string, query: string, boost: T -> int): seq<Ranked<T>> {
    if items == [] then []
    else
      var it := items[|items| - 1];
      var d := Distance(lower(key(it)), lower(query));
      Qualifying(items[..|items| - 1], key, lower, query, boost) +
      if d > Threshold(query) then [] else [Ranked(it, key(it), d, boost(it))]
  }

  /** Exactly the items within the threshold qualify. */
  lemma {:induction false} QualifyingIsWithin<T>(items: seq<T>, key: T -> string, lower: string -> string, query: string, boost: T -> int)
    ensures var q := Qualifying(items, key, lower, query, boost);
            && (forall r :: r in q ==>
                  (r.item in items && r.dist <= Threshold(query) &&
                   r == Ranked(r.item, key(r.item), Distance(lower(key(r.item)), lower(query)), boost(r.item))))
            && (forall it :: it in items && Distance(lower(key(it)), lower(query)) <= Threshold(query) ==>
                  Ranked(it, key(it), Distance(lower(key(it)), lower(query)), boost(it)) in q)
  {
    if items != [] {
      QualifyingIsWithin(items[..|items| - 1], key, lower, query, boost);
      assert items == items[..|items| - 1] + [items[|items| - 1]];
    }
  }

  // ---- The library's stable sort ------------------------------------------------------

  /** Put `r` behind everything that is before it. */
  function Insert<T>(leq: (string, string) -> bool, rs: seq<Ranked<T>>, r: Ranked<T>): seq<Ranked<T>> {
    if rs == [] || Before(leq, rs[|rs| - 1], r) then rs + [r]
    else Insert(leq, rs[..|rs| - 1], r) + [rs[|rs| - 1]]
  }

  function StableSort<T>(leq: (string, string) -> bool, rs: seq<Ranked<T>>): seq<Ranked<T>> {
    if rs == [] then [] else Insert(leq, StableSort(leq, rs[..|rs| - 1]), rs[|rs| - 1])
  }

  lemma BeforeOrders<T>(leq: (string, string) -> bool, a: Ranked<T>, b: Ranked<T>, c: Ranked<T>)
    requires TotalPreorder(leq)
    ensures Before(leq, a, b) || Before(leq, b, a)
    ensures Before(leq, a, b) && Before(leq, b, c) ==> Before(leq, a, c)
  {
  }

  lemma {:induction false} InsertSorts<T>(leq: (string, string) -> bool, rs: seq<Ranked<T>>, r: Ranked<T>)
    requires TotalPreorder(leq) && Sorted(leq, rs)
    ensures Sorted(leq, Insert(leq, rs, r))
    ensures multiset(Insert(leq, rs, r)) == multiset(rs) + multiset{r}
  {
    if rs != [] {
      var init, last := rs[..|rs| - 1], rs[|rs| - 1];
      assert rs == init + [last];
      if Before(leq, last, r) {
        forall i | 0 <= i < |rs| ensures Before(leq, rs[i], r) { BeforeOrders(leq, rs[i], last, r); }
      } else {
        InsertSorts(leq, init, r);
        BeforeOrders(leq, r, last, last);
        var more := Insert(leq, init, r);
        forall i | 0 <= i < |more| ensures Before(leq, more[i], last) {
          assert more[i] in multiset(more);
          if more[i] != r {
            assert more[i] in multiset(init);
            var j :| 0 <= j < |init| && init[j] == more[i];
            assert Before(leq, rs[j], rs[|rs| - 1]);
          }
        }
      }
    }
  }

  lemma LastApart<T>(xs: seq<T>)
    requires xs != []
    ensures multiset(xs) == multiset(xs[..|xs| - 1]) + multiset{xs[|xs| - 1]}
  {
    assert xs == xs[..|xs| - 1] + [xs[|xs| - 1]];
  }

  lemma {:induction false} SortSorts<T>(leq: (string, string) -> bool, rs: seq<Ranked<T>>)
    requires TotalPreorder(leq)
    ensures Sorted(leq, StableSort(leq, rs)) && multiset(StableSort(leq, rs)) == multiset(rs)
  {
    if rs != [] {
      SortSorts(leq, rs[..|rs| - 1]);
      InsertSorts(leq, StableSort(leq, rs[..|rs| - 1]), rs[|rs| - 1]);
      LastApart(rs);
    }
  }

  /** Those that tie with `x`, in order. */
  function Ties<T>(leq: (string, string) -> bool, rs: seq<Ranked<T>>, x: Ranked<T>): seq<Ranked<T>> {
    if rs == [] then []
    else
      var last := rs[|rs| - 1];
      Ties(leq, rs[..|rs| - 1], x) + if Before(leq, last, x) && Before(leq, x, last) then [last] else []
  }

  lemma TiesPush<T>(leq: (string, string) -> bool, rs: seq<Ranked<T>>, r: Ranked<T>, x: Ranked<T>)
    ensures Ties(leq, rs + [r], x) == Ties(leq, rs, x) + if Before(leq, r, x) && Before(leq, x, r) then [r] else []
  {
    assert (rs + [r])[..|rs|] == rs;
  }

  lemma {:induction false} InsertIsStable<T>(leq: (string, string) -> bool, rs: seq<Ranked<T>>, r: Ranked<T>, x: Ranked<T>)
    requires TotalPreorder(leq)
    ensures Ties(leq, Insert(leq, rs, r), x) == Ties(leq, rs, x) + if Before(leq, r, x) && Before(leq, x, r) then [r] else []
  {
    if rs == [] || Before(leq, rs[|rs| - 1], r) {
      TiesPush(leq, rs, r, x);
    } else {
      var init, last := rs[..|rs| - 1], rs[|rs| - 1];
      InsertIsStable(leq, init, r, x);
      TiesPush(leq, Insert(leq, init, r), last, x);
      BeforeOrders(leq, last, x, r);
    }
  }

  /** Items that tie keep their order. */
  lemma {:induction false} SortIsStable<T>(leq: (string, string) -> bool, rs: seq<Ranked<T>>, x: Ranked<T>)
    requires TotalPreorder(leq)
    ensures Ties(leq, StableSort(leq, rs), x) == Ties(leq, rs, x)
  {
    if rs != [] {
      SortIsStable(leq, rs[..|rs| - 1], x);
      InsertIsStable(leq, StableSort(leq, rs[..|rs| - 1]), rs[|rs| - 1], x);
    }
  }

  /** What sorted means: nearer first, of those the more boosted, and of those by name. */
  lemma SortedMeans<T>(leq: (string, string) -> bool, rs: seq<Ranked<T>>, i: nat, j: nat)
    requires TotalPreorder(leq) && Sorted(leq, rs) && i < j < |rs|
    ensures rs[i].dist <= rs[j].dist
    ensures rs[i].dist == rs[j].dist ==> rs[i].boost >= rs[j].boost
    ensures rs[i].dist == rs[j].dist && rs[i].boost == rs[j].boost ==> leq(rs[i].name, rs[j].name)
  {
    assert Before(leq, rs[i], rs[j]);
  }

  /** What ties, and so keeps its order: the same distance and boost, and names that the locale does not tell apart. */
  lemma TiesMean<T>(leq: (string, string) -> bool, a: Ranked<T>, b: Ranked<T>)
    requires TotalPreorder(leq)
    ensures Before(leq, a, b) && Before(leq, b, a) <==>
            a.dist == b.dist && a.boost == b.boost && leq(a.name, b.name) && leq(b.name, a.name)
  {
  }

  // ---- The ranking -------------------------------------------------------------------------

  function Items<T>(rs: seq<Ranked<T>>): seq<T> {
    seq(|rs|, i requires 0 <= i < |rs| => rs[i].item)
  }

  /** The best `limit` of `all`: sorted, as many as there can be, and nothing left out comes before any of them. */
  ghost predicate TopK<T>(leq: (string, string) -> bool, chosen: seq<Ranked<T>>, all: seq<Ranked<T>>, limit: nat) {
    && |chosen| == (if limit <= |all| then limit else |all|)
    && Sorted(leq, chosen)
    && multiset(chosen) <= multiset(all)
    && forall r, l :: r in multiset(chosen) && l in multiset(all) - multiset(chosen) ==> Before(leq, r, l)
  }

  lemma SplitMultiset<T>(xs: seq<T>, k: nat)
    requires k <= |xs|
    ensures multiset(xs[..k]) <= multiset(xs) && multiset(xs) - multiset(xs[..k]) == multiset(xs[k..])
  {
    assert xs == xs[..k] + xs[k..];
  }

  lemma SameLength<T>(xs: seq<T>, ys: seq<T>)
    requires multiset(xs) == multiset(ys)
    ensures |xs| == |ys|
  {
    assert |multiset(xs)| == |xs| && |multiset(ys)| == |ys|;
  }

  lemma PrefixBefore<T>(leq: (string, string) -> bool, xs: seq<Ranked<T>>, k: nat)
    requires Sorted(leq, xs) && k <= |xs|
    ensures Sorted(leq, xs[..k])
    ensures forall r, l :: r in multiset(xs[..k]) && l in multiset(xs[k..]) ==> Before(leq, r, l)
  {
    forall r, l | r in multiset(xs[..k]) && l in multiset(xs[k..]) ensures Before(leq, r, l) {
      var i :| 0 <= i < k && xs[i] == r;
      var j :| 0 <= j < |xs| - k && xs[k..][j] == l;
      assert Before(leq, xs[i], xs[k + j]);
    }
  }

  lemma SortedPrefixIsTopK<T>(leq: (string, string) -> bool, all: seq<Ranked<T>>, limit: nat)
    requires TotalPreorder(leq)
    ensures |StableSort(leq, all)| == |all|
    ensures TopK(leq, StableSort(leq, all)[..if limit <= |all| then limit else |all|], all, limit)
  {
    var sorted, k := StableSort(leq, all), if limit <= |all| then limit else |all|;
    SortSorts(leq, all);
    SameLength(sorted, all);
    SplitMultiset(sorted, k);
    PrefixBefore(leq, sorted, k);
  }

  /** `_rank`. Lower-casing, boosts and the locale's order are parameters. */
  method Rank<T>(items: seq<T>, key: T -> string, query: string, limit: nat, boost: T -> int,
                 lower: string -> string, leq: (string, string) -> bool) returns (best: seq<T>)
    requires TotalPreorder(leq)
    ensures exists chosen ::
              TopK(leq, chosen, Qualifying(items, key, lower, query, boost), limit) && best == Items(chosen) &&
              chosen <= StableSort(leq, Qualifying(items, key, lower, query, boost))
  {
    var lowered, thr := lower(query), Threshold(query);
    var ranked: seq<Ranked<T>> := [];
    for i := 0 to |items|
      invariant ranked == Qualifying(items[..i], key, lower, query, boost)
    {
      assert items[..i + 1][..i] == items[..i];
      var k := key(items[i]);
      var d := Lev(lower(k), lowered);
      if d <= thr {
        ranked := ranked + [Ranked(items[i], k, d, boost(items[i]))];
      }
    }
    assert items[..|items|] == items;
    SortedPrefixIsTopK(leq, ranked, limit);
    ghost var all := ranked;
    ranked := StableSort(leq, ranked);
    var count := if limit <= |ranked| then limit else |ranked|;
    assert TopK(leq, ranked[..count], all, limit) && ranked[..count] <= ranked;
    best := Items(ranked[..count]);
  }
}
