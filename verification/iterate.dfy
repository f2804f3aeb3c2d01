/** iterate_pagerank and iterative_sum.

    iterate_pagerank starts every page at 1/N and then rewrites each page's rank, in corpus
    order, as (1-d)/N plus d times the rank flowing in from the pages that link to it. The
    code binds `distribution` to the same dict as `ranks` instead of a copy, which has two
    consequences modelled here: the update is in place (a page's incoming sum already reads
    the new ranks of the pages before it), and the convergence test compares each entry with
    itself, so it never asks for a second round. The result is a single in-place pass.
 */
module Iterate {
  import opened Graph

  /** iterative_sum folded over `ps` in corpus order: a page q adds its rank divided by its
      number of links exactly when its link set contains `page`. A dangling page has no
      links, so it never adds anything, and no division by zero can happen. */
  function Incoming(c: Corpus, dist: Dist, page: Page, ps: seq<Page>): real
    requires forall q | q in ps :: q in c.links && q in dist
  {
    if ps == [] then 0.0
    else
      var q := ps[0];
      (if page in c.links[q] then dist[q] / (|c.links[q]| as real) else 0.0)
      + Incoming(c, dist, page, ps[1..])
  }

  function IncomingSum(c: Corpus, dist: Dist, page: Page): real
    requires c.Valid() && c.links.Keys <= dist.Keys
  {
    Incoming(c, dist, page, c.pages)
  }

  /** What each page hands on to every page it links to: its rank split evenly over its
      links. Only pages with at least one link hand anything on. */
  function Shares(c: Corpus, dist: Dist): Dist
    requires c.links.Keys <= dist.Keys
  {
    map q | q in c.links && |c.links[q]| > 0 :: dist[q] / (|c.links[q]| as real)
  }

  /** The pages of `ps` that link to `page`, in order. */
  function Linkers(c: Corpus, page: Page, ps: seq<Page>): (r: seq<Page>)
    requires forall q | q in ps :: q in c.links
    ensures forall q :: q in r <==> q in ps && page in c.links[q]
  {
    if ps == [] then []
    else (if page in c.links[ps[0]] then [ps[0]] else []) + Linkers(c, page, ps[1..])
  }

  /** Over a corpus order without repetitions, each linking page appears once among the
      linkers, so no share is counted twice. */
  lemma {:induction false} LinkersDistinct(c: Corpus, page: Page, ps: seq<Page>)
    requires forall q | q in ps :: q in c.links
    requires Distinct(ps)
    ensures Distinct(Linkers(c, page, ps))
  {
    if ps != [] {
      var q := ps[0];
      DistinctTail(ps);
      LinkersDistinct(c, page, ps[1..]);
      var rest := Linkers(c, page, ps[1..]);
      if page in c.links[q] {
        var r := [q] + rest;
        assert Linkers(c, page, ps) == r;
        forall i, j | 0 <= i < j < |r| ensures r[i] != r[j] {
          assert r[j] == rest[j - 1] && rest[j - 1] in rest;
        }
      } else {
        assert Linkers(c, page, ps) == rest;
      }
    }
  }

  /** iterative_sum is the sum of the shares of exactly the pages that link to `page`. */
  lemma {:induction false} IncomingIsLinkerShares(c: Corpus, dist: Dist, page: Page, ps: seq<Page>)
    requires c.links.Keys <= dist.Keys
    requires forall q | q in ps :: q in c.links
    ensures Incoming(c, dist, page, ps) == Total(Linkers(c, page, ps), Shares(c, dist))
  {
    if ps != [] {
      var q := ps[0];
      IncomingIsLinkerShares(c, dist, page, ps[1..]);
      var rest := Linkers(c, page, ps[1..]);
      var shares := Shares(c, dist);
      if page in c.links[q] {
        assert c.links[q] != {};
        var l := Linkers(c, page, ps);
        assert l == [q] + rest;
        assert l[0] == q && l[1..] == rest;
        assert Total(l, shares) == shares[q] + Total(rest, shares);
        assert shares[q] == dist[q] / (|c.links[q]| as real);
      } else {
        assert Linkers(c, page, ps) == rest;
      }
    }
  }

  /** Only the ranks of the pages that link to `page` enter its incoming sum. */
  lemma {:induction false} IncomingReadsOnlyLinkers(c: Corpus, dist: Dist, dist': Dist, page: Page, ps: seq<Page>)
    requires forall q | q in ps :: q in c.links && q in dist && q in dist'
    requires forall q | q in ps && page in c.links[q] :: dist[q] == dist'[q]
    ensures Incoming(c, dist, page, ps) == Incoming(c, dist', page, ps)
  {
    if ps != [] {
      IncomingReadsOnlyLinkers(c, dist, dist', page, ps[1..]);
    }
  }

  /** The asymmetry with transition_model: there a dangling page spreads its weight over
      every page; here its rank reaches no page at all, whatever that rank is. */
  lemma DanglingContributesNothing(c: Corpus, dist: Dist, q: Page, v: real, page: Page)
    requires c.Valid() && c.links.Keys <= dist.Keys
    requires q in c.links && c.links[q] == {}
    ensures IncomingSum(c, dist[q := v], page) == IncomingSum(c, dist, page)
  {
    IncomingReadsOnlyLinkers(c, dist[q := v], dist, page, c.pages);
  }

  /** Non-negative ranks give a non-negative incoming sum. */
  lemma {:induction false} IncomingNonNegative(c: Corpus, dist: Dist, page: Page, ps: seq<Page>)
    requires forall q | q in ps :: q in c.links && q in dist && dist[q] >= 0.0
    ensures Incoming(c, dist, page, ps) >= 0.0
  {
    if ps != [] {
      IncomingNonNegative(c, dist, page, ps[1..]);
    }
  }

  /** iterative_sum as pagerank.py writes it: a loop over the corpus items accumulating the
      share of every page whose link set contains `page`. */
  method IterativeSum(c: Corpus, dist: Dist, page: Page) returns (s: real)
    requires c.Valid() && c.links.Keys <= dist.Keys
    ensures s == Total(Linkers(c, page, c.pages), Shares(c, dist))
    ensures s == IncomingSum(c, dist, page)
  {
    s := 0.0;
    var i := 0;
    while i < |c.pages|
      invariant 0 <= i <= |c.pages|
      invariant s + Incoming(c, dist, page, c.pages[i..]) == IncomingSum(c, dist, page)
    {
      var p := c.pages[i];
      assert c.pages[i..][1..] == c.pages[i + 1..];
      if page in c.links[p] {
        s := s + dist[p] / (|c.links[p]| as real);
      }
      i := i + 1;
    }
    IncomingIsLinkerShares(c, dist, page, c.pages);
  }

  /** The starting ranks: every page at 1/N. */
  function Uniform(c: Corpus): Dist
    requires c.Valid()
  {
    map p | p in c.links :: 1.0 / (c.N() as real)
  }

  /** The update of a single page: (1-d)/N plus d times its incoming sum. */
  function Damped(n: nat, d: real, incoming: real): real
    requires n > 0
  {
    (1.0 - d) / (n as real) + d * incoming
  }

  /** The new rank of `page` given the current ranks. */
  function Rank(c: Corpus, d: real, ranks: Dist, page: Page): real
    requires c.Valid() && c.links.Keys <= ranks.Keys && page in c.links
  {
    Damped(c.N(), d, IncomingSum(c, ranks, page))
  }

  /** One in-place pass over `ps`: each page is rewritten from the current ranks, which
      already hold the rewritten ranks of the pages before it. */
  function Pass(c: Corpus, d: real, ranks: Dist, ps: seq<Page>): (r: Dist)
    requires c.Valid() && c.links.Keys <= ranks.Keys
    requires forall q | q in ps :: q in c.links
    ensures r.Keys == ranks.Keys
  {
    if ps == [] then ranks
    else Pass(c, d, ranks[ps[0] := Rank(c, d, ranks, ps[0])], ps[1..])
  }

  /** A page the pass does not visit keeps its rank. */
  lemma {:induction false} PassFrame(c: Corpus, d: real, ranks: Dist, ps: seq<Page>, q: Page)
    requires c.Valid() && c.links.Keys <= ranks.Keys
    requires forall p | p in ps :: p in c.links
    requires q in ranks && q !in ps
    ensures Pass(c, d, ranks, ps)[q] == ranks[q]
  {
    if ps != [] {
      PassFrame(c, d, ranks[ps[0] := Rank(c, d, ranks, ps[0])], ps[1..], q);
    }
  }

  /** The ranks that a pass reads when it reaches a page after visiting `done`: the final
      rank for the pages already visited, the starting rank for the rest. */
  function Snapshot(result: Dist, before: Dist, done: seq<Page>): Dist
    requires before.Keys <= result.Keys
  {
    map q | q in before :: if q in done then result[q] else before[q]
  }

  /** The order dependence of the in-place pass: the i-th page's new rank is computed from the
      new ranks of the pages before it and the starting ranks of the pages after it. */
  lemma {:induction false} PassReadsEarlierUpdates(c: Corpus, d: real, ranks: Dist, ps: seq<Page>, i: nat)
    requires c.Valid() && c.links.Keys <= ranks.Keys
    requires forall p | p in ps :: p in c.links
    requires Distinct(ps) && i < |ps|
    ensures Pass(c, d, ranks, ps)[ps[i]] == Rank(c, d, Snapshot(Pass(c, d, ranks, ps), ranks, ps[..i]), ps[i])
  {
    var result := Pass(c, d, ranks, ps);
    var first := ps[0];
    var next := ranks[first := Rank(c, d, ranks, first)];
    var rest := ps[1..];
    assert Distinct(rest) by {
      forall a, b | 0 <= a < b < |rest| ensures rest[a] != rest[b] {
        assert rest[a] == ps[a + 1] && rest[b] == ps[b + 1];
      }
    }
    assert first !in rest;
    PassFrame(c, d, next, rest, first);
    if i == 0 {
      assert Snapshot(result, ranks, ps[..0]) == ranks;
    } else {
      PassReadsEarlierUpdates(c, d, next, rest, i - 1);
      assert rest[i - 1] == ps[i];
      assert rest[..i - 1] == ps[1..i];
      var s1 := Snapshot(result, next, rest[..i - 1]);
      var s2 := Snapshot(result, ranks, ps[..i]);
      forall q | q in s1
        ensures q in s2 && s1[q] == s2[q]
      {
        if q == first {
          assert q in ps[..i];
          assert q !in rest[..i - 1];
        } else {
          assert q in rest[..i - 1] <==> q in ps[..i] by {
            assert ps[..i] == [first] + rest[..i - 1];
          }
        }
      }
      assert s1 == s2;
    }
  }

  /** With 0 <= d <= 1 and every starting rank at least (1-d)/N, every rank after the pass is
      still at least (1-d)/N. */
  lemma {:induction false} PassLowerBound(c: Corpus, d: real, ranks: Dist, ps: seq<Page>)
    requires c.Valid() && c.links.Keys <= ranks.Keys && c.N() > 0
    requires forall q | q in ps :: q in c.links
    requires 0.0 <= d <= 1.0
    requires forall q | q in ranks :: ranks[q] >= (1.0 - d) / (c.N() as real)
    ensures forall q | q in Pass(c, d, ranks, ps) :: Pass(c, d, ranks, ps)[q] >= (1.0 - d) / (c.N() as real)
  {
    if ps != [] {
      var base := (1.0 - d) / (c.N() as real);
      assert base >= 0.0;
      IncomingNonNegative(c, ranks, ps[0], c.pages);
      assert Rank(c, d, ranks, ps[0]) >= base;
      PassLowerBound(c, d, ranks[ps[0] := Rank(c, d, ranks, ps[0])], ps[1..]);
    }
  }

  /** iterate_pagerank as pagerank.py writes it. `distribution` is the same dict as `ranks`,
      so every read of `distribution` is a read of `ranks` here (see Sweep). `rounds` counts
      the executions of the `while` body. */
  method IteratePageRank(c: Corpus, d: real) returns (ranks: Dist, rounds: nat)
    requires c.Valid()
    ensures rounds == 1
    ensures ranks == Pass(c, d, Uniform(c), c.pages)
    ensures ranks.Keys == c.links.Keys
    ensures 0.0 <= d <= 1.0 ==> forall p | p in ranks :: ranks[p] >= (1.0 - d) / (c.N() as real)
  {
    ranks := StartRanks(c);
    ghost var start := ranks;
    var change := true;
    rounds := 0;
    while change
      invariant rounds <= 1 && (change <==> rounds == 0)
      invariant rounds == 0 ==> ranks == start
      invariant rounds == 1 ==> ranks == Pass(c, d, start, c.pages)
      decreases 1 - rounds
    {
      ranks, change := Sweep(c, d, ranks);
      rounds := rounds + 1;
    }
    if 0.0 <= d <= 1.0 && c.N() > 0 {
      DivideMonotone(1.0 - d, 1.0, c.N() as real);
      PassLowerBound(c, d, start, c.pages);
    }
  }

  /** The loop of iterate_pagerank that sets every page to 1/N. With an empty corpus it does
      nothing, so 1/N is never evaluated and the result is empty. */
  method StartRanks(c: Corpus) returns (ranks: Dist)
    requires c.Valid()
    ensures ranks.Keys == c.links.Keys
    ensures forall p | p in ranks :: (c.N() as real) * ranks[p] == 1.0
    ensures ranks == Uniform(c)
  {
    ranks := map[];
    var k := 0;
    while k < |c.pages|
      invariant 0 <= k <= |c.pages|
      invariant ranks.Keys == Elems(c.pages[..k])
      invariant forall p | p in ranks :: ranks[p] == 1.0 / (c.N() as real)
    {
      ranks := ranks[c.pages[k] := 1.0 / (c.N() as real)];
      k := k + 1;
    }
    assert c.pages[..k] == c.pages;
  }

  /** One execution of the body of the `while` loop in iterate_pagerank. Each page is
      rewritten from the current ranks, which already hold this pass's new ranks of the pages
      before it, and the change test reads the entry just written twice, so it is never set. */
  method Sweep(c: Corpus, d: real, ranks: Dist) returns (next: Dist, change: bool)
    requires c.Valid() && ranks.Keys == c.links.Keys
    ensures !change
    ensures next == Pass(c, d, ranks, c.pages)
  {
    change := false;
    next := ranks;
    var i := 0;
    while i < |c.pages|
      invariant 0 <= i <= |c.pages|
      invariant !change
      invariant next.Keys == c.links.Keys
      invariant Pass(c, d, next, c.pages[i..]) == Pass(c, d, ranks, c.pages)
    {
      var page := c.pages[i];
      assert c.pages[i..] == [page] + c.pages[i + 1..];
      var s := IterativeSum(c, next, page);
      ghost var before := next;
      next := next[page := Damped(c.N(), d, s)];
      assert Pass(c, d, before, c.pages[i..]) == Pass(c, d, next, c.pages[i + 1..]);
      change := change || Abs(next[page] - next[page]) > 0.001;
      i := i + 1;
    }
  }

  /** A two-page corpus in which A links to B and B is dangling, with d = 0.85. A is rewritten
      first, from nothing (B's rank reaches no page), to 0.075; B is then rewritten from A's
      new rank 0.075, not from its starting rank 0.5, to 0.13875. The ranks sum to 0.21375. */
  lemma InPlaceExample()
    ensures var c := Corpus(["A", "B"], map["A" := {"B"}, "B" := {}]);
      c.Valid() &&
      Pass(c, 0.85, Uniform(c), c.pages) == map["A" := 0.075, "B" := 0.13875] &&
      Total(c.pages, Pass(c, 0.85, Uniform(c), c.pages)) == 0.21375
  {
    var c := Corpus(["A", "B"], map["A" := {"B"}, "B" := {}]);
    var d := 0.85;
    assert c.Valid() by {
      assert forall p :: p in c.pages <==> p in c.links;
    }
    var start := Uniform(c);
    assert start == map["A" := 0.5, "B" := 0.5];
    assert "A" !in c.links["A"] && "A" !in c.links["B"] && "B" in c.links["A"] && "B" !in c.links["B"];
    assert c.pages[1..] == ["B"] && ["B"][1..] == [];
    assert Incoming(c, start, "A", ["B"]) == 0.0;
    assert IncomingSum(c, start, "A") == 0.0;
    var mid := start["A" := Rank(c, d, start, "A")];
    assert mid == map["A" := 0.075, "B" := 0.5];
    assert Incoming(c, mid, "B", ["B"]) == 0.0;
    assert IncomingSum(c, mid, "B") == 0.075;
    var last := mid["B" := Rank(c, d, mid, "B")];
    assert last == map["A" := 0.075, "B" := 0.13875];
    assert Pass(c, d, start, c.pages) == Pass(c, d, mid, ["B"]) == Pass(c, d, last, []);
    assert Total(["B"], last) == 0.13875 + Total([], last);
    assert Total(c.pages, last) == 0.075 + Total(["B"], last);
  }

  /** A corpus of one dangling page ends at 1 - d, not at 1. */
  lemma SinglePageExample(d: real)
    ensures var c := Corpus(["A"], map["A" := {}]);
      c.Valid() && Pass(c, d, Uniform(c), c.pages) == map["A" := 1.0 - d]
  {
    var c := Corpus(["A"], map["A" := {}]);
    assert c.Valid() by {
      assert forall p :: p in c.pages <==> p in c.links;
    }
    var start := Uniform(c);
    assert start == map["A" := 1.0];
    assert c.pages[1..] == [];
    assert Incoming(c, start, "A", []) == 0.0;
    assert Incoming(c, start, "A", c.pages) == 0.0;
    assert Pass(c, d, start, c.pages) == Pass(c, d, start["A" := Rank(c, d, start, "A")], []);
  }

  lemma DivideMonotone(a: real, b: real, n: real)
    requires a <= b && n > 0.0
    ensures a / n <= b / n
  {
    assert b / n - a / n == (b - a) / n;
  }

  function Abs(x: real): (r: real)
    ensures r >= 0.0 && (r == x || r == -x)
  {
    if x < 0.0 then -x else x
  }
}
