/** The averaging in sample_pagerank. The surfer starts on a random page; at each step i
    (1 <= i < n) it computes the transition distribution of the page it is on, folds it into
    a running average with ((i-1) * average + step) / i, and draws its next page.

    The random draws are inputs here: `start` is the page random.choice picks, and `choose`
    is the oracle that stands for random.choices. The code weights that draw by the running
    average, not by the step distribution, so the oracle is offered the running average.
 */
module Sampling {
  import opened Graph
  import opened Transition

  /** `choose(i, weights)`: the page drawn after step i when offered these weights. */
  type Oracle = (nat, Dist) -> Page

  /** random.choices draws from the list of corpus pages, so every draw is a page. */
  ghost predicate DrawsPages(c: Corpus, choose: Oracle) {
    forall i: nat, w: Dist :: choose(i, w) in c.links
  }

  /** The state of the sampler after some steps: the running average, the page the surfer
      is on, and the pages whose transition distributions went into the average. */
  datatype Walk = Walk(avg: Dist, page: Page, visited: seq<Page>)

  /** Every page at 0. */
  function Zero(c: Corpus): Dist {
    map p | p in c.links :: 0.0
  }

  /** The incremental average of step i at one page: ((i-1) * average + step) / i. */
  function Mix(a: real, x: real, i: nat): real
    requires i >= 1
  {
    ((i - 1) as real * a + x) / (i as real)
  }

  /** The incremental average of step i at every page. */
  function Blend(avg: Dist, step: Dist, i: nat): Dist
    requires i >= 1 && avg.Keys <= step.Keys
  {
    map p | p in avg :: Mix(avg[p], step[p], i)
  }

  /** The sum at `p` of the transition distributions of the pages in `visited`. */
  function StepSum(c: Corpus, d: real, visited: seq<Page>, p: Page): real
    requires c.Valid() && p in c.links
    requires forall q | q in visited :: q in c.links
  {
    if visited == [] then 0.0
    else StepSum(c, d, visited[..|visited| - 1], p) + Distribution(c, visited[|visited| - 1], d)[p]
  }

  /** The sampler after k steps: k incremental updates from all zeros, each with the
      transition distribution of the page the surfer is on, followed by a draw. */
  function Run(c: Corpus, d: real, start: Page, choose: Oracle, k: nat): (w: Walk)
    requires c.Valid() && start in c.links && DrawsPages(c, choose)
    ensures w.avg.Keys == c.links.Keys && w.page in c.links
    ensures |w.visited| == k && forall q | q in w.visited :: q in c.links
    ensures k > 0 ==> w.visited[0] == start
  {
    if k == 0 then Walk(Zero(c), start, [])
    else
      var prev := Run(c, d, start, choose, k - 1);
      var avg := Blend(prev.avg, Distribution(c, prev.page, d), k);
      Walk(avg, choose(k, avg), prev.visited + [prev.page])
  }

  /** `visited` is the walk's actual path: its j-th entry is the page the surfer was on
      after j draws. */
  lemma RunVisited(c: Corpus, d: real, start: Page, choose: Oracle, k: nat, j: nat)
    requires c.Valid() && start in c.links && DrawsPages(c, choose)
    requires j < k
    ensures Run(c, d, start, choose, k).visited[j] == Run(c, d, start, choose, j).page
  {
    var m: nat :| m + 1 == k;
    RunPath(c, d, start, choose, m, j);
    SameWalk(c, d, start, choose, k, m + 1);
  }

  /** RunVisited for the walk after m + 1 steps, by induction on m. */
  lemma {:induction false} RunPath(c: Corpus, d: real, start: Page, choose: Oracle, m: nat, j: nat)
    requires c.Valid() && start in c.links && DrawsPages(c, choose)
    requires j <= m
    ensures Run(c, d, start, choose, m + 1).visited[j] == Run(c, d, start, choose, j).page
    decreases m
  {
    if j == m {
      RunStep(c, d, start, choose, m, j);
    } else {
      var p: nat :| p + 1 == m;
      RunPath(c, d, start, choose, p, j);
      RunKeepsPath(c, d, start, choose, m, p, j);
    }
  }

  /** The draw after j steps appends the page the surfer was on at that point. */
  lemma RunStep(c: Corpus, d: real, start: Page, choose: Oracle, m: nat, j: nat)
    requires c.Valid() && start in c.links && DrawsPages(c, choose)
    requires j == m
    ensures Run(c, d, start, choose, m + 1).visited[j] == Run(c, d, start, choose, j).page
  {
  }

  /** A further step leaves the earlier part of the path as it was. */
  lemma RunKeepsPath(c: Corpus, d: real, start: Page, choose: Oracle, m: nat, p: nat, j: nat)
    requires c.Valid() && start in c.links && DrawsPages(c, choose)
    requires p + 1 == m && j < m
    ensures Run(c, d, start, choose, m + 1).visited[j] == Run(c, d, start, choose, p + 1).visited[j]
  {
    SameWalk(c, d, start, choose, m, p + 1);
  }

  /** The walk after a number of steps depends only on that number. */
  lemma SameWalk(c: Corpus, d: real, start: Page, choose: Oracle, a: nat, b: nat)
    requires c.Valid() && start in c.links && DrawsPages(c, choose)
    requires a == b
    ensures Run(c, d, start, choose, a) == Run(c, d, start, choose, b)
  {
  }

  /** The incremental average is the arithmetic mean: after k >= 1 steps the running average
      at every page is the sum of the k step distributions there, divided by k; before any
      step it is 0. */
  lemma {:induction false} RunIsMean(c: Corpus, d: real, start: Page, choose: Oracle, k: nat)
    requires c.Valid() && start in c.links && DrawsPages(c, choose)
    ensures k == 0 ==> forall p | p in Run(c, d, start, choose, k).avg :: Run(c, d, start, choose, k).avg[p] == 0.0
    ensures k > 0 ==> forall p | p in Run(c, d, start, choose, k).avg ::
      Run(c, d, start, choose, k).avg[p] == StepSum(c, d, Run(c, d, start, choose, k).visited, p) / (k as real)
  {
    if k > 0 {
      var prev := Run(c, d, start, choose, k - 1);
      RunIsMean(c, d, start, choose, k - 1);
      BlendIsMean(c, d, prev.avg, prev.visited, prev.page, k);
    }
  }

  /** One incremental update turns the mean of k-1 step distributions into the mean of k. */
  lemma BlendIsMean(c: Corpus, d: real, avg: Dist, visited: seq<Page>, page: Page, k: nat)
    requires c.Valid() && page in c.links && k >= 1
    requires avg.Keys == c.links.Keys && |visited| == k - 1
    requires forall q | q in visited :: q in c.links
    requires k == 1 ==> forall p | p in avg :: avg[p] == 0.0
    requires k > 1 ==> forall p | p in avg :: avg[p] == StepSum(c, d, visited, p) / ((k - 1) as real)
    ensures forall p | p in avg ::
      Blend(avg, Distribution(c, page, d), k)[p] == StepSum(c, d, visited + [page], p) / (k as real)
  {
    forall p | p in avg
      ensures Blend(avg, Distribution(c, page, d), k)[p] == StepSum(c, d, visited + [page], p) / (k as real)
    {
      BlendIsMeanAt(c, d, avg, visited, page, k, p);
    }
  }

  /** BlendIsMean at one page. */
  lemma BlendIsMeanAt(c: Corpus, d: real, avg: Dist, visited: seq<Page>, page: Page, k: nat, p: Page)
    requires c.Valid() && page in c.links && k >= 1
    requires avg.Keys == c.links.Keys && |visited| == k - 1 && p in avg
    requires forall q | q in visited :: q in c.links
    requires k == 1 ==> avg[p] == 0.0
    requires k > 1 ==> avg[p] == StepSum(c, d, visited, p) / ((k - 1) as real)
    ensures Blend(avg, Distribution(c, page, d), k)[p] == StepSum(c, d, visited + [page], p) / (k as real)
  {
    var x := Distribution(c, page, d)[p];
    var s := StepSum(c, d, visited, p);
    StepSumSnoc(c, d, visited, page, p);
    if k == 1 {
      assert visited == [];
    }
    MeanStep(avg[p], s, x, StepSum(c, d, visited + [page], p), k);
  }

  /** Appending a page to the walk adds its transition probability at `p`. */
  lemma StepSumSnoc(c: Corpus, d: real, visited: seq<Page>, page: Page, p: Page)
    requires c.Valid() && page in c.links && p in c.links
    requires forall q | q in visited :: q in c.links
    ensures StepSum(c, d, visited + [page], p) == StepSum(c, d, visited, p) + Distribution(c, page, d)[p]
  {
    var v := visited + [page];
    assert v[..|v| - 1] == visited;
  }

  /** The arithmetic behind the incremental average. */
  lemma MeanStep(a: real, s: real, x: real, total: real, k: nat)
    requires k >= 1 && total == s + x
    requires k == 1 ==> a == 0.0 && s == 0.0
    requires k > 1 ==> a == s / ((k - 1) as real)
    ensures Mix(a, x, k) == total / (k as real)
  {
    if k > 1 {
      assert (k - 1) as real * a == s;
    }
  }

  /** Summing an incremental average over the corpus is averaging the sums. */
  lemma {:induction false} TotalBlend(ps: seq<Page>, avg: Dist, step: Dist, k: nat)
    requires k >= 1 && avg.Keys <= step.Keys
    requires forall p | p in ps :: p in avg
    ensures Total(ps, Blend(avg, step, k)) == Mix(Total(ps, avg), Total(ps, step), k)
  {
    if ps != [] {
      TotalBlend(ps[1..], avg, step, k);
      MixAdds(avg[ps[0]], step[ps[0]], Total(ps[1..], avg), Total(ps[1..], step), k);
    }
  }

  lemma MixAdds(a: real, x: real, a': real, x': real, k: nat)
    requires k >= 1
    ensures Mix(a, x, k) + Mix(a', x', k) == Mix(a + a', x + x', k)
  {
    var m := (k - 1) as real;
    assert m * (a + a') == m * a + m * a';
  }

  /** Averaging a sum of 1 into a previous sum of 1 (or into nothing, at the first step) gives 1. */
  lemma MixOfOnes(a: real, k: nat)
    requires k >= 1
    requires k == 1 ==> a == 0.0
    requires k > 1 ==> a == 1.0
    ensures Mix(a, 1.0, k) == 1.0
  {
  }

  /** Nothing sums to 0. */
  lemma TotalZero(c: Corpus)
    requires c.Valid()
    ensures Total(c.pages, Zero(c)) == 0.0
  {
    TotalTwoLevels(c.pages, Zero(c), {}, 0.0, 0.0);
    TimesIsProduct(|c.pages|, 0.0);
    TimesIsProduct(Count(c.pages, {}), 0.0);
  }

  /** After at least one step the running average sums to exactly 1 over the corpus. */
  lemma {:induction false} RunSumsToOne(c: Corpus, d: real, start: Page, choose: Oracle, k: nat)
    requires c.Valid() && c.WellFormed() && start in c.links && DrawsPages(c, choose)
    requires k >= 1
    ensures Total(c.pages, Run(c, d, start, choose, k).avg) == 1.0
  {
    var prev := Run(c, d, start, choose, k - 1);
    var step := Distribution(c, prev.page, d);
    assert Run(c, d, start, choose, k).avg == Blend(prev.avg, step, k);
    TotalBlend(c.pages, prev.avg, step, k);
    DistributionSum(c, prev.page, d);
    var before := Total(c.pages, prev.avg);
    if k == 1 {
      assert prev.avg == Zero(c);
      TotalZero(c);
      assert before == 0.0;
    } else {
      RunSumsToOne(c, d, start, choose, k - 1);
      assert before == 1.0;
    }
    MixOfOnes(before, k);
  }

  /** With a damping factor in [0, 1], the running average stays in [0, 1] at every page. */
  lemma {:induction false} RunBounds(c: Corpus, d: real, start: Page, choose: Oracle, k: nat)
    requires c.Valid() && start in c.links && DrawsPages(c, choose)
    requires 0.0 <= d <= 1.0
    ensures forall p | p in Run(c, d, start, choose, k).avg :: 0.0 <= Run(c, d, start, choose, k).avg[p] <= 1.0
  {
    if k > 0 {
      var prev := Run(c, d, start, choose, k - 1);
      var step := Distribution(c, prev.page, d);
      RunBounds(c, d, start, choose, k - 1);
      DistributionBounds(c, prev.page, d);
      forall p | p in prev.avg
        ensures 0.0 <= Blend(prev.avg, step, k)[p] <= 1.0
      {
        BlendBounds(prev.avg[p], step[p], k);
      }
    }
  }

  lemma BlendBounds(a: real, x: real, k: nat)
    requires k >= 1 && 0.0 <= a <= 1.0 && 0.0 <= x <= 1.0
    ensures 0.0 <= Mix(a, x, k) <= 1.0
  {
    var m, kr := (k - 1) as real, k as real;
    var ma := m * a;
    ScaleBounds(m, a);
    assert 0.0 <= ma <= m && m + 1.0 == kr;
    UnitQuotient(ma + x, kr);
  }

  /** A quotient of a non-negative number by a larger one lies in [0, 1]. */
  lemma UnitQuotient(x: real, y: real)
    requires y >= 1.0 && 0.0 <= x <= y
    ensures 0.0 <= x / y <= 1.0
  {
    assert x / y * y == x;
  }

  lemma ScaleBounds(m: real, a: real)
    requires m >= 0.0 && 0.0 <= a <= 1.0
    ensures 0.0 <= m * a <= m
  {
    assert m - m * a == m * (1.0 - a);
  }

  /** sample_pagerank as pagerank.py writes it, with the random draws supplied. The result
      is the running average after n - 1 steps: all zeros when n <= 1 (`range(1, n)` is
      then empty), and otherwise the mean of the step distributions, summing to 1. */
  method SamplePageRank(c: Corpus, d: real, n: int, start: Page, choose: Oracle) returns (distribution: Dist)
    requires c.Valid() && c.WellFormed() && start in c.links && DrawsPages(c, choose)
    ensures n <= 1 ==> distribution == Run(c, d, start, choose, 0).avg
    ensures n > 1 ==> distribution == Run(c, d, start, choose, n - 1).avg
    ensures distribution.Keys == c.links.Keys
    ensures n <= 1 ==> forall p | p in distribution :: distribution[p] == 0.0
    ensures n > 1 ==> forall p | p in distribution ::
      distribution[p] == StepSum(c, d, Run(c, d, start, choose, n - 1).visited, p) / ((n - 1) as real)
    ensures n > 1 ==> Total(c.pages, distribution) == 1.0
    ensures 0.0 <= d <= 1.0 ==> forall p | p in distribution :: 0.0 <= distribution[p] <= 1.0
  {
    distribution := Fill(c, 0.0);
    var page := start;
    if n > 1 {
      for i := 1 to n
        invariant distribution == Run(c, d, start, choose, i - 1).avg
        invariant page == Run(c, d, start, choose, i - 1).page
      {
        var r := TransitionModel(c, page, d);
        var current := r.value;
        distribution := Reaverage(c, distribution, current, i);
        page := choose(i, distribution);
        RunAdvance(c, d, start, choose, i);
      }
      RunOutcome(c, d, start, choose, n - 1);
    } else {
      assert distribution == Zero(c);
    }
  }

  /** One more step of the sampler, as the loop body of sample_pagerank takes it. */
  lemma RunAdvance(c: Corpus, d: real, start: Page, choose: Oracle, i: nat)
    requires c.Valid() && start in c.links && DrawsPages(c, choose)
    requires i >= 1
    ensures Run(c, d, start, choose, i).avg
      == Blend(Run(c, d, start, choose, i - 1).avg, Distribution(c, Run(c, d, start, choose, i - 1).page, d), i)
    ensures Run(c, d, start, choose, i).page == choose(i, Run(c, d, start, choose, i).avg)
  {
  }

  /** The facts about the sampler that sample_pagerank's result inherits after k >= 1 steps. */
  lemma RunOutcome(c: Corpus, d: real, start: Page, choose: Oracle, k: nat)
    requires c.Valid() && c.WellFormed() && start in c.links && DrawsPages(c, choose)
    requires k >= 1
    ensures forall p | p in Run(c, d, start, choose, k).avg ::
      Run(c, d, start, choose, k).avg[p] == StepSum(c, d, Run(c, d, start, choose, k).visited, p) / (k as real)
    ensures Total(c.pages, Run(c, d, start, choose, k).avg) == 1.0
    ensures 0.0 <= d <= 1.0 ==> forall p | p in Run(c, d, start, choose, k).avg ::
      0.0 <= Run(c, d, start, choose, k).avg[p] <= 1.0
  {
    RunIsMean(c, d, start, choose, k);
    RunSumsToOne(c, d, start, choose, k);
    if 0.0 <= d <= 1.0 {
      RunBounds(c, d, start, choose, k);
    }
  }

  /** The inner loop of sample_pagerank: every page's running average updated in place. */
  method Reaverage(c: Corpus, avg: Dist, current: Dist, i: nat) returns (next: Dist)
    requires c.Valid() && i >= 1
    requires avg.Keys == c.links.Keys && current.Keys == c.links.Keys
    ensures next.Keys == c.links.Keys
    ensures next == Blend(avg, current, i)
  {
    next := avg;
    var j := 0;
    while j < |c.pages|
      invariant 0 <= j <= |c.pages|
      invariant next.Keys == c.links.Keys
      invariant forall p | p in next ::
        next[p] == if p in c.pages[..j] then Mix(avg[p], current[p], i) else avg[p]
    {
      var p := c.pages[j];
      assert p !in c.pages[..j];
      next := next[p := Mix(next[p], current[p], i)];
      assert c.pages[..j + 1] == c.pages[..j] + [p];
      j := j + 1;
    }
    assert c.pages[..j] == c.pages;
    assert next.Keys == Blend(avg, current, i).Keys;
  }
}
