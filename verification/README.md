# PageRank over a small corpus, in exact arithmetic

This project models the PageRank core of `PageRank/pagerank.py`. A corpus maps each page
to the set of pages it links to. The core computes a rank for each page in two independent
ways:

- by **sampling**: a random surfer walks the corpus, following `transition_model`, and the
  average of its step distributions is kept as it goes;
- by **iteration**: `iterate_pagerank` rewrites each page's rank from the ranks of the pages
  that link to it, with `iterative_sum`.

Floats are modelled as Dafny `real`, so every probability is exact. A Python dict iterates in
insertion order, and the iterative method depends on that order. The corpus is therefore a
`Corpus(pages, links)`: `links` is the dict, and `pages` lists its keys once each, in
iteration order (`Corpus.Valid`). The crawler's guarantee becomes `Corpus.WellFormed`: every
link target is a page, and no page links to itself.

Modules, one per part of the source:

- `Graph` (graph.dfy): `Corpus`, the `Dist` page-to-real map, a `Result` carrying Python's
  `KeyError`, and sums over the corpus.
- `Transition` (transition.dfy): `transition_model`. The closed form is `Distribution`, and
  `TransitionModel` follows the source's two loops.
- `Iterate` (iterate.dfy): `iterative_sum` and `iterate_pagerank`.
- `Sampling` (sampling.dfy): the running average of `sample_pagerank`. The random draws are
  inputs: a start page, and an oracle `choose(i, weights)` standing for `random.choices`.

What the code does, as modelled:

- **Dangling pages are treated two ways.** In `transition_model`, a page with no links gives
  every page 1/N. In `iterative_sum`, the same page gives nothing to anyone.
- **One in-place pass.** `iterate_pagerank` binds `distribution = ranks` (line 122), so both
  names refer to the same dict. As a result, each page's incoming sum already reads the new
  ranks of the pages before it in corpus order. The change test on line 125 compares an entry
  with itself, so the `while` body runs exactly once.
- **Draws weighted by the running average.** The next page of the walk is drawn with the
  running average as weights (line 99), not the current step distribution.

The docstrings of `sample_pagerank` (PageRank/pagerank.py:79-84) and `iterate_pagerank`
(PageRank/pagerank.py:105-109) promise values between 0 and 1 that sum to 1, reached
"until convergence" in the iterative case. The model follows the code where the two part:

- `iterate_pagerank` makes a single in-place pass, not a repetition until convergence
  (`Iterate.IteratePageRank`, `Iterate.Sweep`).
- The iterative ranks need not sum to 1. Take A → B with B dangling, and d = 0.85. The pass
  yields A = 0.075 and B = 0.13875, which sum to 0.21375 (`Iterate.InPlaceExample`).
  A synchronous step would have given B = 0.5.
- A corpus of one dangling page `{A: {}}` gets rank `1 - d` from the iterative code
  (`Iterate.SinglePageExample`). The sampling code gives it 1.0 once n >= 2.
- Neither function checks the damping factor or the corpus size. The bounds lemmas assume
  0 <= d <= 1; the sum lemmas need no bound on d.
- `iterate_pagerank` on an empty corpus returns an empty dict: 1/n is never evaluated
  (`Iterate.StartRanks`).

## Model

| member | source | states |
|---|---|---|
| `Transition.TransitionModel` | PageRank/pagerank.py:53-74 | Fails with KeyError exactly when the page is not in the corpus, or when it has links and one of them is not a page. The error names the page, or one of its links that is not a page. Otherwise the result has exactly one key per corpus page. If L > 0, each linked page gets (1-d)/N + d/L and every other page (1-d)/N. If L = 0, every page gets 1/N. The result equals the closed form `Distribution`. |
| `Transition.Fill` | PageRank/pagerank.py:66-72 | The loops over the corpus give every page, and only the pages, the same value. |
| `Transition.DistributionSum` | PageRank/pagerank.py:63-72 | Assume every link target is a page. Then the transition distribution sums to exactly 1 over the corpus, for any damping factor. |
| `Transition.DistributionBounds` | PageRank/pagerank.py:63-72 | With 0 <= d <= 1, every transition probability lies in [0, 1]. |
| `Iterate.Linkers` | PageRank/pagerank.py:133-134 | A page is among the linkers of `page` exactly when it is in the corpus and its link set contains `page`. |
| `Iterate.LinkersDistinct` | PageRank/pagerank.py:133-134 | Over a corpus order without repetitions, no page appears twice among the linkers, so no share is counted twice. |
| `Iterate.IterativeSum` | PageRank/pagerank.py:130-137 | The loop's result is the sum of rank / number-of-links over exactly the pages whose link set contains `page`. It equals the fold `IncomingSum`. |
| `Iterate.IncomingIsLinkerShares` | PageRank/pagerank.py:130-137 | The incoming sum is the sum of the shares of the linking pages, and only of those. Only pages with at least one link have a share, so there is no division by zero. |
| `Iterate.IncomingReadsOnlyLinkers` | PageRank/pagerank.py:133-135 | Two rank maps that agree on the pages linking to `page` give the same incoming sum. |
| `Iterate.DanglingContributesNothing` | PageRank/pagerank.py:133-135 | Changing a dangling page's rank changes no page's incoming sum. This differs from `transition_model`, which spreads a dangling page over all pages. |
| `Iterate.IncomingNonNegative` | PageRank/pagerank.py:130-137 | Non-negative ranks give a non-negative incoming sum. |
| `Iterate.Pass` | PageRank/pagerank.py:123-124 | The in-place pass rewrites ranks but keeps the same set of keys. |
| `Iterate.PassFrame` | PageRank/pagerank.py:123-124 | A page the pass does not visit keeps its rank. |
| `Iterate.PassReadsEarlierUpdates` | PageRank/pagerank.py:122-124 | The i-th page's final rank is (1-d)/N + d times its incoming sum. That sum reads the final ranks of the pages before it and the starting ranks of the pages after it. |
| `Iterate.PassLowerBound` | PageRank/pagerank.py:117-124 | Take 0 <= d <= 1 and starting ranks of at least (1-d)/N. Then every rank after the pass is at least (1-d)/N. |
| `Iterate.StartRanks` | PageRank/pagerank.py:115-117 | Every page starts with rank 1/N, so N times its rank is 1, and no other key is present. |
| `Iterate.Sweep` | PageRank/pagerank.py:119-125 | One run of the `while` body leaves `change` false, and its result is the in-place pass over the corpus order. |
| `Iterate.IteratePageRank` | PageRank/pagerank.py:103-127 | The `while` body runs exactly once. The result is one in-place pass in corpus order from 1/N, with exactly the corpus pages as keys. With 0 <= d <= 1, every rank is at least (1-d)/N. |
| `Iterate.InPlaceExample` | PageRank/pagerank.py:103-127 | Take A → B with B dangling, d = 0.85, order A then B. The result is A = 0.075 and B = 0.13875, because B reads A's new rank. The sum is 0.21375, not 1. |
| `Iterate.SinglePageExample` | PageRank/pagerank.py:112-127 | A corpus of one dangling page gives that page 1 - d. |
| `Sampling.Run` | PageRank/pagerank.py:86-99 | After k steps the average has exactly the corpus pages as keys. The surfer is on a corpus page. The walk has visited k corpus pages, the first being the start page. |
| `Sampling.RunVisited` | PageRank/pagerank.py:91-99 | Entry j of the visited path is the page the surfer was on after j draws: the path records exactly the pages whose transition model was averaged. |
| `Sampling.BlendIsMean` | PageRank/pagerank.py:94-96 | One update ((i-1)·avg + step)/i turns the mean of i-1 step distributions into the mean of i. |
| `Sampling.RunIsMean` | PageRank/pagerank.py:86-96 | After k >= 1 steps, the running average at every page is the arithmetic mean of the k step distributions. With no steps it is 0 everywhere. |
| `Sampling.RunSumsToOne` | PageRank/pagerank.py:86-96 | On a corpus meeting the crawler's guarantee, the running average sums to exactly 1 after at least one step. |
| `Sampling.RunBounds` | PageRank/pagerank.py:86-96 | With 0 <= d <= 1, the running average stays in [0, 1] at every page. |
| `Sampling.Reaverage` | PageRank/pagerank.py:94-96 | The in-place loop over the pages yields the incremental average of every page. |
| `Sampling.RunOutcome` | PageRank/pagerank.py:86-100 | After k >= 1 steps the average at every page is the mean of the k step distributions along the visited path, it sums to 1 over the corpus, and with 0 <= d <= 1 it lies in [0, 1]. |
| `Sampling.SamplePageRank` | PageRank/pagerank.py:77-100 | The result is the running average after max(n-1, 0) steps, with exactly the corpus pages as keys. It is all zeros when n <= 1. For n > 1 it is the arithmetic mean of the n-1 step distributions and sums to 1. With 0 <= d <= 1, every value lies in [0, 1]. |

## Left out

- `crawl` (PageRank/pagerank.py:26-50): directory listing, file reading and regular-expression link extraction are I/O. Only its output invariant is kept, as `Corpus.WellFormed`.
- `main` (PageRank/pagerank.py:12-23): command-line handling, sorting and printing.
- Randomness (PageRank/pagerank.py:90, 99): the start page and the oracle are inputs. No claim is made about how close the sampled ranks come to any fixed point.
- Sampling.SamplePageRank: requires a start page in the corpus. On an empty corpus the source's `random.choice` raises IndexError at line 90; that case is not modelled, because the draw is an input here.
- Sampling.SamplePageRank: requires the crawler's invariant (`Corpus.WellFormed`). On a corpus with a link target that is not a page, `transition_model` would raise KeyError inside the loop; the model does not propagate that error. `Transition.TransitionModel` does model it.
- Transition.TransitionModel: on a missing link target it names some missing target, not a particular one, because the source iterates a Python set, whose order is unspecified.
- Iterate.IteratePageRank: proves only the lower half of the docstring's "a value between 0 and 1", the bound (1-d)/N; no upper bound of 1 is proved for the in-place pass.
- Floating-point rounding: all arithmetic is exact over `real`. The 0.001 threshold of line 125 is kept, but it only ever compares an entry with itself.
- Convergence or termination of a repeated fixed-point iteration: the source's loop runs once, so there is nothing to converge.
