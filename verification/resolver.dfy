/** The uniqueness resolver of `SlugField._generate_slug`, over an abstract,
    finite view of the slugs already stored. Attempt `k` is the base itself
    when `k == 0` and `base-k` otherwise; the resolver returns the first
    attempt that is not in the view. */
module Resolver {
  import opened Decimal

  /** The `k`-th string the loop tries: `base`, then `'%s-%s' % (base, k)`. */
  function Candidate(base: string, k: nat): (c: string)
    ensures k == 0 ==> c == base
    ensures k > 0 ==> |c| > |base| + 1 && c[..|base|] == base && c[|base|] == '-'
  {
    if k == 0 then base else base + "-" + NatToDecimal(k)
  }

  /** Different attempt counters never produce the same candidate text. */
  lemma CandidateInjective(base: string, i: nat, j: nat)
    ensures Candidate(base, i) == Candidate(base, j) ==> i == j
  {
    if Candidate(base, i) == Candidate(base, j) && i != 0 && j != 0 {
      var n := |base| + 1;
      assert Candidate(base, i)[n..] == NatToDecimal(i);
      assert Candidate(base, j)[n..] == NatToDecimal(j);
      NatToDecimalInjective(i, j);
    }
  }

  /** The first `n` candidates, as a set. */
  ghost function Tried(base: string, n: nat): set<string>
  {
    set i | 0 <= i < n :: Candidate(base, i)
  }

  lemma {:induction false} TriedSize(base: string, n: nat)
    ensures |Tried(base, n)| == n
  {
    if n > 0 {
      TriedSize(base, n - 1);
      assert Tried(base, n) == Tried(base, n - 1) + {Candidate(base, n - 1)};
      if Candidate(base, n - 1) in Tried(base, n - 1) {
        var i :| 0 <= i < n - 1 && Candidate(base, i) == Candidate(base, n - 1);
        CandidateInjective(base, i, n - 1);
      }
    } else {
      assert Tried(base, 0) == {};
    }
  }

  /** The termination measure of the loop: when the first `n` candidates are
      all taken they are `n` distinct members of the view, so `n <= |taken|`. */
  lemma {:induction false} TakenBound(base: string, taken: set<string>, n: nat)
    requires forall i | 0 <= i < n :: Candidate(base, i) in taken
    ensures n <= |taken|
  {
    TriedSize(base, n);
    var rest := taken - Tried(base, n);
    assert taken == Tried(base, n) + rest;
    assert Tried(base, n) * rest == {};
  }

  /** `k` is the counter the loop stops at: candidate `k` is free and every
      earlier candidate is taken. */
  ghost predicate LeastFree(base: string, taken: set<string>, k: nat)
  {
    && Candidate(base, k) !in taken
    && forall i | 0 <= i < k :: Candidate(base, i) in taken
  }

  /** The stopping counter is determined by the base and the view. */
  lemma LeastFreeUnique(base: string, taken: set<string>, k1: nat, k2: nat)
    requires LeastFree(base, taken, k1) && LeastFree(base, taken, k2)
    ensures k1 == k2
  {
  }

  /** Resolution starting at counter `k`, once candidates `0..k-1` are known
      to be taken. */
  function ResolveFrom(base: string, taken: set<string>, k: nat): (r: nat)
    requires forall i | 0 <= i < k :: Candidate(base, i) in taken
    ensures k <= r
    ensures LeastFree(base, taken, r)
    decreases |taken| - k
  {
    if Candidate(base, k) !in taken then k
    else
      TakenBound(base, taken, k + 1);
      ResolveFrom(base, taken, k + 1)
  }

  /** The counter `_generate_slug` stops at. */
  function ResolveIndex(base: string, taken: set<string>): (k: nat)
    ensures LeastFree(base, taken, k)
    ensures k <= |taken|
  {
    var k := ResolveFrom(base, taken, 0);
    TakenBound(base, taken, k);
    k
  }

  /** The slug `_generate_slug` returns for a base and a view. */
  function ResolveSlug(base: string, taken: set<string>): (r: string)
    ensures r !in taken
    ensures base !in taken ==> r == base
    ensures r == base || exists n: nat :: 1 <= n && r == base + "-" + NatToDecimal(n)
    ensures exists k: nat :: r == Candidate(base, k) && LeastFree(base, taken, k)
  {
    var k := ResolveIndex(base, taken);
    assert k > 0 ==> Candidate(base, k) == base + "-" + NatToDecimal(k);
    Candidate(base, k)
  }

  /** Minimality, stated on the rendered result: when the slug is `base-n`,
      the base and every `base-i` with `1 <= i < n` were in the view. */
  lemma ResolvedSuffixMinimal(base: string, taken: set<string>, n: nat)
    requires 1 <= n
    requires ResolveSlug(base, taken) == base + "-" + NatToDecimal(n)
    ensures base in taken
    ensures forall i: nat | 1 <= i < n :: base + "-" + NatToDecimal(i) in taken
  {
    var k :| ResolveSlug(base, taken) == Candidate(base, k) && LeastFree(base, taken, k);
    CandidateInjective(base, k, n);
    assert Candidate(base, n) == base + "-" + NatToDecimal(n);
    assert Candidate(base, 0) in taken;
    forall i: nat | 1 <= i < n
      ensures base + "-" + NatToDecimal(i) in taken
    {
      assert Candidate(base, i) in taken;
    }
  }

  /** If exactly the attempts before `k` are taken and attempt `k` is free,
      the resolver answers attempt `k`. */
  lemma ResolveAt(base: string, taken: set<string>, k: nat)
    requires LeastFree(base, taken, k)
    ensures ResolveSlug(base, taken) == Candidate(base, k)
  {

  }

  /** Successive first saves with the same base: after the resolved slug of
      each save is added to the view, the next save gets the next suffix.
      `Successive(base, view, n)` lists the slugs of `n` such saves. */
  function Successive(base: string, taken: set<string>, n: nat): (slugs: seq<string>)
    ensures |slugs| == n
    decreases n
  {
    if n == 0 then []
    else
      var s := ResolveSlug(base, taken);
      [s] + Successive(base, taken + {s}, n - 1)
  }

  /** Starting from a view that holds the base's first `k` candidates and
      none of the later ones, `n` successive saves yield candidates `k`,
      `k+1`, ..., `k+n-1` in order. */
  lemma {:induction false} SuccessiveSuffixes(base: string, taken: set<string>, k: nat, n: nat)
    requires forall i | 0 <= i < k :: Candidate(base, i) in taken
    requires forall i: nat | k <= i :: Candidate(base, i) !in taken
    ensures forall j | 0 <= j < n :: Successive(base, taken, n)[j] == Candidate(base, k + j)
    decreases n
  {
    if n > 0 {
      ResolveAt(base, taken, k);
      var s := Candidate(base, k);
      var taken' := taken + {s};
      forall i: nat | k + 1 <= i
        ensures Candidate(base, i) !in taken'
      {
        CandidateInjective(base, i, k);
      }
      SuccessiveSuffixes(base, taken', k + 1, n - 1);
    }
  }
}
