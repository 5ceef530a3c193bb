/**
Page-replacement policies as functions of the reference string: LRU, FIFO and
second chance on queues of pages, oldest first, together with what they are
worth against any other way of choosing which pages to keep.
*/
module PagePolicies {
  import opened Collections

  // ---------------------------------------------------------------------- LRU

  /** s without p, order kept. */
  function Without(s: seq<int>, p: int): seq<int> {
    if s == [] then []
    else if s[|s| - 1] == p then Without(s[..|s| - 1], p)
    else Without(s[..|s| - 1], p) + [s[|s| - 1]]
  }

  lemma {:induction false} WithoutMembers(s: seq<int>, p: int)
    ensures forall x :: x in Without(s, p) <==> x in s && x != p
  {
    if s != [] {
      WithoutMembers(s[..|s| - 1], p);
      assert s == s[..|s| - 1] + [s[|s| - 1]];
    }
  }

  lemma {:induction false} WithoutDistinct(s: seq<int>, p: int)
    requires Distinct(s)
    ensures Distinct(Without(s, p))
  {
    if s != [] {
      WithoutDistinct(s[..|s| - 1], p);
      WithoutMembers(s[..|s| - 1], p);
    }
  }

  lemma {:induction false} WithoutSize(s: seq<int>, p: int)
    requires Distinct(s)
    ensures |Without(s, p)| == if p in s then |s| - 1 else |s|
  {
    if s != [] {
      WithoutSize(s[..|s| - 1], p);
      assert s == s[..|s| - 1] + [s[|s| - 1]];
    }
  }

  lemma WithoutElements(s: seq<int>, p: int)
    ensures forall x :: x in Without(s, p) <==> x in s && x != p
    ensures Distinct(s) ==> Distinct(Without(s, p))
    ensures Distinct(s) ==> |Without(s, p)| == if p in s then |s| - 1 else |s|
  {
    WithoutMembers(s, p);
    if Distinct(s) {
      WithoutDistinct(s, p);
      WithoutSize(s, p);
    }
  }

  lemma {:induction false} WithoutAbsent(s: seq<int>, p: int)
    requires p !in s
    ensures Without(s, p) == s
  {
    if s != [] {
      WithoutAbsent(s[..|s| - 1], p);
    }
  }

  lemma {:induction false} WithoutConcat(a: seq<int>, b: seq<int>, p: int)
    ensures Without(a + b, p) == Without(a, p) + Without(b, p)
  {
    if b == [] {
      assert a + b == a;
    } else {
      WithoutConcat(a, b[..|b| - 1], p);
      assert (a + b)[..|a + b| - 1] == a + b[..|b| - 1];
    }
  }

  /** The last n entries of s, or all of it. */
  function LastN(s: seq<int>, n: nat): seq<int> {
    if |s| <= n then s else s[|s| - n..]
  }

  /** All pages referenced so far, least recently used first. */
  function Recency(refs: seq<int>): seq<int> {
    if refs == [] then []
    else Without(Recency(refs[..|refs| - 1]), refs[|refs| - 1]) + [refs[|refs| - 1]]
  }

  /** One reference with n frames, on the pages in memory, least recently used first. */
  function LruStep(n: nat, s: seq<int>, p: int): seq<int>
    requires n > 0
  {
    if p in s then Without(s, p) + [p]
    else if |s| < n then s + [p]
    else s[1..] + [p]
  }

  function LruStack(n: nat, refs: seq<int>): (s: seq<int>)
    requires n > 0
  {
    if refs == [] then [] else LruStep(n, LruStack(n, refs[..|refs| - 1]), refs[|refs| - 1])
  }

  function LruHits(n: nat, refs: seq<int>): (hits: seq<bool>)
    requires n > 0
    ensures |hits| == |refs|
  {
    if refs == [] then []
    else LruHits(n, refs[..|refs| - 1]) + [refs[|refs| - 1] in LruStack(n, refs[..|refs| - 1])]
  }

  /** How many entries of a hit record are misses. */
  function Misses(hits: seq<bool>): nat {
    if hits == [] then 0
    else Misses(hits[..|hits| - 1]) + if hits[|hits| - 1] then 0 else 1
  }

  /** Index of the last use of p, or -1. */
  function LastUse(refs: seq<int>, p: int): (k: int)
    ensures -1 <= k < |refs|
  {
    if refs == [] then -1
    else if refs[|refs| - 1] == p then |refs| - 1
    else LastUse(refs[..|refs| - 1], p)
  }

  lemma {:induction false} LastUseMeaning(refs: seq<int>, p: int)
    ensures LastUse(refs, p) >= 0 ==> refs[LastUse(refs, p)] == p
    ensures forall j | LastUse(refs, p) < j < |refs| :: refs[j] != p
  {
    if refs != [] {
      LastUseMeaning(refs[..|refs| - 1], p);
    }
  }

  /** The pages of s stand in the order of their last uses. */
  ghost predicate ByLastUse(refs: seq<int>, s: seq<int>) {
    forall i, j | 0 <= i < j < |s| :: LastUse(refs, s[i]) < LastUse(refs, s[j])
  }

  /** Recency lists every referenced page once, in the order of the last uses. */
  lemma {:induction false} RecencySet(refs: seq<int>)
    ensures Distinct(Recency(refs))
    ensures forall x :: x in Recency(refs) <==> x in refs
  {
    if refs != [] {
      var init, p := refs[..|refs| - 1], refs[|refs| - 1];
      RecencySet(init);
      WithoutElements(Recency(init), p);
      assert refs == init + [p];
    }
  }

  lemma {:induction false} RecencyIsByLastUse(refs: seq<int>)
    ensures ByLastUse(refs, Recency(refs))
  {
    if refs != [] {
      RecencyIsByLastUse(refs[..|refs| - 1]);
      WithoutByLastUse(refs, Recency(refs[..|refs| - 1]), refs[|refs| - 1]);
    }
  }

  /** Every page of s was last used before index k. */
  ghost predicate UsedBefore(refs: seq<int>, s: seq<int>, k: int) {
    forall i | 0 <= i < |s| :: LastUse(refs, s[i]) < k
  }

  lemma ByLastUseAppend(refs: seq<int>, s: seq<int>, x: int)
    ensures ByLastUse(refs, s + [x]) <==> ByLastUse(refs, s) && UsedBefore(refs, s, LastUse(refs, x))
  {
    if ByLastUse(refs, s + [x]) {
      forall i, j | 0 <= i < j < |s|
        ensures LastUse(refs, s[i]) < LastUse(refs, s[j])
      {
        assert (s + [x])[i] == s[i] && (s + [x])[j] == s[j];
      }
      forall i | 0 <= i < |s|
        ensures LastUse(refs, s[i]) < LastUse(refs, x)
      {
        assert (s + [x])[i] == s[i] && (s + [x])[|s|] == x;
      }
    }
  }

  lemma {:induction false} WithoutUsedBefore(refs: seq<int>, s: seq<int>, p: int, k: int)
    requires refs != [] && refs[|refs| - 1] == p && UsedBefore(refs[..|refs| - 1], s, k)
    ensures UsedBefore(refs, Without(s, p), k)
  {
    if s != [] {
      WithoutUsedBefore(refs, s[..|s| - 1], p, k);
    }
  }

  /** A new use of p moves p behind all other pages and leaves their order alone. */
  lemma {:induction false} WithoutByLastUse(refs: seq<int>, s: seq<int>, p: int)
    requires refs != [] && refs[|refs| - 1] == p && ByLastUse(refs[..|refs| - 1], s)
    ensures ByLastUse(refs, Without(s, p)) && ByLastUse(refs, Without(s, p) + [p])
  {
    if s != [] {
      var init, x := s[..|s| - 1], s[|s| - 1];
      assert s == init + [x];
      ByLastUseAppend(refs[..|refs| - 1], init, x);
      WithoutByLastUse(refs, init, p);
      if x != p {
        WithoutUsedBefore(refs, init, p, LastUse(refs, x));
        ByLastUseAppend(refs, Without(init, p), x);
      }
    }
    WithoutUsedBefore(refs, s, p, |refs| - 1);
    ByLastUseAppend(refs, Without(s, p), p);
  }

  lemma LastNConcat(a: seq<int>, b: seq<int>, n: nat)
    requires |b| == n || (a == [] && |b| <= n)
    ensures LastN(a + b, n) == b
  {
    assert a == [] ==> a + b == b;
  }

  lemma LruHitIsUse(n: nat, a: seq<int>, s: seq<int>, p: int)
    requires n > 0 && p in s && p !in a && Distinct(s) && (|s| == n || (a == [] && |s| <= n))
    ensures LruStep(n, s, p) == LastN(Without(a + s, p) + [p], n)
  {
    var w := Without(s, p);
    WithoutConcat(a, s, p);
    WithoutAbsent(a, p);
    assert |w + [p]| == |s| by {
      WithoutElements(s, p);
    }
    assert a + w + [p] == a + (w + [p]);
    LastNConcat(a, w + [p], n);
  }

  lemma LruMissIsUse(n: nat, a: seq<int>, s: seq<int>, p: int)
    requires n > 0 && p !in s && (|s| == n || (a == [] && |s| <= n))
    ensures LruStep(n, s, p) == LastN(Without(a + s, p) + [p], n)
  {
    var w := Without(a, p);
    WithoutConcat(a, s, p);
    WithoutAbsent(s, p);
    if |s| < n {
      assert w + s + [p] == s + [p];
      LastNConcat([], s + [p], n);
    } else {
      assert w + s + [p] == (w + [s[0]]) + (s[1..] + [p]);
      LastNConcat(w + [s[0]], s[1..] + [p], n);
    }
  }

  /** One LRU step on the last n pages is a use of the page in the whole list. */
  lemma LruStepIsUse(n: nat, a: seq<int>, s: seq<int>, p: int)
    requires n > 0 && Distinct(a + s) && (|s| == n || (a == [] && |s| <= n))
    ensures LruStep(n, s, p) == LastN(Without(a + s, p) + [p], n)
  {
    DistinctConcat(a, s);
    if p in s {
      LruHitIsUse(n, a, s, p);
    } else {
      LruMissIsUse(n, a, s, p);
    }
  }

  lemma LruStepOnRecency(n: nat, r: seq<int>, p: int)
    requires n > 0 && Distinct(r)
    ensures LruStep(n, LastN(r, n), p) == LastN(Without(r, p) + [p], n)
  {
    var s := LastN(r, n);
    var a := r[..|r| - |s|];
    assert r == a + s;
    LruStepIsUse(n, a, s, p);
  }

  /** Stack LRU keeps exactly the (up to) n most recently used pages, oldest first. */
  lemma {:induction false} LruIsMostRecent(n: nat, refs: seq<int>)
    requires n > 0
    ensures LruStack(n, refs) == LastN(Recency(refs), n)
  {
    if refs != [] {
      var init, p := refs[..|refs| - 1], refs[|refs| - 1];
      LruIsMostRecent(n, init);
      RecencySet(init);
      LruStepOnRecency(n, Recency(init), p);
    }
  }

  lemma LruExtend(n: nat, refs: seq<int>, p: int)
    requires n > 0
    ensures LruStack(n, refs + [p]) == LruStep(n, LruStack(n, refs), p)
    ensures Misses(LruHits(n, refs + [p])) == Misses(LruHits(n, refs)) + if p in LruStack(n, refs) then 0 else 1
  {
    assert (refs + [p])[..|refs|] == refs;
    var h := LruHits(n, refs);
    assert (h + [p in LruStack(n, refs)])[..|h|] == h;
  }

  lemma LastNDistinct(s: seq<int>, n: nat)
    requires Distinct(s)
    ensures Distinct(LastN(s, n)) && forall x | x in LastN(s, n) :: x in s
  {
    var t := LastN(s, n);
    var a := s[..|s| - |t|];
    assert s == a + t;
    DistinctConcat(a, t);
  }

  lemma LruStackFacts(n: nat, refs: seq<int>)
    requires n > 0
    ensures Distinct(LruStack(n, refs)) && |LruStack(n, refs)| <= n
    ensures forall x | x in LruStack(n, refs) :: x in refs
  {
    LruIsMostRecent(n, refs);
    RecencySet(refs);
    LastNDistinct(Recency(refs), n);
  }

  /** Inclusion: what n frames hold, more frames hold too, so they never miss more. */
  lemma {:induction false} LruInclusion(n: nat, m: nat, refs: seq<int>)
    requires 0 < n <= m
    ensures forall x | x in LruStack(n, refs) :: x in LruStack(m, refs)
    ensures forall k | 0 <= k < |refs| && LruHits(n, refs)[k] :: LruHits(m, refs)[k]
    ensures Misses(LruHits(m, refs)) <= Misses(LruHits(n, refs))
  {
    LruIsMostRecent(n, refs);
    LruIsMostRecent(m, refs);
    if refs != [] {
      LruInclusion(n, m, refs[..|refs| - 1]);
      var hn, hm := LruHits(n, refs), LruHits(m, refs);
      assert hn[..|hn| - 1] == LruHits(n, refs[..|refs| - 1]);
      assert hm[..|hm| - 1] == LruHits(m, refs[..|refs| - 1]);
    }
  }

  // --------------------------------------------------------------------- FIFO

  function FifoStep(n: nat, q: seq<int>, p: int): seq<int>
    requires n > 0
  {
    if p in q then q
    else if |q| < n then q + [p]
    else q[1..] + [p]
  }

  /** The pages in memory, longest resident first. */
  function FifoQueue(n: nat, refs: seq<int>): seq<int>
    requires n > 0
  {
    if refs == [] then [] else FifoStep(n, FifoQueue(n, refs[..|refs| - 1]), refs[|refs| - 1])
  }

  function FifoHits(n: nat, refs: seq<int>): (hits: seq<bool>)
    requires n > 0
    ensures |hits| == |refs|
  {
    if refs == [] then []
    else FifoHits(n, refs[..|refs| - 1]) + [refs[|refs| - 1] in FifoQueue(n, refs[..|refs| - 1])]
  }

  /** The pages loaded so far, in loading order: the references that missed. */
  function Loads(refs: seq<int>, hits: seq<bool>): seq<int>
    requires |refs| == |hits|
  {
    if refs == [] then []
    else Loads(refs[..|refs| - 1], hits[..|refs| - 1])
         + if hits[|refs| - 1] then [] else [refs[|refs| - 1]]
  }

  lemma FifoExtend(n: nat, refs: seq<int>, p: int)
    requires n > 0
    ensures FifoQueue(n, refs + [p]) == FifoStep(n, FifoQueue(n, refs), p)
    ensures FifoHits(n, refs + [p]) == FifoHits(n, refs) + [p in FifoQueue(n, refs)]
    ensures Misses(FifoHits(n, refs + [p])) == Misses(FifoHits(n, refs)) + if p in FifoQueue(n, refs) then 0 else 1
  {
    assert (refs + [p])[..|refs|] == refs;
    var h := FifoHits(n, refs);
    assert (h + [p in FifoQueue(n, refs)])[..|h|] == h;
  }

  lemma {:induction false} FifoQueueFacts(n: nat, refs: seq<int>)
    requires n > 0
    ensures Distinct(FifoQueue(n, refs)) && |FifoQueue(n, refs)| <= n
    ensures forall x | x in FifoQueue(n, refs) :: x in refs
  {
    if refs != [] {
      var init, p := refs[..|refs| - 1], refs[|refs| - 1];
      var q := FifoQueue(n, init);
      FifoQueueFacts(n, init);
      assert refs == init + [p];
      if p !in q && |q| == n {
        assert q == [q[0]] + q[1..];
        DistinctConcat([q[0]], q[1..]);
      }
    }
  }

  lemma FifoMissIsLoad(n: nat, a: seq<int>, q: seq<int>, p: int)
    requires n > 0 && p !in q && (|q| == n || (a == [] && |q| <= n))
    ensures FifoStep(n, q, p) == LastN(a + q + [p], n)
  {
    if |q| < n {
      assert a + q + [p] == q + [p];
      LastNConcat([], q + [p], n);
    } else {
      assert a + q + [p] == (a + [q[0]]) + (q[1..] + [p]);
      LastNConcat(a + [q[0]], q[1..] + [p], n);
    }
  }

  /** FIFO keeps the n pages loaded last, so the page it evicts is the longest resident. */
  lemma {:induction false} FifoIsLastLoaded(n: nat, refs: seq<int>)
    requires n > 0
    ensures FifoQueue(n, refs) == LastN(Loads(refs, FifoHits(n, refs)), n)
  {
    if refs != [] {
      var init, p := refs[..|refs| - 1], refs[|refs| - 1];
      FifoIsLastLoaded(n, init);
      FifoQueueFacts(n, init);
      assert FifoHits(n, refs)[..|init|] == FifoHits(n, init);
      var loads := Loads(init, FifoHits(n, init));
      var q := FifoQueue(n, init);
      if p in q {
        assert loads + [] == loads;
      } else {
        assert loads[..|loads| - |q|] + q == loads;
        FifoMissIsLoad(n, loads[..|loads| - |q|], q, p);
      }
    }
  }

  // -------------------------------------------------- any other choice of pages

  /** One reference brings in its page if need be and nothing else. */
  ghost predicate Serves(n: nat, cache: set<int>, p: int, cache': set<int>) {
    p in cache' && cache' <= cache + {p} && |cache'| <= n
  }

  /** The memory contents of a demand-paging run with n frames from empty memory, with
      any choice of what to evict. */
  ghost predicate Legal(n: nat, refs: seq<int>, caches: seq<set<int>>) {
    && |caches| == |refs| + 1
    && caches[0] == {}
    && forall k | 0 <= k < |refs| ::
         Serves(n, caches[k], refs[k], caches[k + 1])
  }

  ghost function Faults(refs: seq<int>, caches: seq<set<int>>): nat
    requires |caches| == |refs| + 1
  {
    if refs == [] then 0
    else Faults(refs[..|refs| - 1], caches[..|refs|])
         + if refs[|refs| - 1] in caches[|refs| - 1] then 0 else 1
  }

  /** The contents of memory under LRU, from empty memory on. */
  ghost function LruMemory(n: nat, refs: seq<int>): (caches: seq<set<int>>)
    requires n > 0
    ensures |caches| == |refs| + 1 && caches[|refs|] == Elements(LruStack(n, refs))
  {
    if refs == [] then [{}] else LruMemory(n, refs[..|refs| - 1]) + [Elements(LruStack(n, refs))]
  }

  lemma LruStepMembers(n: nat, s: seq<int>, p: int, x: int)
    requires n > 0 && x in LruStep(n, s, p) && x != p
    ensures x in s
  {
    if p in s {
      WithoutMembers(s, p);
    } else if |s| >= n {
      assert x in s[1..];
    }
  }

  lemma LruServes(n: nat, s: seq<int>, p: int)
    requires n > 0 && Distinct(LruStep(n, s, p)) && |LruStep(n, s, p)| <= n
    ensures Serves(n, Elements(s), p, Elements(LruStep(n, s, p)))
  {
    var t := LruStep(n, s, p);
    DistinctSize(t);
    ElementsMeaning(t);
    assert p in t by {
      assert t[|t| - 1] == p;
    }
    forall x | x in Elements(t)
      ensures x in Elements(s) + {p}
    {
      if x != p {
        LruStepMembers(n, s, p, x);
        ElementsMeaning(s);
      }
    }
  }

  lemma LruLegalStep(n: nat, refs: seq<int>, p: int)
    requires n > 0 && Legal(n, refs, LruMemory(n, refs))
    ensures Legal(n, refs + [p], LruMemory(n, refs + [p]))
    ensures Faults(refs + [p], LruMemory(n, refs + [p]))
            == Faults(refs, LruMemory(n, refs)) + if p in LruStack(n, refs) then 0 else 1
  {
    var s, t := LruStack(n, refs), LruStack(n, refs + [p]);
    LruStackFacts(n, refs + [p]);
    LruServes(n, s, p);
    assert p in Elements(s) <==> p in s by {
      ElementsMeaning(s);
    }
    assert (refs + [p])[..|refs|] == refs;
  }

  /** LRU is itself such a run, and its faults are its misses. */
  lemma {:induction false} LruIsLegal(n: nat, refs: seq<int>)
    requires n > 0
    ensures Legal(n, refs, LruMemory(n, refs))
    ensures Faults(refs, LruMemory(n, refs)) == Misses(LruHits(n, refs))
  {
    if refs != [] {
      var init, p := refs[..|refs| - 1], refs[|refs| - 1];
      LruIsLegal(n, init);
      assert refs == init + [p];
      LruLegalStep(n, init, p);
    }
  }

  /** Cut a reference string greedily into phases of at most n distinct pages. */
  datatype Phase = Phase(count: nat, pages: set<int>)

  ghost function NextPhase(n: nat, ph: Phase, p: int): Phase {
    if p in ph.pages then ph
    else if ph.count > 0 && |ph.pages| < n then Phase(ph.count, ph.pages + {p})
    else Phase(ph.count + 1, {p})
  }

  ghost function Phases(n: nat, refs: seq<int>): Phase {
    if refs == [] then Phase(0, {}) else NextPhase(n, Phases(n, refs[..|refs| - 1]), refs[|refs| - 1])
  }

  ghost predicate PhaseOk(n: nat, ph: Phase) {
    |ph.pages| <= n && (ph.count == 0 ==> ph.pages == {})
  }

  lemma {:induction false} PhasesOk(n: nat, refs: seq<int>)
    requires n > 0
    ensures PhaseOk(n, Phases(n, refs))
  {
    if refs != [] {
      PhasesOk(n, refs[..|refs| - 1]);
    }
  }

  /** Any run faults at least once per phase; base holds what memory may still contain
      if the current phase has not been paid for yet. */
  lemma {:induction false} PhasesCost(n: nat, refs: seq<int>, caches: seq<set<int>>) returns (base: set<int>)
    requires n > 0 && Legal(n, refs, caches)
    ensures var ph := Phases(n, refs);
            && Faults(refs, caches) >= ph.count
            && (|| Faults(refs, caches) > ph.count
                || (ph.pages <= base && caches[|refs|] <= base && |base| <= n))
  {
    if refs == [] {
      base := {};
    } else {
      var m := |refs| - 1;
      var cache, cache' := caches[m], caches[m + 1];
      assert Serves(n, cache, refs[m], cache');
      base := PhasesCost(n, refs[..m], caches[..m + 1]);
      PhasesOk(n, refs[..m]);
      var before := Phases(n, refs[..m]);
      if Phases(n, refs).count > before.count {
        if before.pages <= base && |base| <= n {
          SubsetSize(before.pages, base);
        }
        base := cache';
      }
    }
  }

  // ------------------------------------------------------------- LRU in a phase

  /** The pages of the window are the most recently used ones in memory. */
  ghost predicate Recent(s: seq<int>, window: set<int>) {
    |window| <= |s| && Elements(s[|s| - |window|..]) == window
  }

  lemma RecentSuffix(a: seq<int>, b: seq<int>, window: set<int>)
    requires Distinct(b) && Elements(b) == window
    ensures Recent(a + b, window)
  {
    DistinctSize(b);
    assert (a + b)[|a|..] == b;
  }

  /** A use of a listed page only moves it. */
  lemma UseMoves(b: seq<int>, p: int)
    requires Distinct(b) && p in b
    ensures Distinct(Without(b, p) + [p]) && Elements(Without(b, p) + [p]) == Elements(b)
  {
    WithoutElements(b, p);
    var w := Without(b, p);
    forall x
      ensures x in w + [p] <==> x in b
    {
      assert x in w + [p] <==> x in w || x == p;
    }
    SameElements(w + [p], b);
  }

  lemma LruHitRecent(n: nat, a: seq<int>, b: seq<int>, p: int)
    requires n > 0 && Distinct(b) && p in b && p !in a
    ensures Recent(LruStep(n, a + b, p), Elements(b))
  {
    UseMoves(b, p);
    RecentSuffix(a, Without(b, p) + [p], Elements(b));
    WithoutConcat(a, b, p);
    WithoutAbsent(a, p);
    assert a + Without(b, p) + [p] == a + (Without(b, p) + [p]);
    assert p in a + b;
  }

  lemma LruStepEnds(n: nat, a: seq<int>, b: seq<int>, p: int) returns (front: seq<int>)
    requires n > 0 && p !in b && |b| < n && |a + b| <= n
    ensures LruStep(n, a + b, p) == front + (b + [p])
  {
    if p in a + b {
      WithoutConcat(a, b, p);
      WithoutAbsent(b, p);
      front := Without(a, p);
    } else {
      front := if |a + b| < n then a else a[1..];
    }
  }

  lemma LruOtherRecent(n: nat, a: seq<int>, b: seq<int>, p: int)
    requires n > 0 && Distinct(b) && p !in b && |b| < n && |a + b| <= n
    ensures Recent(LruStep(n, a + b, p), Elements(b) + {p})
  {
    var front := LruStepEnds(n, a, b, p);
    RecentSuffix(front, b + [p], Elements(b) + {p});
  }

  lemma RecentParts(s: seq<int>, window: set<int>, p: int) returns (a: seq<int>, b: seq<int>)
    requires Distinct(s) && Recent(s, window)
    ensures s == a + b && Distinct(b) && Elements(b) == window && |b| == |window|
    ensures (p in window <==> p in b) && (p in b ==> p !in a)
  {
    a, b := s[..|s| - |window|], s[|s| - |window|..];
    assert s == a + b;
    DistinctConcat(a, b);
    ElementsMeaning(b);
  }

  lemma MissedIsNew(s: seq<int>, p: int, window: set<int>)
    requires Distinct(s) && Recent(s, window) && p !in s
    ensures p !in window && |window + {p}| == |window| + 1
  {
    var a, b := RecentParts(s, window, p);
  }

  lemma LruStepRecent(n: nat, s: seq<int>, p: int, window: set<int>)
    requires n > 0 && Distinct(s) && |s| <= n && Recent(s, window) && |window + {p}| <= n
    ensures Recent(LruStep(n, s, p), window + {p})
    ensures p !in s ==> p !in window && |window + {p}| == |window| + 1
  {
    if p !in s {
      MissedIsNew(s, p, window);
    }
    LruStepWindow(n, s, p, window);
  }

  lemma LruStepWindow(n: nat, s: seq<int>, p: int, window: set<int>)
    requires n > 0 && Distinct(s) && |s| <= n && Recent(s, window) && |window + {p}| <= n
    ensures Recent(LruStep(n, s, p), window + {p})
  {
    var a, b := RecentParts(s, window, p);
    if p in window {
      assert window + {p} == window;
      LruHitRecent(n, a, b, p);
    } else {
      assert |window + {p}| == |window| + 1;
      LruOtherRecent(n, a, b, p);
    }
  }

  /** Whatever came before, a window with at most n different pages costs LRU at most
      one miss for each of them. */
  lemma {:induction false} LruWindow(n: nat, before: seq<int>, window: seq<int>)
    requires n > 0 && |Elements(window)| <= n
    ensures Misses(LruHits(n, before + window)) <= Misses(LruHits(n, before)) + |Elements(window)|
    ensures Recent(LruStack(n, before + window), Elements(window))
  {
    if window == [] {
      assert before + window == before;
    } else {
      var init, p := window[..|window| - 1], window[|window| - 1];
      var refs := before + init;
      assert before + window == refs + [p] && (refs + [p])[..|refs|] == refs;
      SubsetSize(Elements(init), Elements(window));
      LruWindow(n, before, init);
      LruStackFacts(n, refs);
      LruExtend(n, refs, p);
      LruStepRecent(n, LruStack(n, refs), p, Elements(init));
    }
  }

  /** n for each of k phases. */
  ghost function Times(n: nat, k: nat): nat {
    if k == 0 then 0 else n + Times(n, k - 1)
  }

  lemma {:induction false} TimesIsProduct(n: nat, k: nat)
    ensures Times(n, k) == n * k
  {
    if k > 0 {
      TimesIsProduct(n, k - 1);
      assert n * k == n * (k - 1) + n;
    }
  }

  lemma {:induction false} TimesMonotone(n: nat, k: nat, f: nat)
    requires k <= f
    ensures Times(n, k) <= Times(n, f)
  {
    if k < f {
      TimesMonotone(n, k, f - 1);
    }
  }

  /** The misses LRU and FIFO are allowed so far: n for each finished phase, one for each
      page of the current one. */
  ghost function Allowance(n: nat, ph: Phase): nat {
    if ph.count == 0 then 0 else Times(n, ph.count - 1) + |ph.pages|
  }

  lemma AllowanceGrows(n: nat, ph: Phase, p: int)
    requires n > 0 && PhaseOk(n, ph)
    ensures var next := NextPhase(n, ph, p);
            && PhaseOk(n, next)
            && (next.count == ph.count ==>
                  next.pages == ph.pages + {p} && Allowance(n, next) - |next.pages| == Allowance(n, ph) - |ph.pages|)
            && (next.count != ph.count ==>
                  next.pages == {p} && Allowance(n, next) - 1 >= Allowance(n, ph))
  {
    var next := NextPhase(n, ph, p);
    if next.count == ph.count {
      assert next.pages == ph.pages + {p};
    } else if ph.count > 0 {
      assert Times(n, ph.count) == n + Times(n, ph.count - 1);
    }
  }

  lemma AllowancePaid(n: nat, refs: seq<int>, caches: seq<set<int>>)
    requires n > 0 && Legal(n, refs, caches)
    ensures Allowance(n, Phases(n, refs)) <= n * Faults(refs, caches)
  {
    var base := PhasesCost(n, refs, caches);
    PhasesOk(n, refs);
    TimesMonotone(n, Phases(n, refs).count, Faults(refs, caches));
    TimesIsProduct(n, Faults(refs, caches));
  }

  /** The last pages in memory survive the start of a phase or belong to it. */
  lemma LruNextPhase(n: nat, s: seq<int>, p: int, ph: Phase)
    requires n > 0 && Distinct(s) && |s| <= n && PhaseOk(n, ph) && Recent(s, ph.pages)
    ensures Recent(LruStep(n, s, p), NextPhase(n, ph, p).pages)
    ensures Allowance(n, NextPhase(n, ph, p)) >= Allowance(n, ph) + if p in s then 0 else 1
  {
    AllowanceGrows(n, ph, p);
    if NextPhase(n, ph, p).count == ph.count {
      LruStepRecent(n, s, p, ph.pages);
    } else {
      assert s[|s|..] == [] && {} + {p} == {p};
      LruStepRecent(n, s, p, {});
    }
  }

  /** What a run of LRU has cost, against its phases. */
  ghost predicate LruPaid(n: nat, refs: seq<int>)
    requires n > 0
  {
    && Recent(LruStack(n, refs), Phases(n, refs).pages)
    && Misses(LruHits(n, refs)) <= Allowance(n, Phases(n, refs))
  }

  lemma LruPaidStep(n: nat, refs: seq<int>, p: int)
    requires n > 0 && LruPaid(n, refs)
    ensures LruPaid(n, refs + [p])
  {
    LruStackFacts(n, refs);
    PhasesOk(n, refs);
    LruExtend(n, refs, p);
    assert Phases(n, refs + [p]) == NextPhase(n, Phases(n, refs), p) by {
      assert (refs + [p])[..|refs|] == refs;
    }
    LruNextPhase(n, LruStack(n, refs), p, Phases(n, refs));
  }

  lemma {:induction false} LruPhases(n: nat, refs: seq<int>)
    requires n > 0
    ensures LruPaid(n, refs)
  {
    if refs != [] {
      var init, p := refs[..|refs| - 1], refs[|refs| - 1];
      LruPhases(n, init);
      assert refs == init + [p];
      LruPaidStep(n, init, p);
    }
  }

  /** LRU misses at most n times as often as any other use of n frames. */
  lemma LruCompetitive(n: nat, refs: seq<int>, caches: seq<set<int>>)
    requires n > 0 && Legal(n, refs, caches)
    ensures Misses(LruHits(n, refs)) <= n * Faults(refs, caches)
  {
    LruPhases(n, refs);
    AllowancePaid(n, refs, caches);
  }

  // ------------------------------------------------------------ FIFO in a phase

  /** The last k pages in memory were loaded in the window. */
  ghost predicate LoadedIn(q: seq<int>, window: set<int>, k: nat) {
    k <= |q| && Elements(q[|q| - k..]) <= window
  }

  lemma FifoMissEnds(n: nat, a: seq<int>, b: seq<int>, p: int) returns (front: seq<int>)
    requires n > 0 && |b| < n && |a + b| <= n && p !in a + b
    ensures FifoStep(n, a + b, p) == front + (b + [p])
  {
    front := if |a + b| < n then a else a[1..];
  }

  lemma FifoMissLoaded(n: nat, a: seq<int>, b: seq<int>, p: int, window: set<int>)
    requires n > 0 && Distinct(b) && |a + b| <= n && p !in a + b && Elements(b) <= window && |window + {p}| <= n
    ensures |b| < |window + {p}| && LoadedIn(FifoStep(n, a + b, p), window + {p}, |b| + 1)
  {
    var w := b + [p];
    DistinctSize(w);
    SubsetSize(Elements(w), window + {p});
    var front := FifoMissEnds(n, a, b, p);
  }

  lemma LoadedParts(q: seq<int>, window: set<int>, k: nat) returns (a: seq<int>, b: seq<int>)
    requires Distinct(q) && LoadedIn(q, window, k)
    ensures q == a + b && Distinct(b) && |b| == k && Elements(b) <= window
  {
    a, b := q[..|q| - k], q[|q| - k..];
    assert q == a + b;
    DistinctSuffix(a, b);
  }

  lemma FifoStepLoaded(n: nat, q: seq<int>, p: int, window: set<int>, k: nat)
    requires n > 0 && Distinct(q) && |q| <= n && LoadedIn(q, window, k) && |window + {p}| <= n
    ensures p in q ==> LoadedIn(FifoStep(n, q, p), window + {p}, k)
    ensures p !in q ==> k < |window + {p}| && LoadedIn(FifoStep(n, q, p), window + {p}, k + 1)
  {
    if p in q {
    } else {
      var a, b := LoadedParts(q, window, k);
      FifoMissLoaded(n, a, b, p, window);
    }
  }

  /** Whatever came before, a window with at most n different pages costs FIFO at most
      one miss for each of them. */
  lemma {:induction false} FifoWindow(n: nat, before: seq<int>, window: seq<int>) returns (k: nat)
    requires n > 0 && |Elements(window)| <= n
    ensures k <= |Elements(window)|
    ensures Misses(FifoHits(n, before + window)) == Misses(FifoHits(n, before)) + k
    ensures LoadedIn(FifoQueue(n, before + window), Elements(window), k)
  {
    if window == [] {
      assert before + window == before;
      k := 0;
    } else {
      var init, p := window[..|window| - 1], window[|window| - 1];
      var refs := before + init;
      assert before + window == refs + [p];
      SubsetSize(Elements(init), Elements(window));
      k := FifoWindow(n, before, init);
      FifoQueueFacts(n, refs);
      FifoExtend(n, refs, p);
      FifoStepLoaded(n, FifoQueue(n, refs), p, Elements(init), k);
      k := if p in FifoQueue(n, refs) then k else k + 1;
    }
  }

  /** k' of the next phase's pages have been loaded in it. */
  lemma FifoNextPhase(n: nat, q: seq<int>, p: int, ph: Phase, k: nat) returns (k': nat)
    requires n > 0 && Distinct(q) && |q| <= n && PhaseOk(n, ph)
    requires LoadedIn(q, ph.pages, k) && k <= |ph.pages|
    ensures var next := NextPhase(n, ph, p);
            && LoadedIn(FifoStep(n, q, p), next.pages, k') && k' <= |next.pages|
            && Allowance(n, next) - |next.pages| + k'
               >= Allowance(n, ph) - |ph.pages| + k + if p in q then 0 else 1
  {
    AllowanceGrows(n, ph, p);
    if NextPhase(n, ph, p).count == ph.count {
      FifoStepLoaded(n, q, p, ph.pages, k);
      k' := if p in q then k else k + 1;
    } else {
      assert q[|q|..] == [] && {} + {p} == {p};
      FifoStepLoaded(n, q, p, {}, 0);
      k' := if p in q then 0 else 1;
    }
  }

  /** What a run of FIFO has cost, against its phases: k pages of the current one are paid. */
  ghost predicate FifoPaid(n: nat, refs: seq<int>, k: nat)
    requires n > 0
  {
    var ph := Phases(n, refs);
    && LoadedIn(FifoQueue(n, refs), ph.pages, k) && k <= |ph.pages|
    && Misses(FifoHits(n, refs)) <= Allowance(n, ph) - |ph.pages| + k
  }

  lemma FifoPaidStep(n: nat, refs: seq<int>, p: int)
    requires n > 0 && exists k: nat :: FifoPaid(n, refs, k)
    ensures exists k: nat :: FifoPaid(n, refs + [p], k)
  {
    var k: nat :| FifoPaid(n, refs, k);
    FifoQueueFacts(n, refs);
    PhasesOk(n, refs);
    FifoExtend(n, refs, p);
    assert Phases(n, refs + [p]) == NextPhase(n, Phases(n, refs), p) by {
      assert (refs + [p])[..|refs|] == refs;
    }
    var k' := FifoNextPhase(n, FifoQueue(n, refs), p, Phases(n, refs), k);
    assert FifoPaid(n, refs + [p], k');
  }

  lemma {:induction false} FifoPhases(n: nat, refs: seq<int>)
    requires n > 0
    ensures exists k: nat :: FifoPaid(n, refs, k)
  {
    if refs == [] {
      assert FifoPaid(n, refs, 0);
    } else {
      var init, p := refs[..|refs| - 1], refs[|refs| - 1];
      FifoPhases(n, init);
      assert refs == init + [p];
      FifoPaidStep(n, init, p);
    }
  }

  /** FIFO misses at most n times as often as any other use of n frames. */
  lemma FifoCompetitive(n: nat, refs: seq<int>, caches: seq<set<int>>)
    requires n > 0 && Legal(n, refs, caches)
    ensures Misses(FifoHits(n, refs)) <= n * Faults(refs, caches)
  {
    FifoPhases(n, refs);
    AllowancePaid(n, refs, caches);
  }
}
