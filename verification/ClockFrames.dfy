/**
Second chance on its two arrays, told without queues: what one reference does to frames,
bits and pointer, and what the bits mean over a run.
*/
module ClockFrames {
  import opened Collections
  import opened PageReplacement

  datatype Clock = Clock(mem: seq<int>, bits: seq<int>, pointer: nat)

  /** The frame the search starts at. */
  function Start(n: nat, pointer: nat): nat {
    if pointer < n then pointer else 0
  }

  function Wrap(n: nat, p: nat): nat {
    if p >= n then p - n else p
  }

  /** How far frame j lies ahead of frame w. */
  function Ahead(n: nat, w: nat, j: int): int {
    if j >= w then j - w else j - w + n
  }

  /** The bits of the k frames from w on were set and are clear now; the others are as before. */
  ghost predicate Cleared(bits: seq<int>, bits': seq<int>, w: nat, k: nat) {
    var n := |bits|;
    && k <= n == |bits'| && w < n
    && (forall j | 0 <= j < n && Ahead(n, w, j) < k :: bits[j] == 1 && bits'[j] == 0)
    && (forall j | 0 <= j < n && Ahead(n, w, j) >= k :: bits'[j] == bits[j])
  }

  /** A search from frame w clears the next k bits, and ends at a clear one or after a whole
      round. */
  ghost predicate Searched(bits: seq<int>, bits': seq<int>, w: nat, k: nat) {
    Cleared(bits, bits', w, k) && forall j | 0 <= j < |bits| && Ahead(|bits|, w, j) == k :: bits[j] != 1
  }

  lemma ClearOn(bits: seq<int>, bits': seq<int>, w: nat, k: nat, p: nat)
    requires Cleared(bits, bits', w, k) && p == Wrap(|bits|, w + k) && bits'[p] == 1
    ensures Cleared(bits, bits'[p := 0], w, k + 1)
  {
    assert Ahead(|bits|, w, p) == if k < |bits| then k else 0;
  }

  lemma ClearEnds(bits: seq<int>, bits': seq<int>, w: nat, k: nat, p: nat)
    requires Cleared(bits, bits', w, k) && p == Wrap(|bits|, w + k) && bits'[p] != 1
    ensures Searched(bits, bits', w, k)
  {
    forall j | 0 <= j < |bits| && Ahead(|bits|, w, j) == k
      ensures bits[j] != 1
    {
      assert j == p;
    }
  }

  /** The page is not in memory, no frame is empty, and the search looks at a bit. */
  ghost predicate Searches(c: Clock, page: int, beyond: int) {
    page !in c.mem && EMPTY !in c.mem && (c.pointer < |c.mem| || beyond == 1)
  }

  ghost predicate Shaped(c: Clock) {
    0 < |c.mem| == |c.bits| && c.pointer <= |c.mem|
  }

  /** The page is in frame j, whose bit gets set. */
  ghost predicate UsedAt(c: Clock, page: int, c': Clock, j: int) {
    && 0 <= j < |c.bits| && |c.mem| == |c.bits| && c.mem[j] == page
    && c' == c.(bits := c.bits[j := 1])
  }

  /** The page goes into the first empty frame j, whose bit gets set. */
  ghost predicate LoadedAt(c: Clock, page: int, c': Clock, j: int) {
    && 0 <= j < |c.bits| && Written(c.mem, c'.mem, page, j)
    && c'.bits == c.bits[j := 1] && c'.pointer == c.pointer
  }

  /** A search passes over k frames, and the page goes into the frame where it ends. */
  ghost predicate SearchedFor(c: Clock, page: int, c': Clock, k: nat) {
    var n := |c.mem|;
    var w := Start(n, c.pointer);
    && n == |c.bits| > 0
    && Searched(c.bits, c'.bits, w, k)
    && c'.mem == c.mem[Wrap(n, w + k) := page]
    && c'.pointer == Wrap(n, w + k) + 1
  }

  lemma SearchTakes(c: Clock, page: int, bits: seq<int>, k: nat, p: nat)
    requires 0 < |c.mem| == |c.bits| && Searched(c.bits, bits, Start(|c.mem|, c.pointer), k)
    requires p == Wrap(|c.mem|, Start(|c.mem|, c.pointer) + k)
    ensures p < |c.mem| && SearchedFor(c, page, Clock(c.mem[p := page], bits, p + 1), k)
  {}

  /** One reference. Without a bit to look at, frame 0 is taken as it is. */
  ghost predicate ClockStep(c: Clock, page: int, beyond: int, c': Clock) {
    && Shaped(c)
    && if page in c.mem then exists j :: UsedAt(c, page, c', j)
       else if EMPTY in c.mem then exists j :: LoadedAt(c, page, c', j)
       else if Searches(c, page, beyond) then exists k :: SearchedFor(c, page, c', k)
       else c' == Clock(c.mem[0 := page], c.bits, 1)
  }

  /** A run from empty frames and clear bits. */
  ghost predicate ClockTrace(trace: seq<Clock>, n: nat, refs: seq<int>, beyond: seq<int>) {
    && n > 0 && |beyond| == |refs| && |trace| == |refs| + 1
    && trace[0] == Clock(Blanks(n), seq(n, _ => 0), 0)
    && forall k | 0 <= k < |refs| :: ClockStep(trace[k], refs[k], beyond[k], trace[k + 1])
  }

  lemma ClockExtend(trace: seq<Clock>, n: nat, refs: seq<int>, beyond: seq<int>, i: nat, c: Clock)
    requires |beyond| == |refs| && i < |refs| && ClockTrace(trace, n, refs[..i], beyond[..i])
    requires ClockStep(trace[i], refs[i], beyond[i], c)
    ensures ClockTrace(trace + [c], n, refs[..i + 1], beyond[..i + 1])
  {
    var next := trace + [c];
    forall k | 0 <= k < i + 1
      ensures ClockStep(next[k], refs[..i + 1][k], beyond[..i + 1][k], next[k + 1])
    {
      if k < i {
        assert ClockStep(trace[k], refs[..i][k], beyond[..i][k], trace[k + 1]);
      }
    }
  }

  // ------------------------------------------------------------- frames over a run

  lemma StepFrames(c: Clock, page: int, beyond: int, c': Clock)
    requires ClockStep(c, page, beyond, c')
    ensures Shaped(c') && |c'.mem| == |c.mem| && OneFrame(c.mem, c'.mem, page)
  {
    if page in c.mem {
    } else if EMPTY in c.mem {
      var j :| LoadedAt(c, page, c', j);
    } else if Searches(c, page, beyond) {
      var k: nat :| SearchedFor(c, page, c', k);
      assert Written(c.mem, c'.mem, page, Wrap(|c.mem|, Start(|c.mem|, c.pointer) + k));
    } else {
      assert Written(c.mem, c'.mem, page, 0);
    }
  }

  ghost function Mems(trace: seq<Clock>): (mems: seq<seq<int>>)
    ensures |mems| == |trace| && forall k | 0 <= k < |trace| :: mems[k] == trace[k].mem
  {
    seq(|trace|, k requires 0 <= k < |trace| => trace[k].mem)
  }

  /** The frames of a run change one at a time, so a page keeps its frame while it stays. */
  lemma ClockFrameTrace(trace: seq<Clock>, n: nat, refs: seq<int>, beyond: seq<int>)
    requires ClockTrace(trace, n, refs, beyond)
    ensures FrameTrace(Mems(trace), n, refs)
  {
    forall k | 0 <= k < |refs|
      ensures OneFrame(Mems(trace)[k], Mems(trace)[k + 1], refs[k])
    {
      StepFrames(trace[k], refs[k], beyond[k], trace[k + 1]);
    }
  }

  lemma {:induction false} ClockShape(trace: seq<Clock>, n: nat, refs: seq<int>, beyond: seq<int>, k: nat)
    requires ClockTrace(trace, n, refs, beyond) && k <= |refs|
    ensures Shaped(trace[k]) && |trace[k].mem| == n && NoTwins(trace[k].mem)
  {
    ClockFrameTrace(trace, n, refs, beyond);
    TraceSingle(Mems(trace), n, refs, k);
    if k > 0 {
      StepFrames(trace[k - 1], refs[k - 1], beyond[k - 1], trace[k]);
    }
  }

  // ------------------------------------------------------------- what the bits mean

  /** The search passes over frame j: from its start to there all bits are set. */
  ghost predicate Passes(c: Clock, page: int, beyond: int, j: nat) {
    var n := |c.mem|;
    var w := Start(n, c.pointer);
    && n == |c.bits|
    && Searches(c, page, beyond)
    && forall i | 0 <= i < n && Ahead(n, w, i) <= Ahead(n, w, j) :: c.bits[i] == 1
  }

  /** The page is loaded into an empty frame, or used again, and is in frame j. */
  ghost predicate Grants(c: Clock, page: int, c': Clock, j: nat) {
    (page in c.mem || EMPTY in c.mem) && j < |c'.mem| && c'.mem[j] == page
  }

  lemma SearchBit(c: Clock, page: int, beyond: int, c': Clock, k: nat, j: nat)
    requires Shaped(c) && j < |c.mem| && Searches(c, page, beyond) && SearchedFor(c, page, c', k)
    ensures c'.bits[j] == 1 <==> c.bits[j] == 1 && !Passes(c, page, beyond, j)
  {
    var n := |c.mem|;
    var w := Start(n, c.pointer);
    if Ahead(n, w, j) >= k {
      var m := Wrap(n, w + k);
      assert Ahead(n, w, m) == k && c.bits[m] != 1;
    }
  }

  lemma StepBit(c: Clock, page: int, beyond: int, c': Clock, j: nat)
    requires ClockStep(c, page, beyond, c') && NoTwins(c.mem) && page >= 0 && j < |c.mem|
    ensures |c'.bits| == |c.mem|
    ensures c'.bits[j] == 1 <==> Grants(c, page, c', j) || (c.bits[j] == 1 && !Passes(c, page, beyond, j))
  {
    if page in c.mem {
      var i :| UsedAt(c, page, c', i);
    } else if EMPTY in c.mem {
      var i :| LoadedAt(c, page, c', i);
    } else if Searches(c, page, beyond) {
      var k: nat :| SearchedFor(c, page, c', k);
      SearchBit(c, page, beyond, c', k, j);
    }
  }

  /** At reference a the page in frame j got its chance, and up to k no search passed it. */
  ghost predicate Chance(trace: seq<Clock>, refs: seq<int>, beyond: seq<int>, j: nat, a: nat, k: nat)
    requires |trace| == |refs| + 1 && |beyond| == |refs| && k <= |refs|
  {
    && a < k
    && Grants(trace[a], refs[a], trace[a + 1], j)
    && forall b | a < b < k :: !Passes(trace[b], refs[b], beyond[b], j)
  }

  lemma ChanceExtend(trace: seq<Clock>, refs: seq<int>, beyond: seq<int>, j: nat, a: nat, k: nat)
    requires |trace| == |refs| + 1 && |beyond| == |refs| && k < |refs|
    ensures Chance(trace, refs, beyond, j, a, k + 1)
       <==> (a == k && Grants(trace[k], refs[k], trace[k + 1], j))
            || (Chance(trace, refs, beyond, j, a, k) && !Passes(trace[k], refs[k], beyond[k], j))
  {}

  /** In every run, overruns included: the bit of frame j is set exactly if a page was loaded
      into it empty, or used in it again, and no search has passed over the frame since. */
  lemma {:induction false} BitMeaning(trace: seq<Clock>, n: nat, refs: seq<int>, beyond: seq<int>, j: nat, k: nat)
    requires ClockTrace(trace, n, refs, beyond) && Pages(refs) && j < n && k <= |refs|
    ensures j < |trace[k].bits|
    ensures trace[k].bits[j] == 1 <==> exists a: nat :: Chance(trace, refs, beyond, j, a, k)
  {
    ClockShape(trace, n, refs, beyond, k);
    if k > 0 {
      var m := k - 1;
      BitMeaning(trace, n, refs, beyond, j, m);
      ClockShape(trace, n, refs, beyond, m);
      StepBit(trace[m], refs[m], beyond[m], trace[k], j);
      forall a: nat
        ensures Chance(trace, refs, beyond, j, a, k)
           <==> (a == m && Grants(trace[m], refs[m], trace[k], j))
                || (Chance(trace, refs, beyond, j, a, m) && !Passes(trace[m], refs[m], beyond[m], j))
      {
        ChanceExtend(trace, refs, beyond, j, a, m);
      }
      assert Grants(trace[m], refs[m], trace[k], j) ==> Chance(trace, refs, beyond, j, m, k);
    }
  }

  /** The page in frame 0 is evicted unseen although its bit is set. */
  ghost predicate Unseen(c: Clock, page: int, beyond: int) {
    page !in c.mem && EMPTY !in c.mem && !Searches(c, page, beyond) && c.bits != [] && c.bits[0] == 1
  }

  lemma StepKeeps(c: Clock, page: int, beyond: int, c': Clock, j: nat)
    requires ClockStep(c, page, beyond, c') && j < |c.mem| && c.mem[j] != EMPTY && c.bits[j] == 1
    requires !Passes(c, page, beyond, j) && !Unseen(c, page, beyond)
    ensures j < |c'.mem| && c'.mem[j] == c.mem[j]
  {
    if page in c.mem {
    } else if EMPTY in c.mem {
      var i :| LoadedAt(c, page, c', i);
    } else if Searches(c, page, beyond) {
      var k: nat :| SearchedFor(c, page, c', k);
      SearchBit(c, page, beyond, c', k, j);
      var n := |c.mem|;
      var w := Start(n, c.pointer);
      assert k < n ==> Ahead(n, w, Wrap(n, w + k)) == k;
    }
  }

  lemma {:induction false} ChanceKeeps(trace: seq<Clock>, n: nat, refs: seq<int>, beyond: seq<int>,
                                       j: nat, a: nat, k: nat)
    requires ClockTrace(trace, n, refs, beyond) && Pages(refs) && j < n && k <= |refs|
    requires forall b | 0 <= b < k :: !Unseen(trace[b], refs[b], beyond[b])
    requires Chance(trace, refs, beyond, j, a, k)
    ensures j < |trace[k].mem| && trace[k].mem[j] == refs[a]
  {
    ClockShape(trace, n, refs, beyond, k);
    if a < k - 1 {
      var m := k - 1;
      ChanceExtend(trace, refs, beyond, j, a, m);
      ChanceKeeps(trace, n, refs, beyond, j, a, m);
      BitMeaning(trace, n, refs, beyond, j, m);
      ClockShape(trace, n, refs, beyond, m);
      StepKeeps(trace[m], refs[m], beyond[m], trace[k], j);
    }
  }

  /** Where no page was evicted unseen: a page in memory has its bit set exactly if it was
      loaded into an empty frame, or used again, and no search has passed over it since. */
  lemma PageChance(trace: seq<Clock>, n: nat, refs: seq<int>, beyond: seq<int>, j: nat, k: nat)
    requires ClockTrace(trace, n, refs, beyond) && Pages(refs) && j < n && k <= |refs|
    requires forall b | 0 <= b < k :: !Unseen(trace[b], refs[b], beyond[b])
    ensures j < |trace[k].bits| == |trace[k].mem|
    ensures trace[k].bits[j] == 1
       <==> exists a: nat :: Chance(trace, refs, beyond, j, a, k) && refs[a] == trace[k].mem[j]
  {
    ClockShape(trace, n, refs, beyond, k);
    BitMeaning(trace, n, refs, beyond, j, k);
    if a: nat :| Chance(trace, refs, beyond, j, a, k) {
      ChanceKeeps(trace, n, refs, beyond, j, a, k);
    }
  }

  // ------------------------------------------------------------- the first eviction

  /** The different pages of refs in the order of their first references. */
  function FirstUses(refs: seq<int>): (s: seq<int>)
    ensures forall x :: x in s <==> x in refs
  {
    if refs == [] then []
    else
      var init, p := refs[..|refs| - 1], refs[|refs| - 1];
      assert refs == init + [p];
      if p in init then FirstUses(init) else FirstUses(init) + [p]
  }

  lemma FirstUsesPages(refs: seq<int>)
    requires Pages(refs)
    ensures Pages(FirstUses(refs))
  {
    forall j | 0 <= j < |FirstUses(refs)|
      ensures FirstUses(refs)[j] >= 0
    {
      assert FirstUses(refs)[j] in refs;
    }
  }

  lemma {:induction false} FirstUsesFirst(refs: seq<int>)
    requires refs != []
    ensures FirstUses(refs) != [] && FirstUses(refs)[0] == refs[0]
  {
    if |refs| > 1 {
      FirstUsesFirst(refs[..|refs| - 1]);
    }
  }

  lemma FirstUsesNext(refs: seq<int>, p: int)
    ensures FirstUses(refs + [p]) == if p in refs then FirstUses(refs) else FirstUses(refs) + [p]
  {
    assert (refs + [p])[..|refs|] == refs;
  }

  /** Frames filled with the pages of s, all with their bits set, before any eviction. */
  ghost predicate Loading(c: Clock, s: seq<int>) {
    && Filled(c.mem, s) && |c.bits| == |c.mem| && c.pointer == 0
    && forall j | 0 <= j < |s| :: c.bits[j] == 1
  }

  lemma LoadingStep(c: Clock, s: seq<int>, page: int, beyond: int, c': Clock)
    requires Loading(c, s) && Pages(s) && page >= 0 && ClockStep(c, page, beyond, c')
    requires page in s || |s| < |c.mem|
    ensures Loading(c', if page in s then s else s + [page])
  {
    FilledMembers(c.mem, s, page);
    if page in s {
      var j :| UsedAt(c, page, c', j);
    } else {
      var j :| LoadedAt(c, page, c', j);
      assert j == |s|;
      assert c.mem[|s| := page] == s + [page] + Blanks(|c.mem| - |s| - 1);
    }
  }

  lemma {:induction false} AllLoaded(trace: seq<Clock>, n: nat, refs: seq<int>, beyond: seq<int>, k: nat)
    requires ClockTrace(trace, n, refs, beyond) && Pages(refs) && k <= |refs| && |FirstUses(refs[..k])| <= n
    ensures Loading(trace[k], FirstUses(refs[..k])) && |trace[k].mem| == n
  {
    if k == 0 {
      assert [] + Blanks(n) == Blanks(n);
    } else {
      var m := k - 1;
      assert refs[..k] == refs[..m] + [refs[m]];
      FirstUsesNext(refs[..m], refs[m]);
      FirstUsesPages(refs[..m]);
      AllLoaded(trace, n, refs, beyond, m);
      LoadingStep(trace[m], FirstUses(refs[..m]), refs[m], beyond[m], trace[k]);
      ClockShape(trace, n, refs, beyond, k);
    }
  }

  ghost predicate BitsAre(bits: seq<int>, n: nat, v: int) {
    |bits| == n && forall j | 0 <= j < n :: bits[j] == v
  }

  lemma RoundStep(c: Clock, page: int, beyond: int, c': Clock)
    requires ClockStep(c, page, beyond, c') && page !in c.mem && EMPTY !in c.mem && c.pointer == 0
    requires BitsAre(c.bits, |c.mem|, 1)
    ensures c'.mem == c.mem[0 := page] && c'.pointer == 1 && BitsAre(c'.bits, |c.mem|, 0)
  {
    var n := |c.mem|;
    var k: nat :| SearchedFor(c, page, c', k);
    assert k < n ==> Ahead(n, 0, k) == k;
  }

  /** After any string over exactly n different pages, a new page takes the frame of the one
      loaded first, the search having gone all the way round and cleared every bit. */
  lemma FirstEviction(trace: seq<Clock>, n: nat, refs: seq<int>, beyond: seq<int>, k: nat)
    requires ClockTrace(trace, n, refs, beyond) && Pages(refs) && k < |refs|
    requires |FirstUses(refs[..k])| == n && refs[k] !in refs[..k]
    ensures trace[k].mem == FirstUses(refs[..k]) && BitsAre(trace[k].bits, n, 1)
    ensures trace[k].mem[0] == refs[0] && trace[k + 1].mem == trace[k].mem[0 := refs[k]]
    ensures BitsAre(trace[k + 1].bits, n, 0) && trace[k + 1].pointer == 1
  {
    var s := FirstUses(refs[..k]);
    AllLoaded(trace, n, refs, beyond, k);
    FirstUsesPages(refs[..k]);
    FirstUsesFirst(refs[..k]);
    FilledMembers(trace[k].mem, s, refs[k]);
    assert s + Blanks(0) == s;
    RoundStep(trace[k], refs[k], beyond[k], trace[k + 1]);
  }
}
