/**
The replacement algorithms in place, on the frame list memList (-1 marks an empty
frame) and a string of page numbers, proved against the policies.
*/
module PageReplacement {
  import opened Collections
  import opened PagePolicies

  const EMPTY: int := -1

  function Blanks(k: nat): (s: seq<int>)
    ensures |s| == k && forall i | 0 <= i < k :: s[i] == EMPTY
  {
    seq(k, _ => EMPTY)
  }

  ghost predicate Pages(refs: seq<int>) {
    forall i | 0 <= i < |refs| :: refs[i] >= 0
  }

  /** The frames hold the pages of s in order, then nothing. */
  ghost predicate Filled(mem: seq<int>, s: seq<int>) {
    |s| <= |mem| && mem == s + Blanks(|mem| - |s|)
  }

  // ------------------------------------------------------------- frames over a run

  /** A page went into frame m: the first empty frame if there is one. */
  ghost predicate Written(mem: seq<int>, mem': seq<int>, page: int, m: int) {
    && 0 <= m < |mem|
    && mem' == mem[m := page]
    && (EMPTY in mem ==> mem[m] == EMPTY && forall i | 0 <= i < m :: mem[i] != EMPTY)
  }

  /** A reference to a page in memory writes no frame, any other just one. */
  ghost predicate OneFrame(mem: seq<int>, mem': seq<int>, page: int) {
    if page in mem then mem' == mem else exists m :: Written(mem, mem', page, m)
  }

  /** No page stands in two frames. */
  ghost predicate NoTwins(mem: seq<int>) {
    forall i, j | 0 <= i < j < |mem| :: mem[i] == mem[j] ==> mem[i] == EMPTY
  }

  /** The frame lists of a run, from empty frames on. */
  ghost predicate FrameTrace(trace: seq<seq<int>>, n: nat, refs: seq<int>) {
    && |trace| == |refs| + 1
    && trace[0] == Blanks(n)
    && forall k | 0 <= k < |refs| :: OneFrame(trace[k], trace[k + 1], refs[k])
  }

  lemma TraceExtend(trace: seq<seq<int>>, n: nat, refs: seq<int>, page: int, mem: seq<int>)
    requires FrameTrace(trace, n, refs) && OneFrame(trace[|refs|], mem, page)
    ensures FrameTrace(trace + [mem], n, refs + [page])
  {
    forall k | 0 <= k < |refs| + 1
      ensures OneFrame((trace + [mem])[k], (trace + [mem])[k + 1], (refs + [page])[k])
    {
      if k < |refs| {
        assert OneFrame(trace[k], trace[k + 1], refs[k]);
      }
    }
  }

  lemma {:induction false} TraceSingle(trace: seq<seq<int>>, n: nat, refs: seq<int>, k: nat)
    requires FrameTrace(trace, n, refs) && k <= |refs|
    ensures |trace[k]| == n && NoTwins(trace[k])
  {
    if k > 0 {
      TraceSingle(trace, n, refs, k - 1);
      assert OneFrame(trace[k - 1], trace[k], refs[k - 1]);
    }
  }

  /** A page keeps its frame for as long as it stays in memory. */
  lemma {:induction false} KeepsFrame(trace: seq<seq<int>>, n: nat, refs: seq<int>, j: nat, a: nat, b: nat)
    requires FrameTrace(trace, n, refs) && a <= b <= |refs| && j < |trace[a]| && trace[a][j] != EMPTY
    requires forall k | a <= k <= b :: trace[a][j] in trace[k]
    ensures j < |trace[b]| && trace[b][j] == trace[a][j]
    decreases b
  {
    if a < b {
      KeepsFrame(trace, n, refs, j, a, b - 1);
      TraceSingle(trace, n, refs, b - 1);
      assert OneFrame(trace[b - 1], trace[b], refs[b - 1]);
    }
  }

  /** What frames hold that are filled with pages. */
  lemma FilledMembers(mem: seq<int>, s: seq<int>, page: int)
    requires Filled(mem, s) && Pages(s) && page >= 0
    ensures page in mem <==> page in s
    ensures EMPTY in mem <==> |s| < |mem|
    ensures |s| < |mem| ==> mem[|s|] == EMPTY && forall i | 0 <= i < |s| :: mem[i] != EMPTY
  {
    assert |s| < |mem| ==> mem[|s|] == Blanks(|mem| - |s|)[0];
  }

  /** The scan shared by all four algorithms: it stops at the page or at an empty frame. */
  method Probe(memList: array<int>, page: int) returns (j: nat)
    ensures j <= memList.Length
    ensures j < memList.Length ==> memList[j] == page || memList[j] == EMPTY
    ensures forall i | 0 <= i < j :: memList[i] != page && memList[i] != EMPTY
  {
    j := 0;
    while j < memList.Length && memList[j] != page && memList[j] != EMPTY
      invariant j <= memList.Length
      invariant forall i | 0 <= i < j :: memList[i] != page && memList[i] != EMPTY
    {
      j := j + 1;
    }
  }

  /** What the scan finds in frames that hold s. */
  lemma ProbeFilled(mem: seq<int>, s: seq<int>, page: int, j: nat)
    requires Filled(mem, s) && page >= 0 && Pages(s)
    requires j <= |mem| && (j < |mem| ==> mem[j] == page || mem[j] == EMPTY)
    requires forall i | 0 <= i < j :: mem[i] != page && mem[i] != EMPTY
    ensures page in s ==> j < |s| && mem[j] == page
    ensures page !in s ==> j == |s| && (j < |mem| ==> mem[j] == EMPTY)
  {
    assert forall i | 0 <= i < |s| :: mem[i] == s[i];
    assert |s| < |mem| ==> mem[|s|] == EMPTY;
  }

  lemma SomePages(s: seq<int>, refs: seq<int>)
    requires Pages(refs) && forall x | x in s :: x in refs
    ensures Pages(s)
  {
    forall i | 0 <= i < |s|
      ensures s[i] >= 0
    {
      assert s[i] in s;
    }
  }

  lemma WithoutAt(s: seq<int>, j: nat)
    requires Distinct(s) && j < |s|
    ensures Without(s, s[j]) == s[..j] + s[j + 1..]
  {
    var p, a, b := s[j], s[..j], s[j + 1..];
    assert s == a + [p] + b;
    DistinctConcat(a + [p], b);
    assert p in a + [p];
    WithoutConcat(a + [p], b, p);
    WithoutAbsent(b, p);
    WithoutAbsent(a, p);
    assert (a + [p])[..|a|] == a;
  }

  // ---------------------------------------------------------------- stack LRU

  /** Move the page in frame j behind all others. */
  method MoveToEnd(memList: array<int>, ghost s: seq<int>, j: nat, count: nat)
    requires Filled(memList[..], s) && j < |s| == count
    modifies memList
    ensures Filled(memList[..], s[..j] + s[j + 1..] + [s[j]])
  {
    var temp := memList[j];
    for k := j to count - 1
      invariant memList[..] == s[..j] + s[j + 1..k + 1] + s[k..] + Blanks(memList.Length - |s|)
    {
      memList[k] := memList[k + 1];
    }
    memList[count - 1] := temp;
  }

  /** Drop the first page and append the new one; the cell after the last is not read. */
  method ShiftIn(memList: array<int>, page: int)
    requires memList.Length > 0
    modifies memList
    ensures memList[..] == old(memList[..])[1..] + [page]
  {
    var n := memList.Length;
    for k := 0 to n - 1
      invariant forall i | 0 <= i < k :: memList[i] == old(memList[i + 1])
      invariant forall i | k <= i < n :: memList[i] == old(memList[i])
    {
      memList[k] := memList[k + 1];
    }
    memList[n - 1] := page;
  }

  /** One reference under stack LRU. */
  method VisitStackLRU(memList: array<int>, page: int, count: nat, ghost s: seq<int>)
    returns (hit: bool, count': nat)
    requires memList.Length > 0 && page >= 0 && Pages(s) && Distinct(s)
    requires Filled(memList[..], s) && count == |s|
    modifies memList
    ensures hit == (page in s)
    ensures Filled(memList[..], LruStep(memList.Length, s, page)) && count' == |LruStep(memList.Length, s, page)|
  {
    count' := count;
    var j := Probe(memList, page);
    ProbeFilled(memList[..], s, page, j);
    if j < memList.Length && memList[j] == page {
      hit := true;
      WithoutAt(s, j);
      MoveToEnd(memList, s, j, count);
    } else if j < memList.Length {
      hit := false;
      memList[j] := page;
      count' := count + 1;
    } else {
      hit := false;
      assert s + Blanks(0) == s;
      ShiftIn(memList, page);
      assert s[1..] + [page] + Blanks(0) == s[1..] + [page];
    }
  }

  method ReplaceAlgStackLRU(memList: array<int>, pageToVisit: array<int>) returns (hits: seq<bool>, count: nat)
    requires memList != pageToVisit && memList.Length > 0 && Pages(pageToVisit[..])
    requires forall j | 0 <= j < memList.Length :: memList[j] == EMPTY
    modifies memList
    ensures hits == LruHits(memList.Length, old(pageToVisit[..]))
    ensures Filled(memList[..], LruStack(memList.Length, old(pageToVisit[..])))
    ensures count == |LruStack(memList.Length, old(pageToVisit[..]))|
  {
    var n := memList.Length;
    hits, count := [], 0;
    ghost var refs := pageToVisit[..];
    for i := 0 to pageToVisit.Length
      invariant hits == LruHits(n, refs[..i])
      invariant Filled(memList[..], LruStack(n, refs[..i])) && count == |LruStack(n, refs[..i])|
      invariant pageToVisit[..] == refs
    {
      LruStackFacts(n, refs[..i]);
      SomePages(LruStack(n, refs[..i]), refs);
      assert refs[..i + 1] == refs[..i] + [refs[i]];
      var hit: bool;
      hit, count := VisitStackLRU(memList, pageToVisit[i], count, LruStack(n, refs[..i]));
      hits := hits + [hit];
    }
    assert refs[..pageToVisit.Length] == refs;
  }

  // --------------------------------------------------------------------- FIFO

  /** Where FIFO keeps its queue: from the first frame while there are empty ones, then
      from the pointer round; the pointer may stand behind the last frame. */
  ghost predicate FifoLayout(mem: seq<int>, pointer: nat, q: seq<int>) {
    && |q| <= |mem|
    && (|q| < |mem| ==> pointer == 0 && Filled(mem, q))
    && (|q| == |mem| ==> pointer <= |mem| && q == mem[pointer..] + mem[..pointer])
  }

  lemma RotatedMembers(mem: seq<int>, pointer: nat, q: seq<int>)
    requires pointer <= |mem| && q == mem[pointer..] + mem[..pointer] && Pages(q)
    ensures Pages(mem) && forall x :: x in q <==> x in mem
  {
    assert mem == mem[..pointer] + mem[pointer..];
    forall i | 0 <= i < |mem|
      ensures mem[i] >= 0
    {
      assert mem[i] == if i < pointer then q[|mem| - pointer + i] else q[i - pointer];
    }
  }

  lemma FifoMembers(mem: seq<int>, pointer: nat, q: seq<int>, page: int)
    requires FifoLayout(mem, pointer, q) && Pages(q) && page >= 0
    ensures page in mem <==> page in q
    ensures EMPTY in mem <==> |q| < |mem|
    ensures |q| < |mem| ==> mem[|q|] == EMPTY && forall i | 0 <= i < |q| :: mem[i] != EMPTY
  {
    if |q| < |mem| {
      FilledMembers(mem, q, page);
    } else {
      RotatedMembers(mem, pointer, q);
    }
  }

  lemma ProbeFifo(mem: seq<int>, pointer: nat, q: seq<int>, page: int, j: nat)
    requires FifoLayout(mem, pointer, q) && page >= 0 && Pages(q)
    requires j <= |mem| && (j < |mem| ==> mem[j] == page || mem[j] == EMPTY)
    requires forall i | 0 <= i < j :: mem[i] != page && mem[i] != EMPTY
    ensures page in q <==> j < |mem| && mem[j] == page
    ensures page !in q ==> j == |q|
  {
    if |q| < |mem| {
      ProbeFilled(mem, q, page, j);
    } else {
      RotatedMembers(mem, pointer, q);
    }
  }

  /** One reference under FIFO. */
  method VisitFIFO(memList: array<int>, page: int, pointer: nat, ghost q: seq<int>)
    returns (hit: bool, pointer': nat)
    requires memList.Length > 0 && page >= 0 && Pages(q)
    requires FifoLayout(memList[..], pointer, q)
    modifies memList
    ensures hit == (page in q)
    ensures FifoLayout(memList[..], pointer', FifoStep(memList.Length, q, page))
    ensures hit == (page in old(memList[..])) && OneFrame(old(memList[..]), memList[..], page)
    ensures hit || EMPTY in old(memList[..]) ==> pointer' == pointer
    ensures !hit && EMPTY !in old(memList[..]) ==>
              var m := if pointer > memList.Length - 1 then 0 else pointer;
              pointer' == m + 1 && memList[..] == old(memList[..])[m := page]
  {
    ghost var n := memList.Length;
    ghost var mem := memList[..];
    FifoMembers(mem, pointer, q, page);
    pointer' := pointer;
    var j := Probe(memList, page);
    ProbeFifo(memList[..], pointer, q, page, j);
    if j < memList.Length && memList[j] == page {
      hit := true;
    } else if j < memList.Length {
      hit := false;
      memList[j] := page;
      assert Written(mem, memList[..], page, j);
      assert memList[..] == q + [page] + Blanks(n - |q| - 1);
      assert |q| + 1 == n ==> memList[0..] + memList[..0] == memList[..] == q + [page];
    } else {
      hit := false;
      pointer' := ReplaceAtPointer(memList, page, pointer, q);
      assert Written(mem, memList[..], page, pointer' - 1);
    }
  }

  /** The page goes into the frame at the pointer, wrapped, which moves on by one. */
  method ReplaceAtPointer(memList: array<int>, page: int, pointer: nat, ghost q: seq<int>) returns (pointer': nat)
    requires memList.Length > 0 && |q| == memList.Length && FifoLayout(memList[..], pointer, q)
    modifies memList
    ensures FifoLayout(memList[..], pointer', q[1..] + [page])
    ensures var m := if pointer > memList.Length - 1 then 0 else pointer;
            pointer' == m + 1 && memList[..] == old(memList[..])[m := page]
  {
    pointer' := pointer;
    if pointer' > memList.Length - 1 {
      pointer' := 0;
    }
    assert q == memList[pointer'..] + memList[..pointer'];
    memList[pointer'] := page;
    pointer' := pointer' + 1;
    assert q[1..] + [page] == memList[pointer'..] + memList[..pointer'];
  }

  method ReplaceAlgFIFO(memList: array<int>, pageToVisit: array<int>)
    returns (hits: seq<bool>, pointer: nat, ghost trace: seq<seq<int>>)
    requires memList != pageToVisit && memList.Length > 0 && Pages(pageToVisit[..])
    requires forall j | 0 <= j < memList.Length :: memList[j] == EMPTY
    modifies memList
    ensures hits == FifoHits(memList.Length, old(pageToVisit[..]))
    ensures FifoLayout(memList[..], pointer, FifoQueue(memList.Length, old(pageToVisit[..])))
    ensures FrameTrace(trace, memList.Length, old(pageToVisit[..])) && trace[pageToVisit.Length] == memList[..]
  {
    var n := memList.Length;
    hits, pointer := [], 0;
    ghost var refs := pageToVisit[..];
    trace := [memList[..]];
    assert memList[..] == Blanks(n);
    for i := 0 to pageToVisit.Length
      invariant FrameTrace(trace, n, refs[..i]) && trace[i] == memList[..]
      invariant hits == FifoHits(n, refs[..i])
      invariant FifoLayout(memList[..], pointer, FifoQueue(n, refs[..i]))
      invariant pageToVisit[..] == refs
    {
      FifoQueueFacts(n, refs[..i]);
      SomePages(FifoQueue(n, refs[..i]), refs);
      FifoExtend(n, refs[..i], refs[i]);
      assert refs[..i + 1] == refs[..i] + [refs[i]];
      var hit: bool;
      hit, pointer := VisitFIFO(memList, pageToVisit[i], pointer, FifoQueue(n, refs[..i]));
      hits := hits + [hit];
      TraceExtend(trace, n, refs[..i], refs[i], memList[..]);
      trace := trace + [memList[..]];
    }
    assert refs[..pageToVisit.Length] == refs;
  }
}
