/**
LRU by a matrix of bits: a use of page p fills row p with ones, then column p with
zeros; the row with most zeros among the pages in memory is the one to evict.
*/
module MatrixLRU {
  import opened Collections
  import opened PagePolicies
  import opened PageReplacement

  lemma LastUseExtend(refs: seq<int>, p: int, x: int)
    ensures LastUse(refs + [p], x) == if x == p then |refs| else LastUse(refs, x)
  {
    assert (refs + [p])[..|refs|] == refs;
  }

  /** The zeros of row p in the first m columns, in terms of the reference string. */
  ghost function Zeros(m: nat, refs: seq<int>, p: int): nat {
    if m == 0 then 0 else Zeros(m - 1, refs, p) + if LastUse(refs, m - 1) < LastUse(refs, p) then 0 else 1
  }

  /** The longer ago a page was used, the more zeros its row has. */
  lemma {:induction false} ZerosByAge(m: nat, refs: seq<int>, p: int, q: int)
    requires LastUse(refs, p) < LastUse(refs, q)
    ensures Zeros(m, refs, p) >= Zeros(m, refs, q)
    ensures 0 <= p < m ==> Zeros(m, refs, p) > Zeros(m, refs, q)
  {
    if m > 0 {
      ZerosByAge(m - 1, refs, p, q);
    }
  }

  /** Row a has a one in column b exactly when a was used more recently than b. */
  ghost predicate ByRecency(matrix: array2<int>, refs: seq<int>)
    reads matrix
  {
    && matrix.Length0 == matrix.Length1
    && forall a, b | 0 <= a < matrix.Length0 && 0 <= b < matrix.Length1 ::
         matrix[a, b] == if LastUse(refs, b) < LastUse(refs, a) then 1 else 0
  }

  /** A use of a page: its row becomes one, then its column zero. */
  method Touch(matrix: array2<int>, page: nat, ghost refs: seq<int>)
    requires ByRecency(matrix, refs) && page < matrix.Length0
    modifies matrix
    ensures ByRecency(matrix, refs + [page])
  {
    for p := 0 to matrix.Length1
      invariant forall a, b | 0 <= a < matrix.Length0 && 0 <= b < matrix.Length1 ::
                  matrix[a, b] == if a == page && b < p then 1 else old(matrix[a, b])
    {
      matrix[page, p] := 1;
    }
    for p := 0 to matrix.Length0
      invariant forall a, b | 0 <= a < matrix.Length0 && 0 <= b < matrix.Length1 ::
                  matrix[a, b] ==
                  if b == page && a < p then 0 else if a == page then 1 else old(matrix[a, b])
    {
      matrix[p, page] := 0;
    }
    forall x {
      LastUseExtend(refs, page, x);
    }
  }

  method CountZeros(matrix: array2<int>, row: nat, ghost refs: seq<int>) returns (sum: nat)
    requires ByRecency(matrix, refs) && row < matrix.Length0
    ensures sum == Zeros(matrix.Length1, refs, row)
  {
    sum := 0;
    for p := 0 to matrix.Length1
      invariant sum == Zeros(p, refs, row)
    {
      if matrix[row, p] == 0 {
        sum := sum + 1;
      }
    }
  }

  /** The first frame whose page has the most zeros. */
  method MostZeros(memList: array<int>, matrix: array2<int>, ghost refs: seq<int>) returns (max: nat)
    requires memList.Length > 0 && ByRecency(matrix, refs)
    requires forall k | 0 <= k < memList.Length :: 0 <= memList[k] < matrix.Length0
    ensures max < memList.Length
    ensures forall k | 0 <= k < memList.Length ::
              Zeros(matrix.Length1, refs, memList[k]) <= Zeros(matrix.Length1, refs, memList[max])
  {
    max := 0;
    var sum := new int[memList.Length](_ => 0);
    for k := 0 to memList.Length
      invariant max < memList.Length && (max < k || max == k == 0)
      invariant forall i | 0 <= i < k :: sum[i] == Zeros(matrix.Length1, refs, memList[i])
      invariant forall i | 0 <= i < k :: sum[i] <= sum[max]
    {
      var zeros := CountZeros(matrix, memList[k], refs);
      sum[k] := zeros;
      if sum[k] > sum[max] {
        max := k;
      }
    }
  }

  lemma StackByLastUse(n: nat, refs: seq<int>)
    requires n > 0
    ensures ByLastUse(refs, LruStack(n, refs))
  {
    LruIsMostRecent(n, refs);
    RecencyIsByLastUse(refs);
  }

  ghost predicate SamePages(frames: seq<int>, s: seq<int>) {
    |frames| == |s| && Distinct(frames) && Distinct(s) && forall x :: x in frames <==> x in s
  }

  /** Most zeros among the pages in memory means least recently used. */
  lemma MostZerosIsOldest(n: nat, refs: seq<int>, page: int, frames: seq<int>, m: nat, max: nat)
    requires n > 0 && SamePages(frames, LruStack(n, refs)) && page !in frames
    requires max < |frames| && forall k | 0 <= k < |frames| :: 0 <= frames[k] < m
    requires forall k | 0 <= k < |frames| ::
               Zeros(m, refs + [page], frames[k]) <= Zeros(m, refs + [page], frames[max])
    ensures frames[max] == LruStack(n, refs)[0]
  {
    var s := LruStack(n, refs);
    StackByLastUse(n, refs);
    assert frames[max] in s && s[0] in frames;
    var i :| 0 <= i < |s| && s[i] == frames[max];
    var k :| 0 <= k < |frames| && frames[k] == s[0];
    if i > 0 {
      LastUseExtend(refs, page, s[0]);
      LastUseExtend(refs, page, s[i]);
      ZerosByAge(m, refs + [page], s[0], s[i]);
      assert false;
    }
  }

  lemma ReplaceOne(frames: seq<int>, k: nat, page: int)
    requires Distinct(frames) && k < |frames| && page !in frames
    ensures Distinct(frames[k := page])
    ensures forall x :: x in frames[k := page] <==> (x in frames && x != frames[k]) || x == page
  {
    var a, b, v := frames[..k], frames[k + 1..], frames[k];
    assert frames == a + ([v] + b) && frames[k := page] == a + ([page] + b);
    DistinctConcat(a, [v] + b);
    DistinctConcat([v], b);
    DistinctConcat([page], b);
    DistinctConcat(a, [page] + b);
    assert v in [v] && v in [v] + b;
    assert forall x :: x in frames <==> x in a || x == v || x in b;
  }

  lemma ReplacePages(frames: seq<int>, s: seq<int>, max: nat, page: int)
    requires SamePages(frames, s) && max < |frames| && frames[max] == s[0] && page !in s
    ensures SamePages(frames[max := page], s[1..] + [page])
  {
    ReplaceOne(frames, max, page);
    assert s == [s[0]] + s[1..];
    DistinctConcat([s[0]], s[1..]);
    assert s[0] in [s[0]];
    assert forall x :: x in s <==> x == s[0] || x in s[1..];
  }

  /** Frame m holds a least recently used page. */
  ghost predicate Oldest(refs: seq<int>, mem: seq<int>, m: int) {
    0 <= m < |mem| && forall k | 0 <= k < |mem| :: LastUse(refs, mem[m]) <= LastUse(refs, mem[k])
  }

  /** A page that is not in full memory goes into the frame of a least recently used one. */
  ghost predicate OldestGoes(refs: seq<int>, mem: seq<int>, mem': seq<int>, page: int) {
    page !in mem && EMPTY !in mem ==> exists m :: Oldest(refs, mem, m) && mem' == mem[m := page]
  }

  lemma FrontIsOldest(refs: seq<int>, s: seq<int>, frames: seq<int>, m: nat)
    requires ByLastUse(refs, s) && SamePages(frames, s) && m < |frames| && frames[m] == s[0]
    ensures Oldest(refs, frames, m)
  {
    forall k | 0 <= k < |frames|
      ensures LastUse(refs, frames[m]) <= LastUse(refs, frames[k])
    {
      assert frames[k] in frames;
      FirstIsOldest(refs, s, frames[k]);
    }
  }

  lemma FirstIsOldest(refs: seq<int>, s: seq<int>, x: int)
    requires ByLastUse(refs, s) && x in s
    ensures LastUse(refs, s[0]) <= LastUse(refs, x)
  {
    var i :| 0 <= i < |s| && s[i] == x;
    assert i > 0 ==> LastUse(refs, s[0]) < LastUse(refs, s[i]);
  }

  /** One reference: the matrix version and the stack version hit together and go on
      holding the same pages. */
  method VisitMatrixLRU(memList: array<int>, matrix: array2<int>, page: nat, ghost n: nat, ghost refs: seq<int>,
                        ghost frames: seq<int>)
    returns (hit: bool, ghost frames': seq<int>)
    requires n == memList.Length > 0 && page < matrix.Length0
    requires ByRecency(matrix, refs)
    requires Filled(memList[..], frames) && SamePages(frames, LruStack(n, refs))
    requires forall k | 0 <= k < |frames| :: 0 <= frames[k] < matrix.Length0
    modifies memList, matrix
    ensures ByRecency(matrix, refs + [page])
    ensures hit == (page in LruStack(n, refs))
    ensures Filled(memList[..], frames') && SamePages(frames', LruStep(n, LruStack(n, refs), page))
    ensures forall k | 0 <= k < |frames'| :: 0 <= frames'[k] < matrix.Length0
    ensures hit == (page in old(memList[..])) && OneFrame(old(memList[..]), memList[..], page)
    ensures OldestGoes(refs, old(memList[..]), memList[..], page)
  {
    ghost var s := LruStack(n, refs);
    ghost var mem := memList[..];
    FilledMembers(mem, frames, page);
    Touch(matrix, page, refs);
    var j := Probe(memList, page);
    ProbeFilled(memList[..], frames, page, j);
    if j < memList.Length && memList[j] == page {
      hit := true;
      frames' := frames;
      UseMoves(s, page);
      WithoutElements(s, page);
    } else if j < memList.Length {
      hit := false;
      memList[j] := page;
      assert Written(mem, memList[..], page, j);
      frames' := frames + [page];
    } else {
      hit := false;
      ghost var m: nat;
      frames', m := ReplaceOldest(memList, matrix, page, n, refs, frames);
      assert Written(mem, memList[..], page, m);
    }
  }

  /** The page goes into the frame whose row has most zeros. */
  method ReplaceOldest(memList: array<int>, matrix: array2<int>, page: nat, ghost n: nat, ghost refs: seq<int>,
                       ghost frames: seq<int>)
    returns (ghost frames': seq<int>, ghost m: nat)
    requires n == memList.Length > 0 && ByRecency(matrix, refs + [page])
    requires Filled(memList[..], frames) && SamePages(frames, LruStack(n, refs))
    requires |frames| == n && page !in frames && page !in LruStack(n, refs)
    requires forall k | 0 <= k < |frames| :: 0 <= frames[k] < matrix.Length0
    modifies memList
    ensures Filled(memList[..], frames') && SamePages(frames', LruStack(n, refs)[1..] + [page])
    ensures Oldest(refs, old(memList[..]), m) && memList[..] == old(memList[..])[m := page]
    ensures m < |frames| && frames' == frames[m := page]
  {
    ghost var mem := memList[..];
    assert mem == frames by {
      assert frames + Blanks(0) == frames;
    }
    var max := MostZeros(memList, matrix, refs + [page]);
    MostZerosIsOldest(n, refs, page, frames, matrix.Length0, max);
    ReplacePages(frames, LruStack(n, refs), max, page);
    StackByLastUse(n, refs);
    FrontIsOldest(refs, LruStack(n, refs), frames, max);
    memList[max] := page;
    m, frames' := max, frames[max := page];
    assert memList[..] == mem[max := page] && frames' + Blanks(0) == frames';
  }

  /** On every reference string whose pages index the matrix, matrix LRU hits exactly
      where stack LRU does and ends with the same pages in memory. */
  method ReplaceAlgMatrixLRU(memList: array<int>, pageToVisit: array<int>)
    returns (hits: seq<bool>, ghost frames: seq<int>, ghost trace: seq<seq<int>>)
    requires memList != pageToVisit && memList.Length > 0
    requires forall j | 0 <= j < pageToVisit.Length :: 0 <= pageToVisit[j] < pageToVisit.Length
    requires forall j | 0 <= j < memList.Length :: memList[j] == EMPTY
    modifies memList
    ensures hits == LruHits(memList.Length, old(pageToVisit[..]))
    ensures Filled(memList[..], frames)
    ensures SamePages(frames, LruStack(memList.Length, old(pageToVisit[..])))
    ensures FrameTrace(trace, memList.Length, old(pageToVisit[..])) && trace[pageToVisit.Length] == memList[..]
    ensures forall k | 0 <= k < pageToVisit.Length ::
              OldestGoes(old(pageToVisit[..k]), trace[k], trace[k + 1], old(pageToVisit[k]))
  {
    var n, m := memList.Length, pageToVisit.Length;
    var matrix := new int[m, m]((i, j) => 0);
    hits, frames := [], [];
    ghost var refs := pageToVisit[..];
    trace := [memList[..]];
    assert memList[..] == Blanks(n);
    for i := 0 to m
      invariant FrameTrace(trace, n, refs[..i]) && trace[i] == memList[..]
      invariant forall k | 0 <= k < i :: OldestGoes(refs[..k], trace[k], trace[k + 1], refs[k])
      invariant pageToVisit[..] == refs
      invariant ByRecency(matrix, refs[..i])
      invariant hits == LruHits(n, refs[..i])
      invariant Filled(memList[..], frames) && SamePages(frames, LruStack(n, refs[..i]))
      invariant forall k | 0 <= k < |frames| :: 0 <= frames[k] < m
    {
      assert refs[..i + 1] == refs[..i] + [refs[i]];
      var hit: bool;
      hit, frames := VisitMatrixLRU(memList, matrix, pageToVisit[i], n, refs[..i], frames);
      hits := hits + [hit];
      TraceExtend(trace, n, refs[..i], refs[i], memList[..]);
      trace := trace + [memList[..]];
    }
    assert refs[..m] == refs;
  }
}
