/** Shortest seek time first: serve the nearer of the two neighbouring requests. */
module ShortestSeek {
  import opened DiskPaths

  /** The arm has served a[l+1..r] of the sorted requests a; k is where it started. */
  datatype Seek = Seek(a: seq<int>, head: int, k: int, l: int, r: int, cur: int, atLow: bool)

  ghost predicate Placed(s: Seek) {
    && Sorted(s.a)
    && 0 <= s.l + 1 <= s.k <= s.r <= |s.a|
    && (forall i | 0 <= i < s.k :: s.a[i] < s.head)
    && (forall i | s.k <= i < |s.a| :: s.a[i] >= s.head)
    && s.cur == if s.atLow then Lo(s) else Hi(s)
  }

  /** The ends of the stretch the arm has covered. */
  ghost function Lo(s: Seek): int {
    if 0 <= s.l + 1 < s.k <= |s.a| then s.a[s.l + 1] else s.head
  }

  ghost function Hi(s: Seek): int {
    if 0 <= s.k < s.r <= |s.a| then s.a[s.r - 1] else s.head
  }

  /** The distance so far, against the stretch covered and the gap before the next request
      on the far side. */
  ghost predicate Bounded(s: Seek, distance: int)
    requires Placed(s)
  {
    var w := Hi(s) - Lo(s);
    if s.atLow then
      distance <= if s.r < |s.a| then 2 * w + (s.a[s.r] - Hi(s)) else 3 * w
    else
      distance <= if s.l >= 0 then 2 * w + (Lo(s) - s.a[s.l]) else 3 * w
  }

  function Left(s: Seek): Seek
    requires 0 <= s.l < |s.a|
  {
    s.(l := s.l - 1, cur := s.a[s.l], atLow := true)
  }

  function Right(s: Seek): Seek
    requires 0 <= s.r < |s.a|
  {
    s.(r := s.r + 1, cur := s.a[s.r], atLow := false)
  }

  /** From cylinder x, to is nearer than other, or as near and not above it. */
  predicate Preferred(x: int, to: int, other: int) {
    Abs(to - x) < Abs(other - x) || (Abs(to - x) == Abs(other - x) && to <= other)
  }

  /** Step i of the path went to a stop preferred to any made or due later. */
  ghost predicate NearestStep(path: seq<int>, i: int, s: Seek)
    requires 0 <= i < |path| - 1
  {
    && (forall j | i < j < |path| :: Preferred(path[i], path[i + 1], path[j]))
    && (forall j | 0 <= j < |s.a| && (j <= s.l || j >= s.r) :: Preferred(path[i], path[i + 1], s.a[j]))
  }

  ghost predicate Greedy(path: seq<int>, s: Seek) {
    forall i | 0 <= i < |path| - 1 :: NearestStep(path, i, s)
  }

  lemma LeftGreedy(path: seq<int>, s: Seek)
    requires Placed(s) && s.l >= 0 && path != [] && path[|path| - 1] == s.cur && Greedy(path, s)
    requires s.r < |s.a| ==> s.cur - s.a[s.l] <= s.a[s.r] - s.cur
    ensures Greedy(path + [s.a[s.l]], Left(s))
  {
    forall i | 0 <= i < |path| - 1
      ensures NearestStep(path + [s.a[s.l]], i, Left(s))
    {
      assert NearestStep(path, i, s);
    }
  }

  lemma RightGreedy(path: seq<int>, s: Seek)
    requires Placed(s) && s.r < |s.a| && path != [] && path[|path| - 1] == s.cur && Greedy(path, s)
    requires s.l >= 0 ==> s.a[s.r] - s.cur < s.cur - s.a[s.l]
    ensures Greedy(path + [s.a[s.r]], Right(s))
  {
    forall i | 0 <= i < |path| - 1
      ensures NearestStep(path + [s.a[s.r]], i, Right(s))
    {
      assert NearestStep(path, i, s);
    }
  }

  /** The stops so far are the head and the requests between l and r. */
  ghost predicate Served(path: seq<int>, s: Seek) {
    && 0 <= s.l + 1 <= s.r <= |s.a|
    && multiset(path) == multiset{s.head} + multiset(s.a[s.l + 1..s.r])
  }

  lemma LeftServed(path: seq<int>, s: Seek)
    requires Served(path, s) && s.l >= 0
    ensures Served(path + [s.a[s.l]], Left(s))
  {
    assert s.a[s.l..s.r] == [s.a[s.l]] + s.a[s.l + 1..s.r];
  }

  lemma RightServed(path: seq<int>, s: Seek)
    requires Served(path, s) && s.r < |s.a|
    ensures Served(path + [s.a[s.r]], Right(s))
  {
    assert s.a[s.l + 1..s.r + 1] == s.a[s.l + 1..s.r] + [s.a[s.r]];
  }

  /** What holds between two moves of the arm. */
  ghost predicate Moving(s: Seek, distance: int, path: seq<int>) {
    && Placed(s) && Bounded(s, distance)
    && path != [] && path[0] == s.head && path[|path| - 1] == s.cur
    && distance == Length(path)
  }

  ghost predicate Going(s: Seek, distance: int, path: seq<int>) {
    Moving(s, distance, path) && Served(path, s) && Greedy(path, s)
  }

  lemma GoLeft(s: Seek, distance: int, path: seq<int>)
    requires Going(s, distance, path) && s.l >= 0
    requires s.r < |s.a| ==> s.cur - s.a[s.l] <= s.a[s.r] - s.cur
    ensures Going(Left(s), distance + (s.cur - s.a[s.l]), path + [s.a[s.l]])
  {
    LeftServed(path, s);
    LeftGreedy(path, s);
  }

  lemma GoRight(s: Seek, distance: int, path: seq<int>)
    requires Going(s, distance, path) && s.r < |s.a|
    requires s.l >= 0 ==> s.a[s.r] - s.cur < s.cur - s.a[s.l]
    ensures Going(Right(s), distance + (s.a[s.r] - s.cur), path + [s.a[s.r]])
  {
    RightServed(path, s);
    RightGreedy(path, s);
  }

  /** The first request at or beyond the head. */
  method FirstBeyond(list: array<int>, head: int) returns (k: int)
    requires Sorted(list[..])
    ensures 0 <= k <= list.Length
    ensures forall i | 0 <= i < k :: list[i] < head
    ensures forall i | k <= i < list.Length :: list[i] >= head
  {
    k := 0;
    while k < list.Length && list[k] < head
      invariant 0 <= k <= list.Length
      invariant forall i | 0 <= i < k :: list[i] < head
    {
      k := k + 1;
    }
    forall i | k <= i < list.Length
      ensures list[i] >= head
    {
      assert list[..][k] <= list[..][i];
    }
  }

  /** Requests on both sides: go to the nearer neighbour, the lower one on a tie. */
  method Merge(list: array<int>, start: Seek) returns (distance: int, path: seq<int>, s: Seek)
    requires start.a == list[..] && Going(start, 0, [start.head])
    ensures s.a == start.a && s.head == start.head && s.k == start.k && Going(s, distance, path)
    ensures s.l < 0 || s.r >= list.Length
  {
    s, distance, path := start, 0, [start.head];
    while s.l >= 0 && s.r < list.Length
      invariant s.a == start.a && s.head == start.head && s.k == start.k && Going(s, distance, path)
      decreases s.l + list.Length - s.r
    {
      if s.cur - list[s.l] <= list[s.r] - s.cur {
        GoLeft(s, distance, path);
        distance := distance + (s.cur - list[s.l]);
        s := Left(s);
      } else {
        GoRight(s, distance, path);
        distance := distance + (list[s.r] - s.cur);
        s := Right(s);
      }
      path := path + [s.cur];
    }
  }

  /** Requests left on the lower side only. */
  method DrainLeft(list: array<int>, start: Seek, d: int, p: seq<int>) returns (distance: int, path: seq<int>, s: Seek)
    requires start.a == list[..] && Going(start, d, p) && (start.l < 0 || start.r >= list.Length)
    ensures s.a == start.a && s.head == start.head && s.k == start.k && Going(s, distance, path) && s.l < 0
  {
    s, distance, path := start, d, p;
    while s.l >= 0
      invariant s.a == start.a && s.head == start.head && s.k == start.k && Going(s, distance, path)
      invariant s.l < 0 || s.r >= list.Length
      decreases s.l
    {
      GoLeft(s, distance, path);
      distance := distance + (s.cur - list[s.l]);
      s := Left(s);
      path := path + [s.cur];
    }
  }

  /** Requests left on the upper side only. */
  method DrainRight(list: array<int>, start: Seek, d: int, p: seq<int>) returns (distance: int, path: seq<int>, s: Seek)
    requires start.a == list[..] && Going(start, d, p) && start.l < 0
    ensures s.a == start.a && s.head == start.head && s.k == start.k && Going(s, distance, path)
    ensures s.l == -1 && s.r == list.Length
  {
    s, distance, path := start, d, p;
    while s.r < list.Length
      invariant s.a == start.a && s.head == start.head && s.k == start.k && Going(s, distance, path) && s.l < 0
      decreases list.Length - s.r
    {
      GoRight(s, distance, path);
      distance := distance + (list[s.r] - s.cur);
      s := Right(s);
      path := path + [s.cur];
    }
  }

  lemma GoingFirst(a: seq<int>, head: int, k: int)
    requires Sorted(a) && 0 <= k <= |a|
    requires (forall i | 0 <= i < k :: a[i] < head) && forall i | k <= i < |a| :: a[i] >= head
    ensures Going(Seek(a, head, k, k - 1, k, head, true), 0, [head])
  {
    assert a[k..k] == [];
  }

  method SSTF(list: array<int>, head: int) returns (distance: int, path: seq<int>)
    modifies list
    ensures path != [] && path[0] == head && distance == Length(path)
    ensures multiset(path) == multiset{head} + multiset(old(list[..]))
    ensures forall i, j | 0 <= i < j < |path| :: Preferred(path[i], path[i + 1], path[j])
    ensures distance <= 3 * (High(head, old(list[..])) - Low(head, old(list[..])))
    ensures forall tour | Tour(tour, head, old(list[..])) :: distance <= 3 * Length(tour)
  {
    ghost var requests := list[..];
    Sort(list);
    var k := FirstBeyond(list, head);
    GoingFirst(list[..], head, k);
    var s := Seek(list[..], head, k, k - 1, k, head, true);
    distance, path, s := Merge(list, s);
    distance, path, s := DrainLeft(list, s, distance, path);
    distance, path, s := DrainRight(list, s, distance, path);
    assert list[0..list.Length] == list[..];
    Finished(s, distance, path, requests);
  }

  lemma TripleSpan(s: Seek, distance: int, requests: seq<int>)
    requires Placed(s) && Bounded(s, distance) && s.l == -1 && s.r == |s.a|
    requires multiset(s.a) == multiset(requests)
    ensures distance <= 3 * (High(s.head, requests) - Low(s.head, requests))
  {
    SameSpan(s.head, s.a, requests);
  }

  lemma TripleTour(head: int, distance: int, requests: seq<int>, tour: seq<int>)
    requires distance <= 3 * (High(head, requests) - Low(head, requests))
    requires Tour(tour, head, requests)
    ensures distance <= 3 * Length(tour)
  {
    TourCost(tour, head, requests);
  }

  lemma AllNearest(s: Seek, path: seq<int>, i: nat, j: nat)
    requires Greedy(path, s) && i < j < |path|
    ensures Preferred(path[i], path[i + 1], path[j])
  {
    assert NearestStep(path, i, s);
  }

  /** The end of the run, for the requests in the order they came in. */
  lemma Finished(s: Seek, distance: int, path: seq<int>, requests: seq<int>)
    requires Going(s, distance, path) && s.l == -1 && s.r == |s.a| && multiset(s.a) == multiset(requests)
    ensures distance <= 3 * (High(s.head, requests) - Low(s.head, requests))
    ensures forall tour | Tour(tour, s.head, requests) :: distance <= 3 * Length(tour)
    ensures forall i, j | 0 <= i < j < |path| :: Preferred(path[i], path[i + 1], path[j])
  {
    TripleSpan(s, distance, requests);
    forall tour | Tour(tour, s.head, requests) {
      TripleTour(s.head, distance, requests, tour);
    }
    forall i: nat, j: nat | i < j < |path| {
      AllNearest(s, path, i, j);
    }
  }
}
