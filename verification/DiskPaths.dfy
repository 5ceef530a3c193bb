/** Paths of the disk arm: their length, and what any path must cost. */
module DiskPaths {

  function Abs(x: int): nat {
    if x < 0 then -x else x
  }

  /** The cylinders passed between the first and the last stop. */
  ghost function Length(path: seq<int>): nat {
    if |path| <= 1 then 0
    else Length(path[..|path| - 1]) + Abs(path[|path| - 1] - path[|path| - 2])
  }

  lemma LengthAppend(path: seq<int>, x: int)
    requires path != []
    ensures Length(path + [x]) == Length(path) + Abs(x - path[|path| - 1])
  {
    assert (path + [x])[..|path|] == path;
  }

  /** No stop is further from another than the path between them is long. */
  lemma {:induction false} LengthBetween(path: seq<int>, i: nat, j: nat)
    requires i <= j < |path|
    ensures Length(path) >= Length(path[..i + 1]) + Abs(path[j] - path[i])
    decreases |path|
  {
    if j < |path| - 1 {
      var init := path[..|path| - 1];
      LengthBetween(init, i, j);
      assert init[..i + 1] == path[..i + 1];
    } else if i < j {
      var init := path[..j];
      LengthBetween(init, i, j - 1);
      assert init[..i + 1] == path[..i + 1];
    } else {
      assert path[..i + 1] == path;
    }
  }

  /** A path from head that stops at every request. */
  ghost predicate Tour(path: seq<int>, head: int, requests: seq<int>) {
    path != [] && path[0] == head && forall k | 0 <= k < |requests| :: requests[k] in path
  }

  function Min(a: int, b: int): int {
    if a < b then a else b
  }

  function Max(a: int, b: int): int {
    if a < b then b else a
  }

  /** The lowest and the highest of the head and the requests. */
  function Low(head: int, requests: seq<int>): (lo: int)
    ensures lo <= head && forall k | 0 <= k < |requests| :: lo <= requests[k]
    ensures lo == head || lo in requests
  {
    if requests == [] then head else Min(requests[0], Low(head, requests[1..]))
  }

  function High(head: int, requests: seq<int>): (hi: int)
    ensures hi >= head && forall k | 0 <= k < |requests| :: hi >= requests[k]
    ensures hi == head || hi in requests
  {
    if requests == [] then head else Max(requests[0], High(head, requests[1..]))
  }

  lemma VisitCost(path: seq<int>, x: int, y: int)
    requires path != [] && x in path && y in path
    ensures Length(path) >= Abs(y - x) + Min(Abs(x - path[0]), Abs(y - path[0]))
  {
    var i :| 0 <= i < |path| && path[i] == x;
    var j :| 0 <= j < |path| && path[j] == y;
    if i <= j {
      LengthBetween(path, i, j);
      LengthBetween(path[..i + 1], 0, i);
    } else {
      LengthBetween(path, j, i);
      LengthBetween(path[..j + 1], 0, j);
    }
  }

  /** Every tour covers the span and walks to the nearer end of it first. */
  lemma TourCost(path: seq<int>, head: int, requests: seq<int>)
    requires Tour(path, head, requests)
    ensures var lo, hi := Low(head, requests), High(head, requests);
            Length(path) >= (hi - lo) + Min(head - lo, hi - head)
  {
    var lo, hi := Low(head, requests), High(head, requests);
    assert lo in path && hi in path;
    VisitCost(path, lo, hi);
  }

  ghost predicate Sorted(s: seq<int>) {
    forall i, j | 0 <= i <= j < |s| :: s[i] <= s[j]
  }

  // -------------------------------------------------------------------- sweeps

  /** The stops fall, or rise, without turning. */
  ghost predicate Swept(s: seq<int>, falls: bool) {
    forall i, j | 0 <= i <= j < |s| :: if falls then s[i] >= s[j] else s[i] <= s[j]
  }

  /** The stops are the requests below the head, or the others, each as often as requested. */
  ghost predicate Side(stops: seq<int>, requests: seq<int>, head: int, below: bool) {
    forall x :: multiset(stops)[x] == if (x < head) == below then multiset(requests)[x] else 0
  }

  /** The path goes from the head over one side of the requests, without turning, to stop i;
      then come the given turns; then it sweeps over the other side. */
  ghost predicate Sweeps(path: seq<int>, requests: seq<int>, head: int, inward: bool,
                         turns: seq<int>, fallsBack: bool, i: int)
  {
    var j := i + |turns|;
    && 1 <= i <= j <= |path|
    && path[0] == head
    && Swept(path[..i], inward)
    && Side(path[1..i], requests, head, inward)
    && path[i..j] == turns
    && Swept(path[j..], fallsBack)
    && Side(path[j..], requests, head, !inward)
  }

  ghost predicate TwoSweeps(path: seq<int>, requests: seq<int>, head: int, inward: bool,
                            turns: seq<int>, fallsBack: bool)
  {
    exists i :: Sweeps(path, requests, head, inward, turns, fallsBack, i)
  }

  lemma SweptEnd(s: seq<int>, falls: bool, x: int)
    requires Swept(s, falls) && x in s
    ensures if falls then s[|s| - 1] <= x else s[|s| - 1] >= x
  {}

  lemma WithoutLast(s: seq<int>)
    requires s != []
    ensures multiset(s[..|s| - 1]) == multiset(s) - multiset{s[|s| - 1]}
  {
    assert s == s[..|s| - 1] + [s[|s| - 1]];
  }

  lemma SameEnd(s: seq<int>, t: seq<int>, falls: bool)
    requires Swept(s, falls) && Swept(t, falls) && multiset(s) == multiset(t) && s != []
    ensures |t| == |s| && s[|s| - 1] == t[|s| - 1]
    ensures multiset(s[..|s| - 1]) == multiset(t[..|s| - 1])
  {
    assert |multiset(s)| == |multiset(t)|;
    var n := |s| - 1;
    assert s[n] in multiset(t) && t[n] in multiset(s);
    SweptEnd(s, falls, t[n]);
    SweptEnd(t, falls, s[n]);
    WithoutLast(s);
    WithoutLast(t);
  }

  /** One sweep visits given stops in one order only. */
  lemma {:induction false} SweptUnique(s: seq<int>, t: seq<int>, falls: bool)
    requires Swept(s, falls) && Swept(t, falls) && multiset(s) == multiset(t)
    ensures s == t
  {
    if s == [] {
      assert |multiset(t)| == 0;
    } else {
      var n := |s| - 1;
      SameEnd(s, t, falls);
      SweptUnique(s[..n], t[..n], falls);
      assert s == s[..n] + [s[n]] && t == t[..n] + [t[n]];
    }
  }

  lemma SideUnique(s: seq<int>, t: seq<int>, requests: seq<int>, head: int, below: bool, falls: bool)
    requires Side(s, requests, head, below) && Side(t, requests, head, below)
    requires Swept(s, falls) && Swept(t, falls)
    ensures s == t
  {
    assert forall x :: multiset(s)[x] == multiset(t)[x];
    SweptUnique(s, t, falls);
  }

  /** The parts of such a path. */
  lemma SweepsParts(path: seq<int>, requests: seq<int>, head: int, inward: bool,
                    turns: seq<int>, fallsBack: bool, i: int)
    returns (first: seq<int>, second: seq<int>)
    requires Sweeps(path, requests, head, inward, turns, fallsBack, i)
    ensures path == [head] + first + turns + second
    ensures Swept(first, inward) && Side(first, requests, head, inward)
    ensures Swept(second, fallsBack) && Side(second, requests, head, !inward)
  {
    first, second := path[1..i], path[i + |turns|..];
    SweptRest(path, i, inward);
    Cut(path, i, i + |turns|);
  }

  /** So the requests, the head, the directions and the turns fix every stop. */
  lemma TwoSweepsUnique(path: seq<int>, path': seq<int>, requests: seq<int>, head: int, inward: bool,
                        turns: seq<int>, fallsBack: bool)
    requires TwoSweeps(path, requests, head, inward, turns, fallsBack)
    requires TwoSweeps(path', requests, head, inward, turns, fallsBack)
    ensures path == path'
  {
    var i :| Sweeps(path, requests, head, inward, turns, fallsBack, i);
    var i' :| Sweeps(path', requests, head, inward, turns, fallsBack, i');
    var first, second := SweepsParts(path, requests, head, inward, turns, fallsBack, i);
    var first', second' := SweepsParts(path', requests, head, inward, turns, fallsBack, i');
    SideUnique(first, first', requests, head, inward, inward);
    SideUnique(second, second', requests, head, !inward, fallsBack);
  }

  lemma SweptRest(path: seq<int>, i: int, falls: bool)
    requires 1 <= i <= |path| && Swept(path[..i], falls)
    ensures Swept(path[1..i], falls)
  {
    assert path[1..i] == path[..i][1..];
  }

  lemma Cut(path: seq<int>, i: int, j: int)
    requires 1 <= i <= j <= |path|
    ensures path == [path[0]] + path[1..i] + path[i..j] + path[j..]
  {}

  /** Order of the requests does not matter for the ends of the span. */
  lemma SameSpan(head: int, s: seq<int>, t: seq<int>)
    requires multiset(s) == multiset(t)
    ensures Low(head, s) == Low(head, t) && High(head, s) == High(head, t)
  {
    assert forall x :: x in s <==> x in multiset(s);
    assert forall x :: x in t <==> x in multiset(t);
    assert forall k | 0 <= k < |s| :: s[k] in t;
    assert forall k | 0 <= k < |t| :: t[k] in s;
  }

  function Reversed(s: seq<int>): (r: seq<int>)
    ensures |r| == |s|
  {
    if s == [] then [] else [s[|s| - 1]] + Reversed(s[..|s| - 1])
  }

  // ------------------------------------------------------------------- sorting

  function Insert(s: seq<int>, x: int): (r: seq<int>)
    ensures |r| == |s| + 1
  {
    if s == [] || s[|s| - 1] <= x then s + [x] else Insert(s[..|s| - 1], x) + [s[|s| - 1]]
  }

  lemma {:induction false} InsertMultiset(s: seq<int>, x: int)
    ensures multiset(Insert(s, x)) == multiset(s) + multiset{x}
  {
    if s != [] && s[|s| - 1] > x {
      InsertMultiset(s[..|s| - 1], x);
      assert s == s[..|s| - 1] + [s[|s| - 1]];
    }
  }

  lemma {:induction false} InsertBounded(s: seq<int>, x: int, b: int)
    requires x <= b && forall i | 0 <= i < |s| :: s[i] <= b
    ensures forall i | 0 <= i < |Insert(s, x)| :: Insert(s, x)[i] <= b
  {
    if s != [] && s[|s| - 1] > x {
      InsertBounded(s[..|s| - 1], x, b);
    }
  }

  lemma {:induction false} InsertSorted(s: seq<int>, x: int)
    requires Sorted(s)
    ensures Sorted(Insert(s, x))
  {
    if s != [] && s[|s| - 1] > x {
      InsertSorted(s[..|s| - 1], x);
      InsertBounded(s[..|s| - 1], x, s[|s| - 1]);
    }
  }

  /** The library sort, as any sort: in order, and the same requests. */
  method Sort(list: array<int>)
    modifies list
    ensures Sorted(list[..]) && multiset(list[..]) == multiset(old(list[..]))
  {
    var s: seq<int> := [];
    for i := 0 to list.Length
      invariant Sorted(s) && |s| == i && multiset(s) == multiset(list[..i])
      invariant list[..] == old(list[..])
    {
      InsertSorted(s, list[i]);
      InsertMultiset(s, list[i]);
      assert list[..i + 1] == list[..i] + [list[i]];
      s := Insert(s, list[i]);
    }
    assert list[..list.Length] == list[..];
    forall i | 0 <= i < list.Length {
      list[i] := s[i];
    }
    assert list[..] == s;
  }
}
