/**
First come first served and the four elevator algorithms. Each returns the stops it
prints and the distance it adds up from signed differences.
*/
module ElevatorSeek {
  import opened DiskPaths
  import opened ShortestSeek

  // ------------------------------------------------------------------- sweeps

  function Last(path: seq<int>): int
    requires path != []
  {
    path[|path| - 1]
  }

  /** Where a rising sweep over s from cur ends, and a falling one. */
  function Top(s: seq<int>, cur: int): int {
    if s == [] then cur else Last(s)
  }

  function Bottom(s: seq<int>, cur: int): int {
    if s == [] then cur else s[0]
  }

  lemma {:induction false} ReversedEnds(s: seq<int>)
    ensures s != [] ==> Last(Reversed(s)) == s[0]
    ensures multiset(Reversed(s)) == multiset(s)
  {
    if s != [] {
      ReversedEnds(s[..|s| - 1]);
      assert s == s[..|s| - 1] + [Last(s)];
    }
  }

  lemma ReversedFront(s: seq<int>, t: seq<int>)
    requires s != [] && t == s[1..]
    ensures Reversed(s) == Reversed(t) + [s[0]]
    decreases |s|
  {
    if |s| > 1 {
      ReversedFront(s[..|s| - 1], t[..|t| - 1]);
      assert s[..|s| - 1][1..] == t[..|t| - 1];
    } else {
      assert s[..0] == [];
    }
  }

  /** Sorted, one neighbour at a time. */
  ghost predicate Rising(s: seq<int>) {
    |s| <= 1 || (Rising(s[..|s| - 1]) && s[|s| - 2] <= s[|s| - 1])
  }

  lemma {:induction false} SortedRises(s: seq<int>)
    ensures Sorted(s) <==> Rising(s)
  {
    if |s| > 1 {
      SortedRises(s[..|s| - 1]);
    }
  }

  lemma {:induction false} RisingEnds(s: seq<int>)
    requires Rising(s) && s != []
    ensures s[0] <= Last(s) && Rising(s[1..]) && (|s| > 1 ==> s[0] <= s[1])
  {
    if |s| > 1 {
      var init := s[..|s| - 1];
      RisingEnds(init);
      assert init[1..] == s[1..][..|s| - 2];
    }
  }

  /** A rising sweep costs the difference of its ends. */
  lemma {:induction false} Up(path: seq<int>, s: seq<int>)
    requires path != [] && Rising(s) && (s != [] ==> Last(path) <= s[0])
    ensures Length(path + s) == Length(path) + Top(s, Last(path)) - Last(path)
    ensures Last(path + s) == Top(s, Last(path))
  {
    if s == [] {
      assert path + s == path;
    } else {
      var init := s[..|s| - 1];
      Up(path, init);
      LengthAppend(path + init, Last(s));
      assert path + s == path + init + [Last(s)];
    }
  }

  /** And so does a falling one. */
  lemma {:induction false} Down(path: seq<int>, s: seq<int>)
    requires path != [] && Rising(s) && (s != [] ==> Last(path) >= Last(s))
    ensures Length(path + Reversed(s)) == Length(path) + Last(path) - Bottom(s, Last(path))
    ensures Last(path + Reversed(s)) == Bottom(s, Last(path))
  {
    if s == [] {
      assert path + Reversed(s) == path;
    } else {
      var t := s[1..];
      RisingEnds(s);
      Down(path, t);
      ReversedFront(s, t);
      var before := path + Reversed(t);
      LengthAppend(before, s[0]);
      assert path + Reversed(s) == before + [s[0]];
    }
  }

  /** Serve the requests hi, hi-1, ..., lo. */
  method Inward(list: array<int>, hi: int, lo: nat, cur: int, distance: int, path: seq<int>)
    returns (cur': int, distance': int, path': seq<int>)
    requires lo <= hi + 1 <= list.Length
    ensures cur' == Bottom(list[lo..hi + 1], cur)
    ensures distance' == distance + (cur - cur')
    ensures path' == path + Reversed(list[lo..hi + 1])
  {
    cur', distance', path' := cur, distance, path;
    var j := hi;
    assert list[hi + 1..hi + 1] == [];
    while j >= lo
      invariant lo - 1 <= j <= hi
      invariant cur' == if j < hi then list[j + 1] else cur
      invariant distance' == distance + (cur - cur')
      invariant path' == path + Reversed(list[j + 1..hi + 1])
    {
      distance' := distance' + (cur' - list[j]);
      cur' := list[j];
      path' := path' + [cur'];
      ReversedFront(list[j..hi + 1], list[j + 1..hi + 1]);
      j := j - 1;
    }
  }

  /** Serve the requests lo, lo+1, ..., hi-1. */
  method Outward(list: array<int>, lo: nat, hi: nat, cur: int, distance: int, path: seq<int>)
    returns (cur': int, distance': int, path': seq<int>)
    requires lo <= hi <= list.Length
    ensures cur' == Top(list[lo..hi], cur)
    ensures distance' == distance + (cur' - cur)
    ensures path' == path + list[lo..hi]
  {
    cur', distance', path' := cur, distance, path;
    assert list[lo..lo] == [];
    for j := lo to hi
      invariant cur' == if lo < j then list[j - 1] else cur
      invariant distance' == distance + (cur' - cur)
      invariant path' == path + list[lo..j]
    {
      distance' := distance' + (list[j] - cur');
      cur' := list[j];
      path' := path' + [cur'];
      assert list[lo..j + 1] == list[lo..j] + [list[j]];
    }
  }

  // --------------------------------------------------------------------- FCFS

  method FCFS(list: array<int>, head: int) returns (distance: int, path: seq<int>)
    ensures path == [head] + list[..] && distance == Length(path)
  {
    var cur := head;
    distance, path := 0, [head];
    for i := 0 to list.Length
      invariant path == [head] + list[..i] && Last(path) == cur && distance == Length(path)
    {
      LengthAppend(path, list[i]);
      distance := distance + Abs(cur - list[i]);
      cur := list[i];
      path := path + [cur];
    }
    assert list[..list.Length] == list[..];
  }

  // -------------------------------------------------------------------- sides

  /** The sorted requests below the head, and those at or beyond it. */
  ghost predicate Sides(below: seq<int>, above: seq<int>, head: int) {
    && Rising(below) && Rising(above)
    && (below != [] ==> below[0] <= Last(below) < head)
    && (above != [] ==> head <= above[0] <= Last(above))
  }

  /** below and above are the two sides of the requests. */
  ghost predicate Parts(requests: seq<int>, below: seq<int>, above: seq<int>, head: int) {
    Sides(below, above, head) && multiset(requests) == multiset(below) + multiset(above)
  }

  lemma PartsEnds(requests: seq<int>, below: seq<int>, above: seq<int>, head: int)
    requires Parts(requests, below, above, head)
    ensures Low(head, requests) == if below != [] then below[0] else head
    ensures High(head, requests) == if above != [] then Last(above) else head
  {
    SortedRises(below);
    SortedRises(above);
    var lo, hi := Low(head, requests), High(head, requests);
    assert forall x :: x in requests <==> x in multiset(requests);
    assert lo == head || lo in multiset(below) + multiset(above);
    assert hi == head || hi in multiset(below) + multiset(above);
    if below != [] {
      assert below[0] in multiset(requests);
    }
    if above != [] {
      assert Last(above) in multiset(requests);
    }
  }

  ghost predicate AnyBelow(requests: seq<int>, head: int) {
    exists i :: 0 <= i < |requests| && requests[i] < head
  }

  ghost predicate AnyFrom(requests: seq<int>, head: int) {
    exists i :: 0 <= i < |requests| && requests[i] >= head
  }

  lemma SidesBounds(below: seq<int>, above: seq<int>, head: int)
    requires Sides(below, above, head)
    ensures (forall x <- below :: x < head) && forall x <- above :: x >= head
  {
    SortedRises(below);
    SortedRises(above);
    assert forall i | 0 <= i < |below| :: below[i] <= below[|below| - 1];
    assert forall i | 0 <= i < |above| :: above[0] <= above[i];
  }

  lemma PartsAny(requests: seq<int>, below: seq<int>, above: seq<int>, head: int)
    requires Parts(requests, below, above, head)
    ensures AnyBelow(requests, head) == (below != [])
    ensures AnyFrom(requests, head) == (above != [])
  {
    SidesBounds(below, above, head);
    assert forall x :: x in requests <==> x in multiset(requests);
    assert forall x :: x in requests <==> x in below || x in above;
    forall i | 0 <= i < |requests|
      ensures requests[i] < head ==> below != []
      ensures requests[i] >= head ==> above != []
    {
      assert requests[i] in requests;
    }
    if below != [] {
      assert below[0] in requests;
      var i :| 0 <= i < |requests| && requests[i] == below[0];
    }
    if above != [] {
      assert above[0] in requests;
      var i :| 0 <= i < |requests| && requests[i] == above[0];
    }
  }

  /** Sort the requests and find where the head splits them. */
  method Split(list: array<int>, head: int) returns (k: int)
    modifies list
    ensures 0 <= k <= list.Length
    ensures Parts(old(list[..]), list[0..k], list[k..list.Length], head)
  {
    Sort(list);
    k := FirstBeyond(list, head);
    SplitParts(list[..], k, head);
    assert list[..] == list[0..k] + list[k..list.Length];
    assert list[..][..k] == list[0..k] && list[..][k..] == list[k..list.Length];
  }

  lemma SplitParts(a: seq<int>, k: int, head: int)
    requires Sorted(a) && 0 <= k <= |a|
    requires (forall i | 0 <= i < k :: a[i] < head) && forall i | k <= i < |a| :: a[i] >= head
    ensures Sides(a[..k], a[k..], head)
  {
    SortedRises(a[..k]);
    SortedRises(a[k..]);
    if k > 0 {
      RisingEnds(a[..k]);
      assert a[..k][k - 1] == a[k - 1];
    }
    if k < |a| {
      RisingEnds(a[k..]);
      assert a[k..][0] == a[k];
    }
  }

  // --------------------------------------------------------- the order of the stops

  lemma {:induction false} ReversedFalls(s: seq<int>)
    requires Sorted(s)
    ensures Swept(Reversed(s), true)
  {
    if s != [] {
      var t := s[..|s| - 1];
      ReversedFalls(t);
      ReversedEnds(t);
      forall j | 0 <= j < |t|
        ensures Reversed(t)[j] <= Last(s)
      {
        assert Reversed(t)[j] in multiset(t);
        var k :| 0 <= k < |t| && t[k] == Reversed(t)[j];
        assert s[k] <= s[|s| - 1];
      }
    }
  }

  /** A side of the requests, in rising or in falling order. */
  function Sweep(side: seq<int>, falls: bool): seq<int> {
    if falls then Reversed(side) else side
  }

  lemma SweepSide(requests: seq<int>, below: seq<int>, above: seq<int>, head: int, low: bool, falls: bool)
    requires Parts(requests, below, above, head)
    ensures var s := Sweep(if low then below else above, falls);
            Swept(s, falls) && Side(s, requests, head, low)
  {
    var side := if low then below else above;
    SortedRises(side);
    ReversedFalls(side);
    ReversedEnds(side);
    SidesBounds(below, above, head);
    assert multiset(Sweep(side, falls)) == multiset(side);
    forall x
      ensures multiset(side)[x] == if (x < head) == low then multiset(requests)[x] else 0
    {
      assert x in multiset(below) ==> x in below;
      assert x in multiset(above) ==> x in above;
    }
  }

  lemma SweptOn(head: int, s: seq<int>, falls: bool)
    requires Swept(s, falls) && (s != [] ==> if falls then head >= s[0] else head <= s[0])
    ensures Swept([head] + s, falls)
  {}

  /** The stops of a path laid out like this, told from the requests alone. */
  lemma PathSweeps(requests: seq<int>, below: seq<int>, above: seq<int>, head: int, inward: bool,
                   turns: seq<int>, fallsBack: bool, path: seq<int>)
    requires Parts(requests, below, above, head)
    requires path == [head] + Sweep(if inward then below else above, inward) + turns
                     + Sweep(if inward then above else below, fallsBack)
    ensures TwoSweeps(path, requests, head, inward, turns, fallsBack)
  {
    var first := Sweep(if inward then below else above, inward);
    var second := Sweep(if inward then above else below, fallsBack);
    SweepSide(requests, below, above, head, inward, inward);
    SweepSide(requests, below, above, head, !inward, fallsBack);
    SidesBounds(below, above, head);
    assert first != [] ==> first[0] in multiset(first);
    ReversedEnds(below);
    SweptOn(head, first, inward);
    var i := 1 + |first|;
    assert path[..i] == [head] + first && path[1..i] == first;
    assert path[i..i + |turns|] == turns && path[i + |turns|..] == second;
    assert Sweeps(path, requests, head, inward, turns, fallsBack, i);
  }

  // --------------------------------------------------------------------- LOOK

  /** The stops of LOOK. */
  function LookPath(below: seq<int>, above: seq<int>, head: int, inward: bool): seq<int> {
    if inward then [head] + Reversed(below) + above else [head] + above + Reversed(below)
  }

  /** To the end of the requests on the first side, then back over all of them. */
  ghost function LookCost(requests: seq<int>, head: int, inward: bool): int {
    var lo, hi := Low(head, requests), High(head, requests);
    if inward then (head - lo) + if AnyFrom(requests, head) then hi - lo else 0
    else (hi - head) + if AnyBelow(requests, head) then hi - lo else 0
  }

  /** The same with the ends of the disk in place of the ends of the requests. */
  ghost function ScanCost(requests: seq<int>, head: int, inward: bool, cylinders: int): int {
    var lo, hi := Low(head, requests), High(head, requests);
    if inward then head + if AnyFrom(requests, head) then hi else 0
    else (cylinders - 1 - head) + if AnyBelow(requests, head) then cylinders - 1 - lo else 0
  }

  /** The better of LOOK's two directions is optimal among all tours. */
  lemma LookOptimal(requests: seq<int>, head: int, tour: seq<int>)
    requires Tour(tour, head, requests)
    ensures Min(LookCost(requests, head, true), LookCost(requests, head, false)) <= Length(tour)
  {
    TourCost(tour, head, requests);
  }

  /** In either direction LOOK never moves the arm further than SCAN. */
  lemma LookAtMostScan(requests: seq<int>, head: int, inward: bool, cylinders: int)
    requires 0 <= head < cylinders
    requires forall i | 0 <= i < |requests| :: 0 <= requests[i] < cylinders
    ensures LookCost(requests, head, inward) <= ScanCost(requests, head, inward, cylinders)
  {}

  lemma LookLengthInward(requests: seq<int>, below: seq<int>, above: seq<int>, head: int)
    requires Parts(requests, below, above, head)
    ensures Length(LookPath(below, above, head, true)) == LookCost(requests, head, true)
  {
    PartsEnds(requests, below, above, head);
    PartsAny(requests, below, above, head);
    Down([head], below);
    Up([head] + Reversed(below), above);
  }

  lemma LookLengthOutward(requests: seq<int>, below: seq<int>, above: seq<int>, head: int)
    requires Parts(requests, below, above, head)
    ensures Length(LookPath(below, above, head, false)) == LookCost(requests, head, false)
  {
    PartsEnds(requests, below, above, head);
    PartsAny(requests, below, above, head);
    Up([head], above);
    Down([head] + above, below);
  }

  lemma LookServes(requests: seq<int>, below: seq<int>, above: seq<int>, head: int, inward: bool)
    requires Parts(requests, below, above, head)
    ensures multiset(LookPath(below, above, head, inward)) == multiset{head} + multiset(requests)
  {
    ReversedEnds(below);
  }

  lemma LookDone(requests: seq<int>, below: seq<int>, above: seq<int>, head: int, inward: bool)
    requires Parts(requests, below, above, head)
    ensures multiset(LookPath(below, above, head, inward)) == multiset{head} + multiset(requests)
    ensures Length(LookPath(below, above, head, inward)) == LookCost(requests, head, inward)
  {
    LookServes(requests, below, above, head, inward);
    if inward {
      LookLengthInward(requests, below, above, head);
    } else {
      LookLengthOutward(requests, below, above, head);
    }
  }

  lemma LookSweeps(requests: seq<int>, below: seq<int>, above: seq<int>, head: int, inward: bool)
    requires Parts(requests, below, above, head)
    ensures TwoSweeps(LookPath(below, above, head, inward), requests, head, inward, [], !inward)
  {
    var first := [head] + Sweep(if inward then below else above, inward);
    assert first + [] == first;
    PathSweeps(requests, below, above, head, inward, [], !inward, LookPath(below, above, head, inward));
  }

  method LookInwardSweep(list: array<int>, k: nat, head: int) returns (distance: int, path: seq<int>)
    requires k <= list.Length && Sides(list[0..k], list[k..list.Length], head)
    ensures path == LookPath(list[0..k], list[k..list.Length], head, true)
    ensures distance == Length(path)
  {
    var cur := head;
    distance, path := 0, [head];
    Down([head], list[0..k]);
    cur, distance, path := Inward(list, k - 1, 0, cur, distance, path);
    Up(path, list[k..list.Length]);
    cur, distance, path := Outward(list, k, list.Length, cur, distance, path);
  }

  method LookOutwardSweep(list: array<int>, k: nat, head: int) returns (distance: int, path: seq<int>)
    requires k <= list.Length && Sides(list[0..k], list[k..list.Length], head)
    ensures path == LookPath(list[0..k], list[k..list.Length], head, false)
    ensures distance == Length(path)
  {
    var cur := head;
    distance, path := 0, [head];
    Up([head], list[k..list.Length]);
    cur, distance, path := Outward(list, k, list.Length, cur, distance, path);
    Down(path, list[0..k]);
    cur, distance, path := Inward(list, k - 1, 0, cur, distance, path);
  }

  method LOOK(list: array<int>, head: int, direction: int)
    returns (distance: int, path: seq<int>, ghost below: seq<int>, ghost above: seq<int>)
    modifies list
    ensures Parts(old(list[..]), below, above, head)
    ensures path == LookPath(below, above, head, direction == 0)
    ensures TwoSweeps(path, old(list[..]), head, direction == 0, [], direction != 0)
    ensures multiset(path) == multiset{head} + multiset(old(list[..]))
    ensures distance == Length(path) == LookCost(old(list[..]), head, direction == 0)
  {
    ghost var requests := list[..];
    var k := Split(list, head);
    below, above := list[0..k], list[k..list.Length];
    LookDone(requests, below, above, head, direction == 0);
    LookSweeps(requests, below, above, head, direction == 0);
    if direction == 0 {
      distance, path := LookInwardSweep(list, k, head);
    } else {
      distance, path := LookOutwardSweep(list, k, head);
    }
  }

  // --------------------------------------------------------------------- SCAN

  /** Both sides lie on the disk. */
  ghost predicate OnDisk(below: seq<int>, above: seq<int>, head: int, cylinders: int) {
    && 0 <= head < cylinders
    && (below != [] ==> below[0] >= 0)
    && (above != [] ==> Last(above) < cylinders)
  }

  lemma PartsOnDisk(requests: seq<int>, below: seq<int>, above: seq<int>, head: int, cylinders: int)
    requires Parts(requests, below, above, head) && 0 <= head < cylinders
    requires forall i | 0 <= i < |requests| :: 0 <= requests[i] < cylinders
    ensures OnDisk(below, above, head, cylinders)
  {
    PartsEnds(requests, below, above, head);
  }

  /** A stop at the end of the disk, unless a request there makes one. */
  function Turn(end: int, request: int): seq<int> {
    if request == end then [] else [end]
  }

  /** The lowest and highest of all requests. */
  function First(below: seq<int>, above: seq<int>): int
    requires below != [] || above != []
  {
    if below != [] then below[0] else above[0]
  }

  function Final(below: seq<int>, above: seq<int>): int
    requires below != [] || above != []
  {
    if above != [] then Last(above) else Last(below)
  }

  /** The stop SCAN adds to those at requests. */
  function ScanTurn(below: seq<int>, above: seq<int>, inward: bool, cylinders: int): seq<int>
    requires below != [] || above != []
  {
    if inward then Turn(0, First(below, above)) else Turn(cylinders - 1, Final(below, above))
  }

  /** The stops of SCAN. */
  function ScanPath(below: seq<int>, above: seq<int>, head: int, inward: bool, cylinders: int): seq<int>
    requires below != [] || above != []
  {
    if inward then [head] + Reversed(below) + Turn(0, First(below, above)) + above
    else [head] + above + Turn(cylinders - 1, Final(below, above)) + Reversed(below)
  }

  /** A stop at the given end of the disk, unless it is requested. */
  function EndStop(end: int, requests: seq<int>): seq<int> {
    if end in requests then [] else [end]
  }

  /** The ends of a side are its least and its greatest request. */
  lemma SideEnds(s: seq<int>, x: int)
    requires Rising(s) && x in s
    ensures s[0] <= x <= Last(s)
  {
    SortedRises(s);
  }

  lemma PartsMember(requests: seq<int>, below: seq<int>, above: seq<int>, head: int, x: int)
    requires Parts(requests, below, above, head)
    ensures x in requests <==> x in below || x in above
  {
    assert x in requests <==> x in multiset(requests);
    assert x in below <==> x in multiset(below);
    assert x in above <==> x in multiset(above);
  }

  /** The turns of SCAN, told from the requests. */
  lemma EndStops(requests: seq<int>, below: seq<int>, above: seq<int>, head: int, cylinders: int)
    requires Parts(requests, below, above, head) && OnDisk(below, above, head, cylinders)
    requires below != [] || above != []
    ensures Turn(0, First(below, above)) == EndStop(0, requests)
    ensures Turn(cylinders - 1, Final(below, above)) == EndStop(cylinders - 1, requests)
  {
    EndMember(requests, below, above, head, 0);
    EndMember(requests, below, above, head, cylinders - 1);
    PartsMember(requests, below, above, head, First(below, above));
    PartsMember(requests, below, above, head, Final(below, above));
  }

  lemma EndMember(requests: seq<int>, below: seq<int>, above: seq<int>, head: int, x: int)
    requires Parts(requests, below, above, head) && (below != [] || above != [])
    ensures x in requests ==> First(below, above) <= x <= Final(below, above)
  {
    PartsMember(requests, below, above, head, x);
    if x in below {
      SideEnds(below, x);
    }
    if x in above {
      SideEnds(above, x);
    }
  }

  lemma ScanSweeps(requests: seq<int>, below: seq<int>, above: seq<int>, head: int, inward: bool, cylinders: int)
    requires Parts(requests, below, above, head) && OnDisk(below, above, head, cylinders)
    requires below != [] || above != []
    ensures TwoSweeps(ScanPath(below, above, head, inward, cylinders), requests, head, inward,
                      EndStop(if inward then 0 else cylinders - 1, requests), !inward)
  {
    EndStops(requests, below, above, head, cylinders);
    PathSweeps(requests, below, above, head, inward, EndStop(if inward then 0 else cylinders - 1, requests),
               !inward, ScanPath(below, above, head, inward, cylinders));
  }

  /** Going on to the end of the disk, with or without a stop there. */
  lemma TurnLength(path: seq<int>, end: int, request: int)
    requires path != [] && (request == end ==> Last(path) == end)
    ensures Length(path + Turn(end, request)) == Length(path) + Abs(end - Last(path))
    ensures Last(path + Turn(end, request)) == end
  {
    if request == end {
      assert path + Turn(end, request) == path;
    } else {
      LengthAppend(path, end);
    }
  }

  lemma ScanInward(below: seq<int>, above: seq<int>, head: int, cylinders: int)
    requires Sides(below, above, head) && OnDisk(below, above, head, cylinders) && (below != [] || above != [])
    ensures Length(ScanPath(below, above, head, true, cylinders)) == head + Top(above, 0)
    ensures First(below, above) == 0 ==> Bottom(below, head) == 0
  {
    assert First(below, above) == 0 ==> Bottom(below, head) == 0;
    var down := [head] + Reversed(below);
    Down([head], below);
    var turned := down + Turn(0, First(below, above));
    TurnLength(down, 0, First(below, above));
    Up(turned, above);
  }

  lemma OutAndTurned(below: seq<int>, above: seq<int>, head: int, cylinders: int)
    requires Sides(below, above, head) && OnDisk(below, above, head, cylinders) && (below != [] || above != [])
    ensures Final(below, above) == cylinders - 1 ==> Top(above, head) == cylinders - 1
    ensures var turned := [head] + above + Turn(cylinders - 1, Final(below, above));
            Length(turned) == cylinders - 1 - head && Last(turned) == cylinders - 1
  {
    assert Final(below, above) == cylinders - 1 ==> Top(above, head) == cylinders - 1;
    Up([head], above);
    TurnLength([head] + above, cylinders - 1, Final(below, above));
  }

  lemma ScanOutward(below: seq<int>, above: seq<int>, head: int, cylinders: int)
    requires Sides(below, above, head) && OnDisk(below, above, head, cylinders) && (below != [] || above != [])
    ensures var end := cylinders - 1;
            Length(ScanPath(below, above, head, false, cylinders)) == (end - head) + (end - Bottom(below, end))
    ensures Final(below, above) == cylinders - 1 ==> Top(above, head) == cylinders - 1
  {
    OutAndTurned(below, above, head, cylinders);
    var turned := [head] + above + Turn(cylinders - 1, Final(below, above));
    Down(turned, below);
  }

  lemma ScanSums(requests: seq<int>, below: seq<int>, above: seq<int>, head: int, cylinders: int)
    requires Parts(requests, below, above, head)
    ensures ScanCost(requests, head, true, cylinders) == head + Top(above, 0)
    ensures var end := cylinders - 1;
            ScanCost(requests, head, false, cylinders) == (end - head) + (end - Bottom(below, end))
  {
    PartsEnds(requests, below, above, head);
    PartsAny(requests, below, above, head);
  }

  lemma ScanServes(requests: seq<int>, below: seq<int>, above: seq<int>, head: int, inward: bool, cylinders: int)
    requires Parts(requests, below, above, head) && (below != [] || above != [])
    ensures multiset(ScanPath(below, above, head, inward, cylinders)) == multiset{head} + multiset(requests)
            + multiset(ScanTurn(below, above, inward, cylinders))
  {
    ReversedEnds(below);
  }

  lemma ScanDone(requests: seq<int>, below: seq<int>, above: seq<int>, head: int, inward: bool, cylinders: int)
    requires Parts(requests, below, above, head) && (below != [] || above != [])
    requires OnDisk(below, above, head, cylinders)
    ensures multiset(ScanPath(below, above, head, inward, cylinders)) == multiset{head} + multiset(requests)
            + multiset(ScanTurn(below, above, inward, cylinders))
    ensures Length(ScanPath(below, above, head, inward, cylinders)) == ScanCost(requests, head, inward, cylinders)
  {
    ScanServes(requests, below, above, head, inward, cylinders);
    ScanSums(requests, below, above, head, cylinders);
    if inward {
      ScanInward(below, above, head, cylinders);
    } else {
      ScanOutward(below, above, head, cylinders);
    }
  }

  /** Inward over the requests below, and on to cylinder 0 unless a request lies there. */
  method ToInnerEnd(list: array<int>, k: nat, head: int) returns (cur: int, distance: int, path: seq<int>)
    requires k <= list.Length && list.Length > 0
    requires list[0] == 0 ==> Bottom(list[0..k], head) == 0
    ensures cur == 0 && distance == head
    ensures path == [head] + Reversed(list[0..k]) + Turn(0, list[0])
  {
    cur, distance, path := Inward(list, k - 1, 0, head, 0, [head]);
    if list[0] != 0 {
      distance := distance + (cur - 0);
      cur := 0;
      path := path + [cur];
    }
  }

  /** Outward over the requests above, and on to the last cylinder. */
  method ToOuterEnd(list: array<int>, k: nat, head: int, cylinders: int)
    returns (cur: int, distance: int, path: seq<int>)
    requires k <= list.Length && list.Length > 0
    requires list[list.Length - 1] == cylinders - 1 ==> Top(list[k..list.Length], head) == cylinders - 1
    ensures cur == cylinders - 1 && distance == cylinders - 1 - head
    ensures path == [head] + list[k..list.Length] + Turn(cylinders - 1, list[list.Length - 1])
  {
    cur, distance, path := Outward(list, k, list.Length, head, 0, [head]);
    if list[list.Length - 1] != cylinders - 1 {
      distance := distance + (cylinders - 1 - cur);
      cur := cylinders - 1;
      path := path + [cur];
    }
  }

  method ScanInwardSweep(list: array<int>, k: nat, head: int, cylinders: int) returns (distance: int, path: seq<int>)
    requires k <= list.Length && list.Length > 0
    requires Sides(list[0..k], list[k..list.Length], head)
    requires OnDisk(list[0..k], list[k..list.Length], head, cylinders)
    ensures path == ScanPath(list[0..k], list[k..list.Length], head, true, cylinders)
    ensures distance == Length(path)
  {
    ghost var below, above := list[0..k], list[k..list.Length];
    assert First(below, above) == list[0];
    ScanInward(below, above, head, cylinders);
    var cur: int;
    cur, distance, path := ToInnerEnd(list, k, head);
    cur, distance, path := Outward(list, k, list.Length, cur, distance, path);
  }

  method ScanOutwardSweep(list: array<int>, k: nat, head: int, cylinders: int) returns (distance: int, path: seq<int>)
    requires k <= list.Length && list.Length > 0
    requires Sides(list[0..k], list[k..list.Length], head)
    requires OnDisk(list[0..k], list[k..list.Length], head, cylinders)
    ensures path == ScanPath(list[0..k], list[k..list.Length], head, false, cylinders)
    ensures distance == Length(path)
  {
    ghost var below, above := list[0..k], list[k..list.Length];
    assert Final(below, above) == list[list.Length - 1];
    ScanOutward(below, above, head, cylinders);
    var cur: int;
    cur, distance, path := ToOuterEnd(list, k, head, cylinders);
    cur, distance, path := Inward(list, k - 1, 0, cur, distance, path);
  }

  method SCAN(list: array<int>, head: int, direction: int, cylinders: int)
    returns (distance: int, path: seq<int>, ghost below: seq<int>, ghost above: seq<int>)
    requires list.Length > 0 && 0 <= head < cylinders
    requires forall i | 0 <= i < list.Length :: 0 <= list[i] < cylinders
    modifies list
    ensures Parts(old(list[..]), below, above, head) && (below != [] || above != [])
    ensures path == ScanPath(below, above, head, direction == 0, cylinders)
    ensures TwoSweeps(path, old(list[..]), head, direction == 0,
                      EndStop(if direction == 0 then 0 else cylinders - 1, old(list[..])), direction != 0)
    ensures multiset(path) == multiset{head} + multiset(old(list[..]))
            + multiset(ScanTurn(below, above, direction == 0, cylinders))
    ensures distance == Length(path) == ScanCost(old(list[..]), head, direction == 0, cylinders)
  {
    ghost var requests := list[..];
    var k := Split(list, head);
    below, above := list[0..k], list[k..list.Length];
    PartsOnDisk(requests, below, above, head, cylinders);
    ScanDone(requests, below, above, head, direction == 0, cylinders);
    ScanSweeps(requests, below, above, head, direction == 0, cylinders);
    if direction == 0 {
      distance, path := ScanInwardSweep(list, k, head, cylinders);
    } else {
      distance, path := ScanOutwardSweep(list, k, head, cylinders);
    }
  }
}
