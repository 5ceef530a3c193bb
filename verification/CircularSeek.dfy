/** The circular elevators: both serve the far side in the direction they started in. */
module CircularSeek {
  import opened DiskPaths
  import opened ElevatorSeek

  // ------------------------------------------------------------------- C-LOOK

  function CLookPath(below: seq<int>, above: seq<int>, head: int, inward: bool): seq<int> {
    if inward then [head] + Reversed(below) + Reversed(above) else [head] + above + below
  }

  /** The distance: out to the far end of the other side, then back over it. */
  function CLookSum(below: seq<int>, above: seq<int>, head: int, inward: bool): int {
    if inward then
      var turn := Bottom(below, head);
      (head - turn) + (Top(above, turn) - turn) + (Top(above, turn) - Bottom(above, turn))
    else
      var turn := Top(above, head);
      (turn - head) + (turn - Bottom(below, turn)) + (Top(below, turn) - Bottom(below, turn))
  }

  lemma Regroup(p: seq<int>, q: seq<int>, r: seq<int>)
    ensures p + (q + r) == p + q + r
  {}

  /** A stop at x, and a rising sweep from there. */
  lemma ViaUp(path: seq<int>, x: int, s: seq<int>)
    requires path != [] && Rising(s) && (s != [] ==> x <= s[0])
    ensures Length(path + [x] + s) == Length(path) + Abs(x - Last(path)) + (Top(s, x) - x)
  {
    LengthAppend(path, x);
    var stopped := path + [x];
    Up(stopped, s);
  }

  /** The same with a falling sweep. */
  lemma ViaDown(path: seq<int>, x: int, s: seq<int>)
    requires path != [] && Rising(s) && (s != [] ==> x >= Last(s))
    ensures Length(path + [x] + Reversed(s)) == Length(path) + Abs(x - Last(path)) + (x - Bottom(s, x))
  {
    LengthAppend(path, x);
    var stopped := path + [x];
    Down(stopped, s);
  }

  /** Jumping to the far end of a side and sweeping back over the rest of it. */
  lemma JumpDown(path: seq<int>, s: seq<int>)
    requires path != [] && Rising(s) && s != [] && Last(path) <= Last(s)
    ensures Length(path + Reversed(s)) == Length(path) + (Last(s) - Last(path)) + (Last(s) - s[0])
    ensures Reversed(s) == [Last(s)] + Reversed(s[..|s| - 1])
  {
    var t := s[..|s| - 1];
    assert t != [] ==> t[0] == s[0];
    ViaDown(path, Last(s), t);
    Regroup(path, [Last(s)], Reversed(t));
  }

  lemma JumpUp(path: seq<int>, s: seq<int>)
    requires path != [] && Rising(s) && s != [] && Last(path) >= s[0]
    ensures Length(path + s) == Length(path) + (Last(path) - s[0]) + (Last(s) - s[0])
  {
    var t := s[1..];
    RisingEnds(s);
    assert t != [] ==> Last(t) == Last(s);
    ViaUp(path, s[0], t);
    assert s == [s[0]] + t;
    Regroup(path, [s[0]], t);
  }

  lemma CLookInward(below: seq<int>, above: seq<int>, head: int)
    requires Sides(below, above, head)
    ensures Length(CLookPath(below, above, head, true)) == CLookSum(below, above, head, true)
  {
    var down := [head] + Reversed(below);
    Down([head], below);
    if above != [] {
      JumpDown(down, above);
    } else {
      assert down + Reversed(above) == down;
    }
  }

  lemma CLookOutward(below: seq<int>, above: seq<int>, head: int)
    requires Sides(below, above, head)
    ensures Length(CLookPath(below, above, head, false)) == CLookSum(below, above, head, false)
  {
    var up := [head] + above;
    Up([head], above);
    if below != [] {
      JumpUp(up, below);
    } else {
      assert up + below == up;
    }
  }

  lemma CLookServes(requests: seq<int>, below: seq<int>, above: seq<int>, head: int, inward: bool)
    requires Parts(requests, below, above, head)
    ensures multiset(CLookPath(below, above, head, inward)) == multiset{head} + multiset(requests)
  {
    ReversedEnds(below);
    ReversedEnds(above);
  }

  lemma CLookSweeps(requests: seq<int>, below: seq<int>, above: seq<int>, head: int, inward: bool)
    requires Parts(requests, below, above, head)
    ensures TwoSweeps(CLookPath(below, above, head, inward), requests, head, inward, [], inward)
  {
    var first := [head] + Sweep(if inward then below else above, inward);
    assert first + [] == first;
    PathSweeps(requests, below, above, head, inward, [], inward, CLookPath(below, above, head, inward));
  }

  /** The request nearest the head on its outer side, and on its inner side. */
  ghost function LeastFrom(requests: seq<int>, head: int): (x: int)
    requires AnyFrom(requests, head)
    ensures x in requests && x >= head
    ensures forall k | 0 <= k < |requests| && requests[k] >= head :: x <= requests[k]
  {
    var init, y := requests[..|requests| - 1], requests[|requests| - 1];
    if !AnyFrom(init, head) then y
    else if y < head then LeastFrom(init, head)
    else Min(y, LeastFrom(init, head))
  }

  ghost function GreatestBelow(requests: seq<int>, head: int): (x: int)
    requires AnyBelow(requests, head)
    ensures x in requests && x < head
    ensures forall k | 0 <= k < |requests| && requests[k] < head :: x >= requests[k]
  {
    var init, y := requests[..|requests| - 1], requests[|requests| - 1];
    if !AnyBelow(init, head) then y
    else if y >= head then GreatestBelow(init, head)
    else Max(y, GreatestBelow(init, head))
  }

  /** Over the first side, across to the far end of the requests, and back to the one nearest
      the head on the other side. */
  ghost function CLookCost(requests: seq<int>, head: int, inward: bool): int {
    var lo, hi := Low(head, requests), High(head, requests);
    if inward then
      (head - lo) + if AnyFrom(requests, head) then (hi - lo) + (hi - LeastFrom(requests, head)) else 0
    else
      (hi - head) + if AnyBelow(requests, head) then (hi - lo) + (GreatestBelow(requests, head) - lo) else 0
  }

  lemma PartsNearest(requests: seq<int>, below: seq<int>, above: seq<int>, head: int)
    requires Parts(requests, below, above, head)
    ensures AnyFrom(requests, head) ==> above != [] && LeastFrom(requests, head) == above[0]
    ensures AnyBelow(requests, head) ==> below != [] && GreatestBelow(requests, head) == Last(below)
  {
    PartsAny(requests, below, above, head);
    SidesBounds(below, above, head);
    SortedRises(below);
    SortedRises(above);
    assert forall x :: x in requests <==> x in multiset(requests);
    assert forall x :: x in requests <==> x in below || x in above;
    if AnyFrom(requests, head) {
      var x := LeastFrom(requests, head);
      assert x in above && above[0] in requests;
    }
    if AnyBelow(requests, head) {
      var x := GreatestBelow(requests, head);
      assert x in below && Last(below) in requests;
    }
  }

  lemma CLookLength(requests: seq<int>, below: seq<int>, above: seq<int>, head: int, inward: bool)
    requires Parts(requests, below, above, head)
    ensures Length(CLookPath(below, above, head, inward)) == CLookCost(requests, head, inward)
  {
    PartsEnds(requests, below, above, head);
    PartsAny(requests, below, above, head);
    PartsNearest(requests, below, above, head);
    if inward {
      CLookInward(below, above, head);
    } else {
      CLookOutward(below, above, head);
    }
  }

  method CLookInwardSweep(list: array<int>, k: nat, head: int) returns (distance: int, path: seq<int>)
    requires 0 <= k <= list.Length && Sides(list[0..k], list[k..list.Length], head)
    ensures path == CLookPath(list[0..k], list[k..list.Length], head, true)
    ensures distance == Length(path)
  {
    var n := list.Length;
    CLookInward(list[0..k], list[k..n], head);
    var cur := head;
    distance, path := 0, [head];
    cur, distance, path := Inward(list, k - 1, 0, cur, distance, path);
    if k <= n - 1 {
      assert list[k..n][..n - 1 - k] == list[k..n - 1];
      assert Reversed(list[k..n]) == [list[n - 1]] + Reversed(list[k..n - 1]);
      distance := distance + (list[n - 1] - cur);
      cur := list[n - 1];
      path := path + [cur];
      cur, distance, path := Inward(list, n - 2, k, cur, distance, path);
      assert path == CLookPath(list[0..k], list[k..n], head, true);
    }
  }

  method CLookOutwardSweep(list: array<int>, k: nat, head: int) returns (distance: int, path: seq<int>)
    requires 0 <= k <= list.Length && Sides(list[0..k], list[k..list.Length], head)
    ensures path == CLookPath(list[0..k], list[k..list.Length], head, false)
    ensures distance == Length(path)
  {
    var n := list.Length;
    CLookOutward(list[0..k], list[k..n], head);
    var cur := head;
    distance, path := 0, [head];
    cur, distance, path := Outward(list, k, n, cur, distance, path);
    if k - 1 >= 0 {
      assert list[0..k] == [list[0]] + list[1..k];
      Regroup(path, [list[0]], list[1..k]);
      distance := distance + (cur - list[0]);
      cur := list[0];
      path := path + [cur];
      cur, distance, path := Outward(list, 1, k, cur, distance, path);
    }
  }

  method CLOOK(list: array<int>, head: int, direction: int)
    returns (distance: int, path: seq<int>, ghost below: seq<int>, ghost above: seq<int>)
    modifies list
    ensures Parts(old(list[..]), below, above, head)
    ensures path == CLookPath(below, above, head, direction == 0)
    ensures TwoSweeps(path, old(list[..]), head, direction == 0, [], direction == 0)
    ensures multiset(path) == multiset{head} + multiset(old(list[..]))
    ensures distance == Length(path) == CLookCost(old(list[..]), head, direction == 0)
  {
    ghost var requests := list[..];
    var k := Split(list, head);
    below, above := list[0..k], list[k..list.Length];
    CLookServes(requests, below, above, head, direction == 0);
    CLookSweeps(requests, below, above, head, direction == 0);
    CLookLength(requests, below, above, head, direction == 0);
    if direction == 0 {
      distance, path := CLookInwardSweep(list, k, head);
    } else {
      distance, path := CLookOutwardSweep(list, k, head);
    }
  }

  // ------------------------------------------------------------------- C-SCAN

  /** The stop at the outer end when moving out first: left out when the highest request
      lies one below the arm. */
  function OuterTurn(below: seq<int>, above: seq<int>, head: int, cylinders: int): seq<int>
    requires below != [] || above != []
  {
    if Final(below, above) == Top(above, head) - 1 then [] else [cylinders - 1]
  }

  /** The stops C-SCAN adds to those at requests. */
  function CScanTurns(below: seq<int>, above: seq<int>, head: int, inward: bool, cylinders: int): seq<int>
    requires below != [] || above != []
  {
    if inward then Turn(0, First(below, above)) + [cylinders - 1]
    else OuterTurn(below, above, head, cylinders) + Turn(0, First(below, above))
  }

  function CScanPath(below: seq<int>, above: seq<int>, head: int, inward: bool, cylinders: int): seq<int>
    requires below != [] || above != []
  {
    if inward then [head] + Reversed(below) + Turn(0, First(below, above)) + [cylinders - 1] + Reversed(above)
    else [head] + above + OuterTurn(below, above, head, cylinders) + Turn(0, First(below, above)) + below
  }

  /** Where the arm stands before it turns back to cylinder 0. */
  function Outermost(below: seq<int>, above: seq<int>, head: int, cylinders: int): int
    requires below != [] || above != []
  {
    if OuterTurn(below, above, head, cylinders) == [] then head else cylinders - 1
  }

  lemma CScanInward(below: seq<int>, above: seq<int>, head: int, cylinders: int)
    requires Sides(below, above, head) && OnDisk(below, above, head, cylinders) && (below != [] || above != [])
    ensures var end := cylinders - 1;
            Length(CScanPath(below, above, head, true, cylinders)) == head + end + (end - Bottom(above, end))
    ensures First(below, above) == 0 ==> Bottom(below, head) == 0
  {
    var down := [head] + Reversed(below);
    Down([head], below);
    assert Length(down) == head - Bottom(below, head);
    TurnLength(down, 0, First(below, above));
    ViaDown(down + Turn(0, First(below, above)), cylinders - 1, above);
  }

  lemma OuterLength(below: seq<int>, above: seq<int>, head: int, cylinders: int)
    requires Sides(below, above, head) && OnDisk(below, above, head, cylinders) && (below != [] || above != [])
    ensures var out := [head] + above + OuterTurn(below, above, head, cylinders);
            var end := Outermost(below, above, head, cylinders);
            Length(out) == end - head && Last(out) == end && end >= head
  {
    var up := [head] + above;
    Up([head], above);
    if OuterTurn(below, above, head, cylinders) == [] {
      assert above == [];
      assert up + [] == [head];
    } else {
      LengthAppend(up, cylinders - 1);
    }
  }

  lemma CScanOutward(below: seq<int>, above: seq<int>, head: int, cylinders: int)
    requires Sides(below, above, head) && OnDisk(below, above, head, cylinders) && (below != [] || above != [])
    ensures var end := Outermost(below, above, head, cylinders);
            Length(CScanPath(below, above, head, false, cylinders)) ==
            (end - head) + (if head == 0 == First(below, above) then 0 else end) + Top(below, 0)
  {
    var out := [head] + above + OuterTurn(below, above, head, cylinders);
    OuterLength(below, above, head, cylinders);
    if First(below, above) != 0 {
      ViaUp(out, 0, below);
    } else {
      assert out + [] == out;
      if below != [] {
        JumpUp(out, below);
      } else {
        assert out + below == out;
      }
    }
  }

  lemma CScanServes(requests: seq<int>, below: seq<int>, above: seq<int>, head: int, inward: bool, cylinders: int)
    requires Parts(requests, below, above, head) && (below != [] || above != [])
    ensures multiset(CScanPath(below, above, head, inward, cylinders)) ==
            multiset{head} + multiset(requests) + multiset(CScanTurns(below, above, head, inward, cylinders))
  {
    ReversedEnds(below);
    ReversedEnds(above);
  }

  /** C-LOOK never moves the arm further than C-SCAN in the same direction. */
  lemma CLookAtMostCScan(below: seq<int>, above: seq<int>, head: int, inward: bool, cylinders: int)
    requires Sides(below, above, head) && OnDisk(below, above, head, cylinders) && (below != [] || above != [])
    ensures Length(CLookPath(below, above, head, inward)) <= Length(CScanPath(below, above, head, inward, cylinders))
  {
    if inward {
      CLookInward(below, above, head);
      CScanInward(below, above, head, cylinders);
    } else {
      CLookOutward(below, above, head);
      CScanOutward(below, above, head, cylinders);
    }
  }

  method CScanInwardSweep(list: array<int>, k: nat, head: int, cylinders: int) returns (distance: int, path: seq<int>)
    requires 0 <= k <= list.Length && list.Length > 0
    requires Sides(list[0..k], list[k..list.Length], head)
    requires OnDisk(list[0..k], list[k..list.Length], head, cylinders)
    ensures path == CScanPath(list[0..k], list[k..list.Length], head, true, cylinders)
    ensures distance == Length(path)
  {
    var n := list.Length;
    ghost var below, above := list[0..k], list[k..n];
    assert First(below, above) == list[0];
    CScanInward(below, above, head, cylinders);
    var cur: int;
    cur, distance, path := ToInnerEnd(list, k, head);
    cur, distance, path := FarAndBack(list, k, cylinders, cur, distance, path);
  }

  /** Without stopping to the far end of the disk, then inward over the requests above. */
  method FarAndBack(list: array<int>, k: nat, cylinders: int, cur: int, distance: int, path: seq<int>)
    returns (cur': int, distance': int, path': seq<int>)
    requires k <= list.Length && list.Length > 0 && cur == 0 && list[list.Length - 1] >= 0
    ensures path' == path + [cylinders - 1] + Reversed(list[k..list.Length])
    ensures cur' == Bottom(list[k..list.Length], cylinders - 1)
    ensures distance' == distance + (cylinders - 1) + (cylinders - 1 - cur')
  {
    cur', distance', path' := cur, distance, path;
    if list[list.Length - 1] != cur' - 1 {
      distance' := distance' + (cylinders - 1 - cur');
      cur' := cylinders - 1;
      path' := path' + [cur'];
    }
    cur', distance', path' := Inward(list, list.Length - 1, k, cur', distance', path');
  }

  /** The sum leaves out the way back to cylinder 0 exactly when a request there stopped the
      code from moving the arm; that way is then subtracted, not added. */
  function Overlooked(below: seq<int>, above: seq<int>, head: int, cylinders: int): int
    requires below != [] || above != []
  {
    if below != [] && below[0] == 0 then 2 * Outermost(below, above, head, cylinders) else 0
  }

  method CScanOutwardSweep(list: array<int>, k: nat, head: int, cylinders: int) returns (distance: int, path: seq<int>)
    requires 0 <= k <= list.Length && list.Length > 0
    requires Sides(list[0..k], list[k..list.Length], head)
    requires OnDisk(list[0..k], list[k..list.Length], head, cylinders)
    ensures path == CScanPath(list[0..k], list[k..list.Length], head, false, cylinders)
    ensures distance == Length(path) - Overlooked(list[0..k], list[k..list.Length], head, cylinders)
  {
    var n := list.Length;
    CScanOutward(list[0..k], list[k..n], head, cylinders);
    var cur := head;
    distance, path := 0, [head];
    cur, distance, path := Outward(list, k, n, cur, distance, path);
    if list[n - 1] != cur - 1 {
      distance := distance + (cylinders - 1 - cur);
      cur := cylinders - 1;
      path := path + [cur];
    }
    assert path == [head] + list[k..n] + OuterTurn(list[0..k], list[k..n], head, cylinders);
    assert cur == Outermost(list[0..k], list[k..n], head, cylinders);
    if list[0] != 0 {
      distance := distance + (cur - 0);
      cur := 0;
      path := path + [cur];
    }
    assert path == [head] + list[k..n] + OuterTurn(list[0..k], list[k..n], head, cylinders) + Turn(0, list[0]);
    cur, distance, path := Outward(list, 0, k, cur, distance, path);
  }

  /** Moving out first, the stop at the outer end is left out exactly if no request lies
      outward and one lies just below the head. */
  lemma OuterTurnIff(requests: seq<int>, below: seq<int>, above: seq<int>, head: int, cylinders: int)
    requires Parts(requests, below, above, head) && (below != [] || above != [])
    ensures OuterTurn(below, above, head, cylinders) == []
       <==> head - 1 in requests && !AnyFrom(requests, head)
  {
    PartsAny(requests, below, above, head);
    assert head - 1 in requests <==> head - 1 in multiset(requests);
    if above == [] {
      SortedRises(below);
      assert forall x :: x in multiset(below) <==> x in below;
      assert forall i | 0 <= i < |below| :: below[i] <= Last(below) < head;
      assert Last(below) in below;
    }
  }

  /** The turns of C-SCAN, told from the requests. */
  ghost function EndStopsBoth(requests: seq<int>, head: int, inward: bool, cylinders: int): seq<int> {
    if inward then EndStop(0, requests) + [cylinders - 1]
    else (if head - 1 in requests && !AnyFrom(requests, head) then [] else [cylinders - 1]) + EndStop(0, requests)
  }

  lemma CScanSweeps(requests: seq<int>, below: seq<int>, above: seq<int>, head: int, inward: bool, cylinders: int)
    requires Parts(requests, below, above, head) && OnDisk(below, above, head, cylinders)
    requires below != [] || above != []
    ensures TwoSweeps(CScanPath(below, above, head, inward, cylinders), requests, head, inward,
                      EndStopsBoth(requests, head, inward, cylinders), inward)
  {
    EndStops(requests, below, above, head, cylinders);
    OuterTurnIff(requests, below, above, head, cylinders);
    var turns := CScanTurns(below, above, head, inward, cylinders);
    assert turns == EndStopsBoth(requests, head, inward, cylinders);
    var first := [head] + Sweep(if inward then below else above, inward);
    if inward {
      Regroup(first, Turn(0, First(below, above)), [cylinders - 1]);
    } else {
      Regroup(first, OuterTurn(below, above, head, cylinders), Turn(0, First(below, above)));
    }
    PathSweeps(requests, below, above, head, inward, turns, inward,
               CScanPath(below, above, head, inward, cylinders));
  }

  /** The arm makes the turn where it stands already, outward, exactly if a request lies at the
      last cylinder, or the head does and none lies just below; inward it turns where its
      next stop is exactly if a request lies there. */
  lemma TwiceAtEndIff(requests: seq<int>, below: seq<int>, above: seq<int>, head: int, cylinders: int)
    requires Parts(requests, below, above, head) && OnDisk(below, above, head, cylinders)
    requires below != [] || above != []
    ensures OuterTurn(below, above, head, cylinders) != [] && Top(above, head) == cylinders - 1
       <==> cylinders - 1 in requests || (head == cylinders - 1 && head - 1 !in requests)
    ensures above != [] && Last(above) == cylinders - 1 <==> cylinders - 1 in requests
  {
    var end := cylinders - 1;
    OuterTurnIff(requests, below, above, head, cylinders);
    PartsAny(requests, below, above, head);
    PartsEnds(requests, below, above, head);
    assert end in requests <==> end in multiset(requests);
    if above != [] && Last(above) == end {
      assert end in multiset(above);
    }
    if end in requests {
      var i :| 0 <= i < |requests| && requests[i] == end;
      assert AnyFrom(requests, head);
    }
  }

  /** Ten cylinders, outward from 3: with the one request 2 the arm never goes to the outer
      end, and inward or outward a request at the end is stopped at twice. */
  lemma OuterTurnOdd()
    ensures CScanPath([2], [], 3, false, 10) == [3, 0, 2]
    ensures CScanPath([], [9], 3, false, 10) == [3, 9, 9, 0]
  {}

  /** When the outward sum comes out right: unless the arm starts above a request at 0. */
  lemma OverlookedIff(requests: seq<int>, below: seq<int>, above: seq<int>, head: int, cylinders: int)
    requires Parts(requests, below, above, head) && OnDisk(below, above, head, cylinders)
    requires below != [] || above != []
    ensures Overlooked(below, above, head, cylinders) == 0 <==> !(0 in requests && head > 0)
  {
    PartsEnds(requests, below, above, head);
    assert 0 in requests <==> 0 in multiset(requests);
    OuterLength(below, above, head, cylinders);
    if below != [] {
      assert below[0] in multiset(requests);
    }
    if 0 in requests && head > 0 {
      assert 0 in multiset(below) + multiset(above);
    }
  }

  method CSCAN(list: array<int>, head: int, direction: int, cylinders: int)
    returns (distance: int, path: seq<int>, ghost below: seq<int>, ghost above: seq<int>)
    requires list.Length > 0 && 0 <= head < cylinders
    requires forall i | 0 <= i < list.Length :: 0 <= list[i] < cylinders
    modifies list
    ensures Parts(old(list[..]), below, above, head) && (below != [] || above != [])
    ensures path == CScanPath(below, above, head, direction == 0, cylinders)
    ensures TwoSweeps(path, old(list[..]), head, direction == 0,
                      EndStopsBoth(old(list[..]), head, direction == 0, cylinders), direction == 0)
    ensures multiset(path) == multiset{head} + multiset(old(list[..]))
            + multiset(CScanTurns(below, above, head, direction == 0, cylinders))
    ensures direction == 0 ==> distance == Length(path)
    ensures direction != 0 ==> distance == Length(path) - Overlooked(below, above, head, cylinders)
    ensures direction != 0 ==> (distance == Length(path) <==> !(0 in old(list[..]) && head > 0))
  {
    ghost var requests := list[..];
    var k := Split(list, head);
    below, above := list[0..k], list[k..list.Length];
    PartsOnDisk(requests, below, above, head, cylinders);
    CScanServes(requests, below, above, head, direction == 0, cylinders);
    CScanSweeps(requests, below, above, head, direction == 0, cylinders);
    OverlookedIff(requests, below, above, head, cylinders);
    if direction == 0 {
      distance, path := CScanInwardSweep(list, k, head, cylinders);
    } else {
      distance, path := CScanOutwardSweep(list, k, head, cylinders);
    }
  }

  /** On ten cylinders, from 3 with requests 0 and 5: the arm moves 15 and the sum is -3. */
  lemma CScanNegative()
    ensures var path := CScanPath([0], [5], 3, false, 10);
            path == [3, 5, 9, 0] && Length(path) == 15 && Length(path) - Overlooked([0], [5], 3, 10) == -3
  {
    LengthAppend([3], 5);
    LengthAppend([3, 5], 9);
    LengthAppend([3, 5, 9], 0);
    assert [3, 5, 9] + [0] == [3, 5, 9, 0];
    assert [3, 5] + [9] == [3, 5, 9];
    assert [3] + [5] == [3, 5];
  }
}
