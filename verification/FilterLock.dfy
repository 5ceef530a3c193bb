/**
The n-thread Peterson filter lock: every shared read and every shared write of
the waiting-room loop is one atomic step, and the scan over the level array
keeps its index in the thread, so other threads run between any two reads.
*/
module FilterLock {
  import opened Collections

  /** What a thread does between passing its last waiting room and leaving. */
  datatype Stage = Await | Count | Access | Publish | Check | Uncount | Release

  /** The next shared access of a thread. */
  datatype Pc =
    | SetLevel
    | SetWaiting
    | TestWaiting
    | ScanLevel
    | ScanWaiting
    | Critical(stage: Stage)
    | Exited

  datatype Thread = Thread(pc: Pc, lev: nat, k: nat)

  datatype Lock = Lock(level: seq<int>, waiting: seq<int>, threads: seq<Thread>)

  /** Waiting rooms are numbered 0 .. n-2. */
  function Rooms(n: nat): (r: nat) {
    if n == 0 then 0 else n - 1
  }

  /** The loop head: enter room lev, or the critical section after the last room. */
  function Arrive(n: nat, lev: nat): Thread {
    Thread(if lev < Rooms(n) then SetLevel else Critical(Await), lev, 0)
  }

  function Start(n: nat): Lock {
    Lock(seq(n, _ => -1), seq(Rooms(n), _ => -1), seq(n, _ => Arrive(n, 0)))
  }

  predicate InFilter(pc: Pc) {
    !pc.Critical? && !pc.Exited?
  }

  predicate Spinning(pc: Pc) {
    pc.TestWaiting? || pc.ScanLevel? || pc.ScanWaiting?
  }

  // ---------------------------------------------------------------- invariant

  ghost predicate Shape(l: Lock) {
    && |l.level| == |l.threads|
    && |l.waiting| == Rooms(|l.threads|)
  }

  /** How a thread's position determines its cell of the level array. */
  ghost predicate ThreadOk(n: nat, t: Thread, level: int) {
    match t.pc
    case SetLevel => t.lev < Rooms(n) && level == t.lev - 1
    case SetWaiting => t.lev < Rooms(n) && level == t.lev
    case TestWaiting => t.lev < Rooms(n) && level == t.lev
    case ScanLevel => t.lev < Rooms(n) && level == t.lev && t.k < n
    case ScanWaiting => t.lev < Rooms(n) && level == t.lev && t.k < n
    case Critical(_) => t.lev == Rooms(n) && level == t.lev - 1
    case Exited => level == -1
  }

  ghost predicate ThreadsOk(l: Lock)
    requires Shape(l)
  {
    forall i | 0 <= i < |l.threads| :: ThreadOk(|l.threads|, l.threads[i], l.level[i])
  }

  /** Thread i has announced itself in room r and has not left the lock. */
  ghost predicate Entered(l: Lock, i: int, r: int) {
    && 0 <= i < |l.threads|
    && !l.threads[i].pc.Exited?
    && (l.threads[i].lev > r || (l.threads[i].lev == r && Spinning(l.threads[i].pc)))
  }

  /** Thread i has got through room r and has not left the lock. */
  ghost predicate Passed(l: Lock, i: int, r: int) {
    && 0 <= i < |l.threads|
    && !l.threads[i].pc.Exited?
    && l.threads[i].lev > r
  }

  /** Thread i's current scan has already looked at the level of thread j. */
  ghost predicate Scanned(l: Lock, i: int, j: int) {
    && 0 <= i < |l.threads|
    && 0 <= j < |l.threads|
    && ((l.threads[i].pc.ScanLevel? && j < l.threads[i].k)
        || (l.threads[i].pc.ScanWaiting? && j <= l.threads[i].k))
  }

  /** An occupied room's waiting cell names one of its occupants. */
  ghost predicate VictimInside(l: Lock)
    requires Shape(l)
  {
    forall i, r {:trigger Entered(l, i, r)} | 0 <= r < |l.waiting| && Entered(l, i, r) ::
      Entered(l, l.waiting[r], r)
  }

  /** Whoever got through a room while still named by it is alone in it. */
  ghost predicate PassedVictimAlone(l: Lock)
    requires Shape(l)
  {
    forall j, r | 0 <= r < |l.waiting| && Passed(l, l.waiting[r], r) && Entered(l, j, r) ::
      j == l.waiting[r]
  }

  /** A thread still named by its room has only scanned threads that are not in it. */
  ghost predicate ScannedOutside(l: Lock)
    requires Shape(l) && ThreadsOk(l)
  {
    forall i, j | Scanned(l, i, j) && j != i && l.waiting[l.threads[i].lev] == i ::
      !Entered(l, j, l.threads[i].lev)
  }

  ghost predicate Inv(l: Lock) {
    && Shape(l)
    && ThreadsOk(l)
    && VictimInside(l)
    && PassedVictimAlone(l)
    && ScannedOutside(l)
  }

  // -------------------------------------------------------------------- steps

  /** Thread i's next shared access inside the filter. */
  function Advance(l: Lock, i: nat): Lock
    requires Shape(l) && ThreadsOk(l)
    requires i < |l.threads| && InFilter(l.threads[i].pc)
  {
    var n, t := |l.threads|, l.threads[i];
    match t.pc
    case SetLevel =>
      l.(level := l.level[i := t.lev], threads := l.threads[i := t.(pc := SetWaiting)])
    case SetWaiting =>
      l.(waiting := l.waiting[t.lev := i], threads := l.threads[i := t.(pc := TestWaiting)])
    case TestWaiting =>
      if l.waiting[t.lev] == i
      then l.(threads := l.threads[i := t.(pc := ScanLevel, k := 0)])
      else l.(threads := l.threads[i := Arrive(n, t.lev + 1)])
    case ScanLevel =>
      if l.level[t.k] >= t.lev && t.k != i
      then l.(threads := l.threads[i := t.(pc := TestWaiting)])
      else l.(threads := l.threads[i := t.(pc := ScanWaiting)])
    case ScanWaiting =>
      if l.waiting[t.lev] != i
      then l.(threads := l.threads[i := t.(pc := TestWaiting)])
      else if t.k + 1 < n
      then l.(threads := l.threads[i := t.(pc := ScanLevel, k := t.k + 1)])
      else l.(threads := l.threads[i := Arrive(n, t.lev + 1)])
  }

  /** Thread i moves inside the critical section; the lock's arrays do not change. */
  function Move(l: Lock, i: nat, stage: Stage): Lock
    requires i < |l.threads|
  {
    l.(threads := l.threads[i := l.threads[i].(pc := Critical(stage))])
  }

  /** Thread i resets its level and is gone. */
  function Leave(l: Lock, i: nat): Lock
    requires i < |l.threads| == |l.level|
  {
    l.(level := l.level[i := -1], threads := l.threads[i := l.threads[i].(pc := Exited)])
  }

  lemma StartInv(n: nat)
    ensures Inv(Start(n))
  {}

  /** Only announcing itself in a room changes who has entered which room. */
  lemma AdvanceEntered(l: Lock, i: nat, j: int, r: int)
    requires Inv(l) && i < |l.threads| && InFilter(l.threads[i].pc) && r < |l.waiting|
    ensures Entered(Advance(l, i), j, r) <==>
            Entered(l, j, r) || (j == i && l.threads[i].pc.SetWaiting? && l.threads[i].lev == r)
  {}

  lemma AdvanceVictimInside(l: Lock, i: nat)
    requires Inv(l) && i < |l.threads| && InFilter(l.threads[i].pc)
    ensures Shape(Advance(l, i)) && VictimInside(Advance(l, i))
  {
    var l' := Advance(l, i);
    forall j, r {:trigger Entered(l', j, r)} | 0 <= r < |l'.waiting| && Entered(l', j, r)
      ensures Entered(l', l'.waiting[r], r)
    {
      AdvanceEntered(l, i, j, r);
      AdvanceEntered(l, i, l'.waiting[r], r);
    }
  }

  lemma AdvancePassedVictimAlone(l: Lock, i: nat)
    requires Inv(l) && i < |l.threads| && InFilter(l.threads[i].pc)
    ensures Shape(Advance(l, i)) && PassedVictimAlone(Advance(l, i))
  {
    var l' := Advance(l, i);
    forall j, r | 0 <= r < |l'.waiting| && Passed(l', l'.waiting[r], r) && Entered(l', j, r)
      ensures j == l'.waiting[r]
    {
      AdvanceEntered(l, i, j, r);
      if l'.waiting[r] == i && !Passed(l, i, r) && j != i {
        assert Scanned(l, i, j);  // the scan that let i through covered every thread
      }
    }
  }

  lemma AdvanceScannedOutside(l: Lock, i: nat)
    requires Inv(l) && i < |l.threads| && InFilter(l.threads[i].pc)
    ensures Shape(Advance(l, i)) && ThreadsOk(Advance(l, i)) && ScannedOutside(Advance(l, i))
  {
    var l' := Advance(l, i);
    forall a, j | Scanned(l', a, j) && j != a && l'.waiting[l'.threads[a].lev] == a
      ensures !Entered(l', j, l'.threads[a].lev)
    {
      AdvanceEntered(l, i, j, l.threads[a].lev);
      assert a != i ==> Scanned(l, a, j);
      assert a == i && !Scanned(l, a, j) ==> l.threads[i].pc.ScanLevel? && j == l.threads[i].k;
    }
  }

  /** Every step of the filter keeps the invariant. */
  lemma AdvanceInv(l: Lock, i: nat)
    requires Inv(l) && i < |l.threads| && InFilter(l.threads[i].pc)
    ensures Inv(Advance(l, i)) && |Advance(l, i).threads| == |l.threads|
  {
    AdvanceVictimInside(l, i);
    AdvancePassedVictimAlone(l, i);
    AdvanceScannedOutside(l, i);
  }

  /** Steps inside the critical section and the final reset keep it too. */
  lemma MoveInv(l: Lock, i: nat, stage: Stage)
    requires Inv(l) && i < |l.threads| && l.threads[i].pc.Critical?
    ensures Inv(Move(l, i, stage))
  {
    var l' := Move(l, i, stage);
    assert forall j, r :: Entered(l', j, r) <==> Entered(l, j, r);
    assert forall j, r :: Passed(l', j, r) <==> Passed(l, j, r);
    assert forall a, j :: Scanned(l', a, j) <==> Scanned(l, a, j);
  }

  lemma LeaveInv(l: Lock, i: nat)
    requires Inv(l) && i < |l.threads| && l.threads[i].pc.Critical?
    ensures Inv(Leave(l, i))
  {
    var l' := Leave(l, i);
    assert forall j, r :: Entered(l', j, r) <==> Entered(l, j, r) && j != i;
    assert forall j, r :: Passed(l', j, r) <==> Passed(l, j, r) && j != i;
    assert forall a, j :: Scanned(l', a, j) ==> Scanned(l, a, j);
    forall j, r {:trigger Entered(l', j, r)} | 0 <= r < |l'.waiting| && Entered(l', j, r)
      ensures Entered(l', l'.waiting[r], r)
    {
      assert Entered(l, l.waiting[r], r) && Passed(l, i, r);
    }
  }

  // ------------------------------------------------------------ how many pass

  ghost function EnteredSet(l: Lock, r: int): set<int> {
    set i | 0 <= i < |l.threads| && Entered(l, i, r)
  }

  ghost function PassedSet(l: Lock, r: int): set<int> {
    set i | 0 <= i < |l.threads| && Passed(l, i, r)
  }

  /** A room with more than one occupant holds at least one of them back. */
  lemma RoomHoldsOneBack(l: Lock, r: nat)
    requires Inv(l) && r < |l.waiting|
    ensures |PassedSet(l, r)| <= 1 || |PassedSet(l, r)| < |EnteredSet(l, r)|
  {
    var p, e, v := PassedSet(l, r), EnteredSet(l, r), l.waiting[r];
    if i :| i in p {
      assert Entered(l, i, r) && Entered(l, v, r);
      if Passed(l, v, r) {
        forall j | j in p
          ensures j == v
        {
          assert Passed(l, j, r) && Entered(l, j, r);
        }
        SubsetSize(p, {v});
      } else {
        assert p <= e - {v};
        SubsetSize(p, e - {v});
      }
    }
  }

  /** At most max(1, n-1-r) threads are past room r: one fewer for every room. */
  lemma {:induction false} PassedBound(l: Lock, r: nat)
    requires Inv(l) && r < |l.waiting|
    ensures |PassedSet(l, r)| <= if r + 2 < |l.threads| then |l.threads| - 1 - r else 1
    decreases r
  {
    RoomHoldsOneBack(l, r);
    if r == 0 {
      SubsetSize(EnteredSet(l, r), Below(|l.threads|));
    } else {
      PassedBound(l, r - 1);
      assert EnteredSet(l, r) <= PassedSet(l, r - 1);
      SubsetSize(EnteredSet(l, r), PassedSet(l, r - 1));
    }
  }

  /** Mutual exclusion: two threads in the critical section are the same thread. */
  lemma MutualExclusion(l: Lock, i: nat, j: nat)
    requires Inv(l) && i < |l.threads| && j < |l.threads|
    requires l.threads[i].pc.Critical? && l.threads[j].pc.Critical?
    ensures i == j
  {
    if i != j {
      var r := |l.threads| - 2;
      PassedBound(l, r);
      assert {i, j} <= PassedSet(l, r);
      SubsetSize({i, j}, PassedSet(l, r));
    }
  }

  // ------------------------------------------------------------ who can go on

  /** The waiting loop of thread i ends without any further write by another thread. */
  ghost predicate Released(l: Lock, i: nat)
    requires Shape(l) && ThreadsOk(l) && i < |l.threads| && Spinning(l.threads[i].pc)
  {
    var r := l.threads[i].lev;
    l.waiting[r] != i || forall k | 0 <= k < |l.threads| && k != i :: l.level[k] < r
  }

  ghost predicate Free(l: Lock, i: nat)
    requires Shape(l) && ThreadsOk(l) && i < |l.threads|
  {
    !l.threads[i].pc.Exited? && (Spinning(l.threads[i].pc) ==> Released(l, i))
  }

  /** The unfinished thread that has come furthest, among the first m. */
  lemma {:induction false} Furthest(l: Lock, m: nat) returns (i: nat)
    requires m <= |l.threads| && exists j :: 0 <= j < m && !l.threads[j].pc.Exited?
    ensures i < m && !l.threads[i].pc.Exited?
    ensures forall j | 0 <= j < m && !l.threads[j].pc.Exited? :: l.threads[j].lev <= l.threads[i].lev
  {
    if exists j :: 0 <= j < m - 1 && !l.threads[j].pc.Exited? {
      i := Furthest(l, m - 1);
      if !l.threads[m - 1].pc.Exited? && l.threads[i].lev < l.threads[m - 1].lev {
        i := m - 1;
      }
    } else {
      i := m - 1;
    }
  }

  /** The filter never deadlocks: some unfinished thread is not held in a waiting room. */
  lemma SomeoneFree(l: Lock) returns (i: nat)
    requires Inv(l) && exists j :: 0 <= j < |l.threads| && !l.threads[j].pc.Exited?
    ensures i < |l.threads| && Free(l, i)
  {
    i := Furthest(l, |l.threads|);
    if !Free(l, i) {
      var k :| 0 <= k < |l.threads| && k != i && l.level[k] >= l.threads[i].lev;
      assert ThreadOk(|l.threads|, l.threads[k], l.level[k]);
      i := k;
    }
  }

  /** How many own steps a released thread still spins, if nobody writes meanwhile. */
  ghost function Spins(l: Lock, i: nat): (steps: nat)
    requires Shape(l) && ThreadsOk(l) && i < |l.threads|
    ensures steps <= 2 * |l.threads|
  {
    var n, t := |l.threads|, l.threads[i];
    if !Spinning(t.pc) then 0
    else if l.waiting[t.lev] != i then
      if t.pc.TestWaiting? then 0 else if t.pc.ScanWaiting? then 1 else 2
    else
      if t.pc.TestWaiting? then 2 * n else if t.pc.ScanWaiting? then 2 * (n - t.k) - 2 else 2 * (n - t.k) - 1
  }

  /** How far a thread has come, not counting its spinning. */
  function Position(n: nat, t: Thread): nat {
    match t.pc
    case SetLevel => 3 * t.lev
    case SetWaiting => 3 * t.lev + 1
    case TestWaiting => 3 * t.lev + 2
    case ScanLevel => 3 * t.lev + 2
    case ScanWaiting => 3 * t.lev + 2
    case Critical(stage) => 3 * Rooms(n) + StageNumber(stage)
    case Exited => 3 * Rooms(n) + 7
  }

  function StageNumber(stage: Stage): nat {
    match stage
    case Await => 0
    case Count => 1
    case Access => 2
    case Publish => 3
    case Check => 4
    case Uncount => 5
    case Release => 6
  }

  ghost function Total(n: nat, ts: seq<Thread>): nat {
    if ts == [] then 0 else Total(n, ts[..|ts| - 1]) + Position(n, ts[|ts| - 1])
  }

  lemma {:induction false} TotalUpdate(n: nat, ts: seq<Thread>, i: nat, t: Thread)
    requires i < |ts|
    ensures Total(n, ts[i := t]) == Total(n, ts) - Position(n, ts[i]) + Position(n, t)
  {
    var m := |ts| - 1;
    if i < m {
      TotalUpdate(n, ts[..m], i, t);
      assert ts[i := t][..m] == ts[..m][i := t];
    } else {
      assert ts[i := t][..m] == ts[..m];
    }
  }

  lemma {:induction false} TotalBound(n: nat, ts: seq<Thread>)
    requires forall i | 0 <= i < |ts| :: Position(n, ts[i]) <= 3 * Rooms(n) + 7
    ensures Total(n, ts) <= |ts| * (3 * Rooms(n) + 7)
  {
    if ts != [] {
      TotalBound(n, ts[..|ts| - 1]);
      assert |ts| * (3 * Rooms(n) + 7) == (|ts| - 1) * (3 * Rooms(n) + 7) + (3 * Rooms(n) + 7);
    }
  }

  lemma PositionBound(l: Lock)
    requires Inv(l)
    ensures Total(|l.threads|, l.threads) <= |l.threads| * (3 * Rooms(|l.threads|) + 7)
  {
    forall i | 0 <= i < |l.threads|
      ensures Position(|l.threads|, l.threads[i]) <= 3 * Rooms(|l.threads|) + 7
    {
      assert ThreadOk(|l.threads|, l.threads[i], l.level[i]);
    }
    TotalBound(|l.threads|, l.threads);
  }

  /** A step that leaves the thread in the same waiting loop writes nothing. */
  ghost predicate Quiet(l: Lock, l': Lock) {
    && l'.level == l.level
    && l'.waiting == l.waiting
    && |l'.threads| == |l.threads|
    && forall i | 0 <= i < |l.threads| ::
         || l'.threads[i] == l.threads[i]
         || (Spinning(l.threads[i].pc) && Spinning(l'.threads[i].pc) && l'.threads[i].lev == l.threads[i].lev)
  }

  /** Each filter step moves its thread on, or is quiet and then shortens a released thread's spinning. */
  lemma AdvanceProgress(l: Lock, i: nat)
    requires Inv(l) && i < |l.threads| && InFilter(l.threads[i].pc)
    ensures Inv(Advance(l, i)) && |Advance(l, i).threads| == |l.threads|
    ensures var l' := Advance(l, i);
            var n := |l.threads|;
            || Total(n, l'.threads) > Total(n, l.threads)
            || (&& Total(n, l'.threads) == Total(n, l.threads)
                && Quiet(l, l')
                && (Free(l, i) ==> Free(l', i) && Spins(l', i) < Spins(l, i))
                && forall j | 0 <= j < n && j != i :: l'.threads[j] == l.threads[j])
  {
    AdvanceInv(l, i);
    TotalUpdate(|l.threads|, l.threads, i, Advance(l, i).threads[i]);
  }

}
