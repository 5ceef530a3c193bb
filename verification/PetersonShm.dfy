/**
max_num writers and max_num readers behind two independent filter locks hand
messages over through one slot of shared memory. A run is a schedule: it names,
step by step, the thread whose next shared access happens.
*/
module PetersonShm {
  import opened Collections
  import opened FilterLock

  datatype Tid = Writer(i: nat) | Reader(i: nat)

  /** sent, received and receivers record who wrote and who read what, in order. */
  datatype State = State(
    writers: Lock,
    readers: Lock,
    written: int,
    mtext: int,
    counter: int,
    killed: bool,
    sent: seq<int>,
    received: seq<int>,
    receivers: seq<int>)

  function Init(n: nat): State {
    State(Start(n), Start(n), 0, -1, 0, false, [], [], [])
  }

  // -------------------------------------------------------------------- steps

  /** The critical section of writer i; its message is its own number. */
  function WriterStage(s: State, i: nat, stage: Stage): State
    requires i < |s.writers.threads| == |s.writers.level|
  {
    match stage
    case Await =>
      if s.written == 1 then s else s.(writers := Move(s.writers, i, Count))
    case Count =>
      s.(counter := s.counter + 1, writers := Move(s.writers, i, Access))
    case Access =>
      s.(mtext := i, sent := s.sent + [i], writers := Move(s.writers, i, Publish))
    case Publish =>
      s.(written := 1, writers := Move(s.writers, i, Check))
    case Check =>
      if s.counter > 1 then s.(killed := true) else s.(writers := Move(s.writers, i, Uncount))
    case Uncount =>
      s.(counter := s.counter - 1, writers := Move(s.writers, i, Release))
    case Release =>
      s.(writers := Leave(s.writers, i))
  }

  function ReaderStage(s: State, i: nat, stage: Stage): State
    requires i < |s.readers.threads| == |s.readers.level|
  {
    match stage
    case Await =>
      if s.written == 0 then s else s.(readers := Move(s.readers, i, Count))
    case Count =>
      s.(counter := s.counter + 1, readers := Move(s.readers, i, Access))
    case Access =>
      s.(received := s.received + [s.mtext], receivers := s.receivers + [i],
         readers := Move(s.readers, i, Publish))
    case Publish =>
      s.(written := 0, readers := Move(s.readers, i, Check))
    case Check =>
      if s.counter > 1 then s.(killed := true) else s.(readers := Move(s.readers, i, Uncount))
    case Uncount =>
      s.(counter := s.counter - 1, readers := Move(s.readers, i, Release))
    case Release =>
      s.(readers := Leave(s.readers, i))
  }

  ghost predicate Locks(s: State) {
    && FilterLock.Inv(s.writers)
    && FilterLock.Inv(s.readers)
    && |s.writers.threads| == |s.readers.threads|
  }

  /** The next shared access of thread t; a finished thread and a killed process do
      nothing. (Locks holds throughout every run, see StepLocks.) */
  ghost function Step(s: State, t: Tid): State {
    if s.killed || !Locks(s) || t.i >= |s.writers.threads| then s
    else match t
      case Writer(i) =>
        (match s.writers.threads[i].pc
         case Exited => s
         case Critical(stage) => WriterStage(s, i, stage)
         case _ => s.(writers := Advance(s.writers, i)))
      case Reader(i) =>
        (match s.readers.threads[i].pc
         case Exited => s
         case Critical(stage) => ReaderStage(s, i, stage)
         case _ => s.(readers := Advance(s.readers, i)))
  }

  lemma StepLocks(s: State, t: Tid)
    requires Locks(s)
    ensures Locks(Step(s, t)) && |Step(s, t).writers.threads| == |s.writers.threads|
  {
    if !s.killed && t.i < |s.writers.threads| {
      match t
      case Writer(i) =>
        match s.writers.threads[i].pc {
          case Exited =>
          case Critical(stage) =>
            LeaveInv(s.writers, i);
            MoveInv(s.writers, i, Following(stage));
          case _ => AdvanceInv(s.writers, i);
        }
      case Reader(i) =>
        match s.readers.threads[i].pc {
          case Exited =>
          case Critical(stage) =>
            LeaveInv(s.readers, i);
            MoveInv(s.readers, i, Following(stage));
          case _ => AdvanceInv(s.readers, i);
        }
    }
  }

  /** The lock's invariant survives whatever a thread does next. */
  // ---------------------------------------------------------------- invariant

  /** The stages in which a thread uses the slot, in which it is counted, and the
      stage between its access to the slot and its change of the flag. */
  datatype Region = Data | Counted | Publishing

  predicate Inside(stage: Stage, region: Region) {
    match region
    case Data => stage.Count? || stage.Access? || stage.Publish?
    case Counted => stage.Access? || stage.Publish? || stage.Check? || stage.Uncount?
    case Publishing => stage.Publish?
  }

  predicate IsAt(t: Thread, region: Region) {
    t.pc.Critical? && Inside(t.pc.stage, region)
  }

  /** Some thread of the lock is in the given region of its critical section. */
  ghost predicate At(l: Lock, region: Region) {
    exists i :: 0 <= i < |l.threads| && IsAt(l.threads[i], region)
  }

  /** The thread has written or read the message slot. */
  predicate Accessed(t: Thread) {
    t.pc.Exited? || (t.pc.Critical? && StageNumber(t.pc.stage) >= StageNumber(Publish))
  }

  /** The list names exactly the threads that have been at the slot, each once. */
  ghost predicate Roster(l: Lock, ids: seq<int>) {
    && Distinct(ids)
    && (forall x | x in ids :: 0 <= x < |l.threads|)
    && forall i | 0 <= i < |l.threads| :: i in ids <==> Accessed(l.threads[i])
  }

  ghost predicate Slot(s: State) {
    && (s.written == 0 || s.written == 1)
    && (At(s.writers, Data) ==> s.written == 0)
    && (At(s.readers, Data) ==> s.written == 1)
  }

  /** Messages written but not yet read. */
  ghost function Lag(s: State): int {
    if At(s.writers, Publishing) then 1 else if At(s.readers, Publishing) then 0 else s.written
  }

  ghost predicate Messages(s: State) {
    && |s.sent| == |s.received| + Lag(s)
    && s.received <= s.sent
    && (s.sent != [] ==> s.mtext == s.sent[|s.sent| - 1])
    && |s.receivers| == |s.received|
  }

  ghost predicate Rosters(s: State) {
    && Roster(s.writers, s.sent)
    && Roster(s.readers, s.receivers)
  }

  ghost predicate Counter(s: State) {
    s.counter == (if At(s.writers, Counted) then 1 else 0) + (if At(s.readers, Counted) then 1 else 0)
  }

  ghost predicate Inv(s: State) {
    && Locks(s)
    && Slot(s)
    && Messages(s)
    && Rosters(s)
    && Counter(s)
  }

  lemma InitInv(n: nat)
    ensures Inv(Init(n))
  {
    StartInv(n);
  }

  /** Thread i is the only one in the critical section. */
  ghost predicate Sole(l: Lock, i: nat) {
    && i < |l.threads| == |l.level|
    && l.threads[i].pc.Critical?
    && forall j | 0 <= j < |l.threads| && l.threads[j].pc.Critical? :: j == i
  }

  lemma CriticalIsSole(l: Lock, i: nat)
    requires FilterLock.Inv(l) && i < |l.threads| && l.threads[i].pc.Critical?
    ensures Sole(l, i)
  {
    forall j: nat | j < |l.threads| && l.threads[j].pc.Critical?
      ensures j == i
    {
      MutualExclusion(l, i, j);
    }
  }

  /** Filter steps bring a thread to Await at most. */
  lemma AtAdvance(l: Lock, i: nat, region: Region)
    requires FilterLock.Inv(l) && i < |l.threads| && InFilter(l.threads[i].pc)
    ensures At(Advance(l, i), region) <==> At(l, region)
  {
    var l' := Advance(l, i);
    assert forall j | 0 <= j < |l.threads| :: IsAt(l'.threads[j], region) <==> IsAt(l.threads[j], region);
  }

  lemma RosterAdvance(l: Lock, i: nat, ids: seq<int>)
    requires FilterLock.Inv(l) && i < |l.threads| && InFilter(l.threads[i].pc) && Roster(l, ids)
    ensures Roster(Advance(l, i), ids)
  {
    AdvanceInv(l, i);
    assert forall j | 0 <= j < |l.threads| :: Accessed(Advance(l, i).threads[j]) <==> Accessed(l.threads[j]);
  }

  lemma RosterAccess(l: Lock, i: nat, ids: seq<int>)
    requires i < |l.threads| == |l.level| && l.threads[i].pc == Critical(Access) && Roster(l, ids)
    ensures Roster(Move(l, i, Publish), ids + [i])
  {}

  lemma RosterKeep(l: Lock, i: nat, stage: Stage, ids: seq<int>)
    requires i < |l.threads| == |l.level| && l.threads[i].pc.Critical? && Roster(l, ids)
    requires Accessed(Move(l, i, stage).threads[i]) == Accessed(l.threads[i])
    ensures Roster(Move(l, i, stage), ids)
  {}

  lemma RosterLeave(l: Lock, i: nat, ids: seq<int>)
    requires i < |l.threads| == |l.level| && l.threads[i].pc == Critical(Release) && Roster(l, ids)
    ensures Roster(Leave(l, i), ids)
  {}

  /** The roster after a step from the given stage. */
  lemma RosterStage(l: Lock, i: nat, stage: Stage, l': Lock, ids: seq<int>)
    requires i < |l.threads| == |l.level| && l.threads[i].pc == Critical(stage) && Roster(l, ids)
    requires if stage == Release then l' == Leave(l, i) else l' == l || l' == Move(l, i, Following(stage))
    requires stage == Access ==> l' != l
    ensures Roster(l', if stage == Access then ids + [i] else ids)
  {
    if stage == Release {
      RosterLeave(l, i, ids);
    } else if stage == Access {
      RosterAccess(l, i, ids);
    } else if l' != l {
      RosterKeep(l, i, Following(stage), ids);
    }
  }

  function Following(stage: Stage): Stage {
    match stage
    case Await => Count
    case Count => Access
    case Access => Publish
    case Publish => Check
    case Check => Uncount
    case Uncount => Release
    case Release => Release
  }

  lemma WriterFilterInv(s: State, i: nat)
    requires Inv(s) && !s.killed && i < |s.writers.threads| && InFilter(s.writers.threads[i].pc)
    ensures Inv(Step(s, Writer(i)))
  {
    StepLocks(s, Writer(i));
    AtAdvance(s.writers, i, Data);
    AtAdvance(s.writers, i, Counted);
    AtAdvance(s.writers, i, Publishing);
    RosterAdvance(s.writers, i, s.sent);
  }

  lemma WriterAt(s: State, i: nat, stage: Stage, region: Region)
    requires Sole(s.writers, i) && s.writers.threads[i].pc == Critical(stage)
    ensures var s' := WriterStage(s, i, stage);
            At(s'.writers, region) <==>
              s'.writers.threads[i].pc.Critical? && Inside(s'.writers.threads[i].pc.stage, region)
  {}

  lemma WriterSlotInv(s: State, i: nat, stage: Stage)
    requires Slot(s) && Counter(s) && Sole(s.writers, i) && s.writers.threads[i].pc == Critical(stage)
    ensures Slot(WriterStage(s, i, stage)) && Counter(WriterStage(s, i, stage))
  {
    WriterAt(s, i, stage, Data);
    WriterAt(s, i, stage, Counted);
  }

  lemma WriterMessagesInv(s: State, i: nat, stage: Stage)
    requires Slot(s) && Messages(s) && Sole(s.writers, i) && s.writers.threads[i].pc == Critical(stage)
    ensures Messages(WriterStage(s, i, stage))
  {
    WriterAt(s, i, stage, Publishing);
    assert At(s.readers, Publishing) ==> At(s.readers, Data);
  }

  lemma WriterRostersInv(s: State, i: nat, stage: Stage)
    requires Rosters(s) && i < |s.writers.threads| == |s.writers.level| && s.writers.threads[i].pc == Critical(stage)
    ensures Rosters(WriterStage(s, i, stage))
  {
    RosterStage(s.writers, i, stage, WriterStage(s, i, stage).writers, s.sent);
  }

  lemma WriterInv(s: State, i: nat)
    requires Inv(s)
    ensures Inv(Step(s, Writer(i)))
  {
    StepLocks(s, Writer(i));
    if !s.killed && i < |s.writers.threads| {
      match s.writers.threads[i].pc
      case Exited =>
      case Critical(stage) =>
        CriticalIsSole(s.writers, i);
        WriterSlotInv(s, i, stage);
        WriterMessagesInv(s, i, stage);
        WriterRostersInv(s, i, stage);
      case _ =>
        WriterFilterInv(s, i);
    }
  }

  lemma ReaderFilterInv(s: State, i: nat)
    requires Inv(s) && !s.killed && i < |s.readers.threads| && InFilter(s.readers.threads[i].pc)
    ensures Inv(Step(s, Reader(i)))
  {
    StepLocks(s, Reader(i));
    AtAdvance(s.readers, i, Data);
    AtAdvance(s.readers, i, Counted);
    AtAdvance(s.readers, i, Publishing);
    RosterAdvance(s.readers, i, s.receivers);
  }

  lemma ReaderAt(s: State, i: nat, stage: Stage, region: Region)
    requires Sole(s.readers, i) && s.readers.threads[i].pc == Critical(stage)
    ensures var s' := ReaderStage(s, i, stage);
            At(s'.readers, region) <==>
              s'.readers.threads[i].pc.Critical? && Inside(s'.readers.threads[i].pc.stage, region)
  {}

  lemma ReaderSlotInv(s: State, i: nat, stage: Stage)
    requires Slot(s) && Counter(s) && Sole(s.readers, i) && s.readers.threads[i].pc == Critical(stage)
    ensures Slot(ReaderStage(s, i, stage)) && Counter(ReaderStage(s, i, stage))
  {
    ReaderAt(s, i, stage, Data);
    ReaderAt(s, i, stage, Counted);
  }

  lemma ReaderMessagesInv(s: State, i: nat, stage: Stage)
    requires Slot(s) && Messages(s) && Sole(s.readers, i) && s.readers.threads[i].pc == Critical(stage)
    ensures Messages(ReaderStage(s, i, stage))
  {
    ReaderAt(s, i, stage, Publishing);
    assert At(s.writers, Publishing) ==> At(s.writers, Data);
  }

  lemma ReaderRostersInv(s: State, i: nat, stage: Stage)
    requires Rosters(s) && i < |s.readers.threads| == |s.readers.level| && s.readers.threads[i].pc == Critical(stage)
    ensures Rosters(ReaderStage(s, i, stage))
  {
    RosterStage(s.readers, i, stage, ReaderStage(s, i, stage).readers, s.receivers);
  }

  lemma ReaderInv(s: State, i: nat)
    requires Inv(s)
    ensures Inv(Step(s, Reader(i)))
  {
    StepLocks(s, Reader(i));
    if !s.killed && i < |s.readers.threads| {
      match s.readers.threads[i].pc
      case Exited =>
      case Critical(stage) =>
        CriticalIsSole(s.readers, i);
        ReaderSlotInv(s, i, stage);
        ReaderMessagesInv(s, i, stage);
        ReaderRostersInv(s, i, stage);
      case _ =>
        ReaderFilterInv(s, i);
    }
  }

  lemma StepInv(s: State, t: Tid)
    requires Inv(s)
    ensures Inv(Step(s, t))
  {
    match t
    case Writer(i) => WriterInv(s, i);
    case Reader(i) => ReaderInv(s, i);
  }

  // --------------------------------------------------------------------- runs

  ghost function Run(s: State, schedule: seq<Tid>): State
    decreases |schedule|
  {
    if schedule == [] then s else Run(Step(s, schedule[0]), schedule[1..])
  }

  lemma {:induction false} RunInv(s: State, schedule: seq<Tid>)
    requires Inv(s)
    ensures Inv(Run(s, schedule)) && |Run(s, schedule).writers.threads| == |s.writers.threads|
    decreases |schedule|
  {
    if schedule != [] {
      StepInv(s, schedule[0]);
      StepLocks(s, schedule[0]);
      RunInv(Step(s, schedule[0]), schedule[1..]);
    }
  }

  /** The state the program is in after the scheduled steps. */
  ghost function After(n: nat, schedule: seq<Tid>): State {
    Run(Init(n), schedule)
  }

  /** In every run, each room lets through one thread fewer than the room before it. */
  lemma RoomBound(n: nat, schedule: seq<Tid>, r: nat)
    requires r + 1 < n
    ensures var s := After(n, schedule);
            && |PassedSet(s.writers, r)| <= (if r + 2 < n then n - 1 - r else 1)
            && |PassedSet(s.readers, r)| <= (if r + 2 < n then n - 1 - r else 1)
  {
    InitInv(n);
    RunInv(Init(n), schedule);
    PassedBound(After(n, schedule).writers, r);
    PassedBound(After(n, schedule).readers, r);
  }

  /** In every run, at most one writer and one reader are past their locks, and a
      writer and a reader are never both using the message slot. */
  lemma Exclusion(n: nat, schedule: seq<Tid>)
    ensures var s := After(n, schedule);
            && |s.writers.threads| == |s.readers.threads| == n
            && (forall i, j | 0 <= i < n && 0 <= j < n && s.writers.threads[i].pc.Critical?
                             && s.writers.threads[j].pc.Critical? :: i == j)
            && (forall i, j | 0 <= i < n && 0 <= j < n && s.readers.threads[i].pc.Critical?
                             && s.readers.threads[j].pc.Critical? :: i == j)
            && !(At(s.writers, Data) && At(s.readers, Data))
  {
    InitInv(n);
    RunInv(Init(n), schedule);
    var s := After(n, schedule);
    forall i: nat, j: nat | i < n && j < n
      ensures s.writers.threads[i].pc.Critical? && s.writers.threads[j].pc.Critical? ==> i == j
      ensures s.readers.threads[i].pc.Critical? && s.readers.threads[j].pc.Critical? ==> i == j
    {
      if s.writers.threads[i].pc.Critical? && s.writers.threads[j].pc.Critical? {
        MutualExclusion(s.writers, i, j);
      }
      if s.readers.threads[i].pc.Critical? && s.readers.threads[j].pc.Critical? {
        MutualExclusion(s.readers, i, j);
      }
    }
  }

  /** In every run the messages read are a prefix of those written, at most one behind,
      and no writer's message is written, and no reader served, twice. */
  lemma PrefixDelivery(n: nat, schedule: seq<Tid>)
    ensures var s := After(n, schedule);
            && s.received <= s.sent
            && |s.received| <= |s.sent| <= |s.received| + 1
            && (forall i, j | 0 <= i < j < |s.sent| :: s.sent[i] != s.sent[j])
            && (forall i, j | 0 <= i < j < |s.receivers| :: s.receivers[i] != s.receivers[j])
            && |s.receivers| == |s.received|
  {
    InitInv(n);
    RunInv(Init(n), schedule);
    DistinctMeaning(After(n, schedule).sent);
    DistinctMeaning(After(n, schedule).receivers);
  }

  /** The counter check kills the process exactly when a thread of the other side is
      counted too: exclusion between writers and readers does not cover the counter. */
  lemma CheckKills(s: State, i: nat)
    requires Inv(s) && !s.killed && i < |s.writers.threads|
    ensures s.writers.threads[i].pc == Critical(Check) ==>
              (Step(s, Writer(i)).killed <==> At(s.readers, Counted))
    ensures s.readers.threads[i].pc == Critical(Check) ==>
              (Step(s, Reader(i)).killed <==> At(s.writers, Counted))
  {
    if s.writers.threads[i].pc == Critical(Check) {
      CriticalIsSole(s.writers, i);
    }
    if s.readers.threads[i].pc == Critical(Check) {
      CriticalIsSole(s.readers, i);
    }
  }

  /** Whenever a writer is about to check while a reader waits at a raised flag, two
      steps of the reader before the check are fatal. */
  lemma Overtaken(s: State, i: nat, j: nat)
    requires Inv(s) && !s.killed && s.written == 1 && i < |s.writers.threads| && j < |s.writers.threads|
    requires s.writers.threads[i].pc == Critical(Check) && s.readers.threads[j].pc == Critical(Await)
    ensures Run(s, [Reader(j), Reader(j), Writer(i)]).killed
  {
    var s1 := StepOnce(s, Reader(j), [Reader(j), Writer(i)]);
    StepInv(s, Reader(j));
    var s2 := StepOnce(s1, Reader(j), [Writer(i)]);
    StepInv(s1, Reader(j));
    assert IsAt(s2.readers.threads[j], Counted);
    CheckKills(s2, i);
    var s3 := StepOnce(s2, Writer(i), []);
  }

  /** It happens with one writer and one reader already. */
  lemma KilledRun()
    ensures After(1, [Writer(0), Writer(0), Writer(0), Writer(0), Reader(0), Reader(0), Writer(0)]).killed
  {
    var w, r := Writer(0), Reader(0);
    InitInv(1);
    var s1 := StepOnce(Init(1), w, [w, w, w, r, r, w]);
    StepInv(Init(1), w);
    var s2 := StepOnce(s1, w, [w, w, r, r, w]);
    StepInv(s1, w);
    var s3 := StepOnce(s2, w, [w, r, r, w]);
    StepInv(s2, w);
    var s4 := StepOnce(s3, w, [r, r, w]);
    StepInv(s3, w);
    Overtaken(s4, 0, 0);
  }

  lemma StepOnce(s: State, t: Tid, rest: seq<Tid>) returns (s': State)
    requires Locks(s)
    ensures s' == Step(s, t) && Locks(s') && Run(s, [t] + rest) == Run(s', rest)
  {
    s' := Step(s, t);
    StepLocks(s, t);
    assert ([t] + rest)[1..] == rest;
  }

  // ----------------------------------------------------------------- progress

  ghost predicate AllExited(s: State) {
    && (forall i | 0 <= i < |s.writers.threads| :: s.writers.threads[i].pc.Exited?)
    && (forall i | 0 <= i < |s.readers.threads| :: s.readers.threads[i].pc.Exited?)
  }

  /** Thread t is neither held in a waiting room nor waiting for the flag. */
  ghost predicate Unblocked(s: State, t: Tid)
    requires Locks(s)
  {
    && t.i < |s.writers.threads|
    && match t
       case Writer(i) => Free(s.writers, i) && (s.writers.threads[i].pc == Critical(Await) ==> s.written != 1)
       case Reader(i) => Free(s.readers, i) && (s.readers.threads[i].pc == Critical(Await) ==> s.written != 0)
  }

  /** No deadlock: in every reachable state with an unfinished thread, some thread can go on. */
  lemma NoDeadlock(s: State) returns (t: Tid)
    requires Inv(s) && !AllExited(s)
    ensures Unblocked(s, t)
  {
    var n := |s.writers.threads|;
    var w, r: nat := 0, 0;
    if exists i :: 0 <= i < n && !s.writers.threads[i].pc.Exited? {
      w := SomeoneFree(s.writers);
      if Unblocked(s, Writer(w)) {
        return Writer(w);
      }
      CriticalIsSole(s.writers, w);
      RosterSize(s.sent, n);
    }
    if exists i :: 0 <= i < n && !s.readers.threads[i].pc.Exited? {
      r := SomeoneFree(s.readers);
      if Unblocked(s, Reader(r)) {
        return Reader(r);
      }
      CriticalIsSole(s.readers, r);
    }
    RosterSize(s.sent, n);
    RosterSize(s.receivers, n);
    assert false;
  }

  ghost function Phi(s: State): nat {
    Total(|s.writers.threads|, s.writers.threads) + Total(|s.readers.threads|, s.readers.threads)
  }

  ghost function PhiMax(n: nat): nat {
    2 * (n * (3 * Rooms(n) + 7))
  }

  ghost function Rank(s: State, t: Tid): (steps: nat)
    requires Locks(s) && t.i < |s.writers.threads|
    ensures steps <= 2 * |s.writers.threads|
  {
    match t
    case Writer(i) => Spins(s.writers, i)
    case Reader(i) => Spins(s.readers, i)
  }

  /** Something irrevocable happened between s and s'. */
  ghost predicate Progress(s: State, s': State) {
    s'.killed || Phi(s') > Phi(s)
  }

  /** A step in the critical section moves its thread on unless the flag holds it. */
  lemma WriterStageProgress(s: State, i: nat, stage: Stage)
    requires i < |s.writers.threads| == |s.writers.level| && |s.readers.threads| == |s.writers.threads|
    requires s.writers.threads[i].pc == Critical(stage)
    ensures var s' := WriterStage(s, i, stage);
            Progress(s, s') || (s' == s && stage == Await && s.written == 1)
  {
    TotalUpdate(|s.writers.threads|, s.writers.threads, i, WriterStage(s, i, stage).writers.threads[i]);
  }

  lemma WriterFilterProgress(s: State, i: nat, t: Tid)
    requires Locks(s) && !s.killed && i < |s.writers.threads| && InFilter(s.writers.threads[i].pc)
    requires Unblocked(s, t)
    ensures var s' := Step(s, Writer(i));
            && Locks(s') && |s'.writers.threads| == |s.writers.threads|
            && (|| Progress(s, s')
                || (Unblocked(s', t) && Rank(s', t) <= Rank(s, t) && (t == Writer(i) ==> Rank(s', t) < Rank(s, t))))
  {
    AdvanceProgress(s.writers, i);
    var s' := Step(s, Writer(i));
  }

  /** A step in the critical section moves its thread on unless the flag holds it. */
  lemma ReaderStageProgress(s: State, i: nat, stage: Stage)
    requires i < |s.readers.threads| == |s.readers.level| && |s.writers.threads| == |s.readers.threads|
    requires s.readers.threads[i].pc == Critical(stage)
    ensures var s' := ReaderStage(s, i, stage);
            Progress(s, s') || (s' == s && stage == Await && s.written == 0)
  {
    TotalUpdate(|s.readers.threads|, s.readers.threads, i, ReaderStage(s, i, stage).readers.threads[i]);
  }

  lemma ReaderFilterProgress(s: State, i: nat, t: Tid)
    requires Locks(s) && !s.killed && i < |s.readers.threads| && InFilter(s.readers.threads[i].pc)
    requires Unblocked(s, t)
    ensures var s' := Step(s, Reader(i));
            && Locks(s') && |s'.writers.threads| == |s.writers.threads|
            && (|| Progress(s, s')
                || (Unblocked(s', t) && Rank(s', t) <= Rank(s, t) && (t == Reader(i) ==> Rank(s', t) < Rank(s, t))))
  {
    AdvanceProgress(s.readers, i);
    var s' := Step(s, Reader(i));
  }

  /** While nothing irrevocable happens, an unblocked thread stays unblocked and each
      of its own steps shortens the spinning it has left. */
  lemma StepProgress(s: State, u: Tid, t: Tid)
    requires Locks(s) && !s.killed && Unblocked(s, t)
    ensures var s' := Step(s, u);
            && Locks(s') && |s'.writers.threads| == |s.writers.threads|
            && (|| Progress(s, s')
                || (Unblocked(s', t) && Rank(s', t) <= Rank(s, t) && (u == t ==> Rank(s', t) < Rank(s, t))))
  {
    StepLocks(s, u);
    if u.i < |s.writers.threads| {
      match u {
        case Writer(i) =>
          match s.writers.threads[i].pc {
            case Exited =>
            case Critical(stage) => WriterStageProgress(s, i, stage);
            case _ => WriterFilterProgress(s, i, t);
          }
        case Reader(i) =>
          match s.readers.threads[i].pc {
            case Exited =>
            case Critical(stage) => ReaderStageProgress(s, i, stage);
            case _ => ReaderFilterProgress(s, i, t);
          }
      }
    }
  }

  lemma StepMonotone(s: State, u: Tid)
    requires Locks(s)
    ensures var s' := Step(s, u);
            && (s.killed ==> s' == s)
            && (s'.killed || Phi(s') >= Phi(s))
  {
    if !s.killed && u.i < |s.writers.threads| {
      match u {
        case Writer(i) =>
          match s.writers.threads[i].pc {
            case Exited =>
            case Critical(stage) => WriterStageProgress(s, i, stage);
            case _ => AdvanceProgress(s.writers, i);
          }
        case Reader(i) =>
          match s.readers.threads[i].pc {
            case Exited =>
            case Critical(stage) => ReaderStageProgress(s, i, stage);
            case _ => AdvanceProgress(s.readers, i);
          }
      }
    }
  }

  lemma {:induction false} RunMonotone(s: State, schedule: seq<Tid>)
    requires Inv(s)
    ensures var s' := Run(s, schedule);
            && (s.killed ==> s' == s)
            && (s'.killed || Phi(s') >= Phi(s))
    decreases |schedule|
  {
    if schedule != [] {
      StepInv(s, schedule[0]);
      StepMonotone(s, schedule[0]);
      RunMonotone(Step(s, schedule[0]), schedule[1..]);
    }
  }

  lemma {:induction false} RoundProgress(s: State, round: seq<Tid>, t: Tid)
    requires Inv(s) && !s.killed && Unblocked(s, t)
    ensures var s' := Run(s, round);
            || Progress(s, s')
            || (Locks(s') && Unblocked(s', t) && Rank(s', t) <= Rank(s, t) && (t in round ==> Rank(s', t) < Rank(s, t)))
    decreases |round|
  {
    if round != [] {
      var u, rest := round[0], round[1..];
      var s1 := Step(s, u);
      StepInv(s, u);
      StepMonotone(s, u);
      StepProgress(s, u, t);
      assert Run(s, round) == Run(s1, rest);
      if Progress(s, s1) {
        RunMonotone(s1, rest);
      } else {
        RoundProgress(s1, rest, t);
        assert t in round ==> t == u || t in rest;
      }
    }
  }

  /** A run cut into rounds. */
  ghost function Rounds(s: State, rounds: seq<seq<Tid>>): State
    decreases |rounds|
  {
    if rounds == [] then s else Rounds(Run(s, rounds[0]), rounds[1..])
  }

  lemma {:induction false} RoundsInv(s: State, rounds: seq<seq<Tid>>)
    requires Inv(s)
    ensures Inv(Rounds(s, rounds)) && |Rounds(s, rounds).writers.threads| == |s.writers.threads|
    decreases |rounds|
  {
    if rounds != [] {
      RunInv(s, rounds[0]);
      RoundsInv(Run(s, rounds[0]), rounds[1..]);
    }
  }

  lemma {:induction false} RoundsMonotone(s: State, rounds: seq<seq<Tid>>)
    requires Inv(s)
    ensures var s' := Rounds(s, rounds);
            && (s.killed ==> s' == s)
            && (s'.killed || Phi(s') >= Phi(s))
    decreases |rounds|
  {
    if rounds != [] {
      RunInv(s, rounds[0]);
      RunMonotone(s, rounds[0]);
      RoundsMonotone(Run(s, rounds[0]), rounds[1..]);
    }
  }

  lemma {:induction false} RoundsProgress(s: State, rounds: seq<seq<Tid>>, t: Tid)
    requires Inv(s) && !s.killed && Unblocked(s, t) && |rounds| > Rank(s, t)
    requires forall k | 0 <= k < |rounds| :: t in rounds[k]
    ensures Progress(s, Rounds(s, rounds))
    decreases |rounds|
  {
    var s1 := Run(s, rounds[0]);
    RoundProgress(s, rounds[0], t);
    RunInv(s, rounds[0]);
    RunMonotone(s, rounds[0]);
    if Progress(s, s1) {
      RoundsMonotone(s1, rounds[1..]);
    } else {
      RoundsProgress(s1, rounds[1..], t);
    }
  }

  lemma {:induction false} RoundsAppend(s: State, a: seq<seq<Tid>>, b: seq<seq<Tid>>)
    ensures Rounds(s, a + b) == Rounds(Rounds(s, a), b)
    decreases |a|
  {
    if a == [] {
      assert a + b == b;
    } else {
      assert (a + b)[0] == a[0] && (a + b)[1..] == a[1..] + b;
      RoundsAppend(Run(s, a[0]), a[1..], b);
    }
  }

  /** Every thread is scheduled at least once in the round, in any order and any number of times. */
  ghost predicate Fair(n: nat, round: seq<Tid>) {
    forall i: nat | i < n :: Writer(i) in round && Reader(i) in round
  }

  lemma PhiBound(s: State)
    requires Inv(s)
    ensures Phi(s) <= PhiMax(|s.writers.threads|)
  {
    PositionBound(s.writers);
    PositionBound(s.readers);
  }

  /** Enough fair rounds move an unfinished system on, whoever is scheduled how often. */
  lemma FairProgress(s: State, rounds: seq<seq<Tid>>)
    requires Inv(s) && !s.killed && !AllExited(s)
    requires |rounds| > 2 * |s.writers.threads|
    requires forall k | 0 <= k < |rounds| :: Fair(|s.writers.threads|, rounds[k])
    ensures Progress(s, Rounds(s, rounds))
  {
    var t := NoDeadlock(s);
    RoundsProgress(s, rounds, t);
  }

  /** budget + 1 batches of m rounds each. */
  ghost function Batches(budget: nat, m: nat): (r: nat)
    ensures r == (budget + 1) * m
  {
    if budget == 0 then m else m + Batches(budget - 1, m)
  }

  lemma {:induction false} RoundsFinish(s: State, rounds: seq<seq<Tid>>, budget: nat, m: nat)
    requires Inv(s) && Phi(s) + budget >= PhiMax(|s.writers.threads|)
    requires m == 2 * |s.writers.threads| + 1 && |rounds| >= Batches(budget, m)
    requires forall k | 0 <= k < |rounds| :: Fair(|s.writers.threads|, rounds[k])
    ensures var s' := Rounds(s, rounds); s'.killed || AllExited(s')
    decreases budget
  {
    if s.killed {
      RoundsMonotone(s, rounds);
    } else if AllExited(s) {
      RoundsStayExited(s, rounds);
    } else {
      var a, b := rounds[..m], rounds[m..];
      FairProgress(s, a);
      assert rounds == a + b;
      RoundsAppend(s, a, b);
      RoundsInv(s, a);
      var s1 := Rounds(s, a);
      if s1.killed {
        RoundsMonotone(s1, b);
      } else {
        PhiBound(s1);
        RoundsFinish(s1, b, budget - 1, m);
      }
    }
  }

  lemma {:induction false} RunStaysExited(s: State, schedule: seq<Tid>)
    requires AllExited(s)
    ensures Run(s, schedule) == s
    decreases |schedule|
  {
    if schedule != [] {
      RunStaysExited(s, schedule[1..]);
    }
  }

  lemma {:induction false} RoundsStayExited(s: State, rounds: seq<seq<Tid>>)
    requires AllExited(s)
    ensures Rounds(s, rounds) == s
    decreases |rounds|
  {
    if rounds != [] {
      RunStaysExited(s, rounds[0]);
      RoundsStayExited(s, rounds[1..]);
    }
  }

  /** When every thread is gone, every writer's message has been read, exactly once and
      in the order of writing, by as many different readers. */
  lemma ExitedDelivered(s: State)
    requires Inv(s) && AllExited(s)
    ensures s.received == s.sent && s.written == 0 && s.counter == 0
    ensures |s.sent| == |s.writers.threads| && Distinct(s.sent)
    ensures forall i | 0 <= i < |s.writers.threads| :: i in s.received && i in s.receivers
  {
    RosterSize(s.sent, |s.writers.threads|);
    RosterSize(s.receivers, |s.writers.threads|);
  }

  /** Fair runs end: after a bounded number of rounds, in each of which every thread is
      scheduled at least once, either the counter check has killed the process or all
      threads are gone and all messages are delivered. */
  lemma FairTermination(n: nat, rounds: seq<seq<Tid>>)
    requires |rounds| >= (PhiMax(n) + 1) * (2 * n + 1)
    requires forall k | 0 <= k < |rounds| :: Fair(n, rounds[k])
    ensures var s := Rounds(Init(n), rounds);
            s.killed || (AllExited(s) && s.received == s.sent && forall i | 0 <= i < n :: i in s.received)
  {
    InitInv(n);
    RoundsFinish(Init(n), rounds, PhiMax(n), 2 * n + 1);
    RoundsInv(Init(n), rounds);
    var s := Rounds(Init(n), rounds);
    if !s.killed {
      ExitedDelivered(s);
    }
  }
}
