/** What the ready queue's insertion policies promise, on sequences of tasks. */
module ReadyOrder {

  /** A thread task: worst case run time, and priority, where larger goes first. */
  datatype Task = Task(id: int, WCT: int, priority: int)

  datatype Policy = FCFS | PemSJF | NotPemSJF | PemPriority | NotPemPriority

  /** Smaller ranks go first. */
  function Rank(byPriority: bool, t: Task): int {
    if byPriority then -t.priority else t.WCT
  }

  /** Put x in front of the first task that must wait for it. */
  function Place(byPriority: bool, q: seq<Task>, x: Task): (r: seq<Task>)
    ensures |r| == |q| + 1
  {
    if q == [] || Rank(byPriority, q[0]) > Rank(byPriority, x) then [x] + q
    else [q[0]] + Place(byPriority, q[1..], x)
  }

  /** The same, never in front of the task that runs. */
  function PlaceBehind(byPriority: bool, q: seq<Task>, x: Task): (r: seq<Task>)
    ensures |r| == |q| + 1
    ensures q != [] ==> r[0] == q[0]
  {
    if q == [] then [x] else [q[0]] + Place(byPriority, q[1..], x)
  }

  ghost predicate InOrder(byPriority: bool, q: seq<Task>) {
    forall i, j | 0 <= i < j < |q| :: Rank(byPriority, q[i]) <= Rank(byPriority, q[j])
  }

  lemma {:induction false} PlaceMembers(byPriority: bool, q: seq<Task>, x: Task)
    ensures multiset(Place(byPriority, q, x)) == multiset(q) + multiset{x}
  {
    if q != [] && Rank(byPriority, q[0]) <= Rank(byPriority, x) {
      PlaceMembers(byPriority, q[1..], x);
      assert q == [q[0]] + q[1..];
    }
  }

  lemma {:induction false} PlaceOrdered(byPriority: bool, q: seq<Task>, x: Task)
    requires InOrder(byPriority, q)
    ensures InOrder(byPriority, Place(byPriority, q, x))
  {
    if q != [] && Rank(byPriority, q[0]) <= Rank(byPriority, x) {
      PlaceOrdered(byPriority, q[1..], x);
      PlaceMembers(byPriority, q[1..], x);
      var r := Place(byPriority, q[1..], x);
      forall i | 0 <= i < |r|
        ensures Rank(byPriority, q[0]) <= Rank(byPriority, r[i])
      {
        assert r[i] in multiset(r);
        assert r[i] == x || r[i] in q[1..];
      }
    }
  }

  /** The tasks of one rank, in queue order. */
  ghost function OfRank(byPriority: bool, q: seq<Task>, rank: int): seq<Task> {
    if q == [] then []
    else Those(byPriority, q[0], rank) + OfRank(byPriority, q[1..], rank)
  }

  function Those(byPriority: bool, x: Task, rank: int): seq<Task> {
    if Rank(byPriority, x) == rank then [x] else []
  }

  lemma OfRankFront(byPriority: bool, x: Task, q: seq<Task>, rank: int)
    ensures OfRank(byPriority, [x] + q, rank) == Those(byPriority, x, rank) + OfRank(byPriority, q, rank)
  {
    assert ([x] + q)[1..] == q;
  }

  lemma {:induction false} OfRankBack(byPriority: bool, q: seq<Task>, x: Task, rank: int)
    ensures OfRank(byPriority, q + [x], rank) == OfRank(byPriority, q, rank) + Those(byPriority, x, rank)
  {
    if q == [] {
      assert q + [x] == [x] + q;
      OfRankFront(byPriority, x, q, rank);
    } else {
      OfRankBack(byPriority, q[1..], x, rank);
      assert (q + [x])[1..] == q[1..] + [x];
    }
  }

  lemma {:induction false} NoneOfRank(byPriority: bool, q: seq<Task>, rank: int)
    requires forall i | 0 <= i < |q| :: Rank(byPriority, q[i]) > rank
    ensures OfRank(byPriority, q, rank) == []
  {
    if q != [] {
      NoneOfRank(byPriority, q[1..], rank);
    }
  }

  /** A newcomer joins behind the tasks of its rank; the other ranks do not notice. */
  lemma {:induction false} PlaceStable(byPriority: bool, q: seq<Task>, x: Task, rank: int)
    requires InOrder(byPriority, q)
    ensures OfRank(byPriority, Place(byPriority, q, x), rank)
         == OfRank(byPriority, q, rank) + Those(byPriority, x, rank)
  {
    if q != [] && Rank(byPriority, q[0]) <= Rank(byPriority, x) {
      PlaceStable(byPriority, q[1..], x, rank);
      OfRankFront(byPriority, q[0], Place(byPriority, q[1..], x), rank);
    } else {
      OfRankFront(byPriority, x, q, rank);
      if rank == Rank(byPriority, x) {
        NoneOfRank(byPriority, q, rank);
      }
    }
  }

  // -------------------------------------------------------------------- runs

  datatype Op = Push(task: Task) | Pop

  /** What is queued, what has left, and all that came, each in order. */
  datatype State = State(queue: seq<Task>, popped: seq<Task>, arrived: seq<Task>)

  /** The queue a push leaves, for the four policies that place a task correctly. */
  function Pushed(policy: Policy, q: seq<Task>, x: Task): seq<Task>
    requires policy != PemPriority
  {
    match policy
    case FCFS => q + [x]
    case PemSJF => Place(false, q, x)
    case NotPemSJF => PlaceBehind(false, q, x)
    case NotPemPriority => PlaceBehind(true, q, x)
  }

  function Apply(policy: Policy, s: State, op: Op): State
    requires policy != PemPriority
  {
    match op
    case Push(x) => State(Pushed(policy, s.queue, x), s.popped, s.arrived + [x])
    case Pop =>
      if s.queue == [] then s else State(s.queue[1..], s.popped + [s.queue[0]], s.arrived)
  }

  function Run(policy: Policy, ops: seq<Op>): State
    requires policy != PemPriority
  {
    if ops == [] then State([], [], [])
    else Apply(policy, Run(policy, ops[..|ops| - 1]), ops[|ops| - 1])
  }

  /** The order each policy keeps its queue in. */
  ghost predicate Ordered(policy: Policy, q: seq<Task>) {
    match policy
    case FCFS => true
    case PemSJF => InOrder(false, q)
    case NotPemSJF => q == [] || InOrder(false, q[1..])
    case PemPriority => InOrder(true, q)
    case NotPemPriority => q == [] || InOrder(true, q[1..])
  }

  lemma PushOrdered(policy: Policy, q: seq<Task>, x: Task)
    requires policy != PemPriority && Ordered(policy, q)
    ensures Ordered(policy, Pushed(policy, q, x))
  {
    match policy
    case FCFS =>
    case PemSJF =>
      PlaceOrdered(false, q, x);
    case NotPemSJF =>
      if q != [] {
        PlaceOrdered(false, q[1..], x);
      }
    case NotPemPriority =>
      if q != [] {
        PlaceOrdered(true, q[1..], x);
      }
  }

  lemma {:induction false} RunOrdered(policy: Policy, ops: seq<Op>)
    requires policy != PemPriority
    ensures Ordered(policy, Run(policy, ops).queue)
  {
    if ops != [] {
      var s := Run(policy, ops[..|ops| - 1]);
      RunOrdered(policy, ops[..|ops| - 1]);
      match ops[|ops| - 1]
      case Push(x) => PushOrdered(policy, s.queue, x);
      case Pop =>
    }
  }

  /** Once a task leaves, the one that runs next is least among all that wait. */
  lemma NextIsLeast(policy: Policy, ops: seq<Op>, k: int)
    requires policy != PemPriority && policy != FCFS
    requires ops != [] && ops[|ops| - 1] == Pop
    requires 0 <= k < |Run(policy, ops).queue|
    ensures var q := Run(policy, ops).queue;
            var prio := policy == NotPemPriority;
            Rank(prio, q[0]) <= Rank(prio, q[k])
  {
    RunOrdered(policy, ops[..|ops| - 1]);
  }

  lemma PushStable(policy: Policy, q: seq<Task>, x: Task, rank: int)
    requires policy != PemPriority && Ordered(policy, q)
    ensures OfRank(policy == NotPemPriority, Pushed(policy, q, x), rank)
         == OfRank(policy == NotPemPriority, q, rank) + Those(policy == NotPemPriority, x, rank)
  {
    var prio := policy == NotPemPriority;
    if policy == FCFS {
      OfRankBack(prio, q, x, rank);
    } else if policy == PemSJF {
      PlaceStable(prio, q, x, rank);
    } else if q == [] {
      OfRankBack(prio, q, x, rank);
      assert q + [x] == [x];
    } else {
      PlaceStable(prio, q[1..], x, rank);
      OfRankFront(prio, q[0], Place(prio, q[1..], x), rank);
    }
  }

  /** The tasks of a rank that have left, and those that queue. */
  ghost function Passage(policy: Policy, s: State, rank: int): seq<Task> {
    OfRank(policy == NotPemPriority, s.popped, rank) + OfRank(policy == NotPemPriority, s.queue, rank)
  }

  lemma PopStable(policy: Policy, s: State, rank: int)
    requires policy != PemPriority
    ensures Passage(policy, Apply(policy, s, Pop), rank) == Passage(policy, s, rank)
  {
    if s.queue != [] {
      OfRankBack(policy == NotPemPriority, s.popped, s.queue[0], rank);
    }
  }

  /** The tasks of any one rank leave and queue in the order they came. */
  lemma {:induction false} TiesInArrivalOrder(policy: Policy, ops: seq<Op>, rank: int)
    requires policy != PemPriority
    ensures var s := Run(policy, ops);
            Passage(policy, s, rank) == OfRank(policy == NotPemPriority, s.arrived, rank)
  {
    if ops != [] {
      var s := Run(policy, ops[..|ops| - 1]);
      TiesInArrivalOrder(policy, ops[..|ops| - 1], rank);
      match ops[|ops| - 1]
      case Push(x) =>
        RunOrdered(policy, ops[..|ops| - 1]);
        PushStable(policy, s.queue, x, rank);
        OfRankBack(policy == NotPemPriority, s.arrived, x, rank);
      case Pop =>
        PopStable(policy, s, rank);
    }
  }

  lemma PushMembers(policy: Policy, q: seq<Task>, x: Task)
    requires policy != PemPriority
    ensures multiset(Pushed(policy, q, x)) == multiset(q) + multiset{x}
  {
    match policy
    case FCFS =>
    case PemSJF => PlaceMembers(false, q, x);
    case NotPemSJF =>
      if q != [] {
        PlaceMembers(false, q[1..], x);
        assert q == [q[0]] + q[1..];
      }
    case NotPemPriority =>
      if q != [] {
        PlaceMembers(true, q[1..], x);
        assert q == [q[0]] + q[1..];
      }
  }

  lemma ApplyMembers(policy: Policy, s: State, op: Op)
    requires policy != PemPriority && multiset(s.popped) + multiset(s.queue) == multiset(s.arrived)
    ensures var t := Apply(policy, s, op); multiset(t.popped) + multiset(t.queue) == multiset(t.arrived)
  {
    match op
    case Push(x) => PushMembers(policy, s.queue, x);
    case Pop =>
      if s.queue != [] {
        assert s.queue == [s.queue[0]] + s.queue[1..];
      }
  }

  /** Nothing is lost or run twice. */
  lemma {:induction false} RunMembers(policy: Policy, ops: seq<Op>)
    requires policy != PemPriority
    ensures var s := Run(policy, ops); multiset(s.popped) + multiset(s.queue) == multiset(s.arrived)
  {
    if ops != [] {
      RunMembers(policy, ops[..|ops| - 1]);
      ApplyMembers(policy, Run(policy, ops[..|ops| - 1]), ops[|ops| - 1]);
    }
  }

  /** First come, first served. */
  lemma {:induction false} FCFSInOrder(ops: seq<Op>)
    ensures var s := Run(FCFS, ops); s.popped + s.queue == s.arrived
  {
    if ops != [] {
      FCFSInOrder(ops[..|ops| - 1]);
    }
  }

  // ----------------------------------------------------- who runs meanwhile

  ghost predicate AllPushes(ops: seq<Op>) {
    forall i | 0 <= i < |ops| :: ops[i].Push?
  }

  /** Without preemption the task that runs stays in front until it leaves. */
  lemma {:induction false} HeadStays(policy: Policy, ops: seq<Op>, more: seq<Op>)
    requires policy == FCFS || policy == NotPemSJF || policy == NotPemPriority
    requires Run(policy, ops).queue != [] && AllPushes(more)
    ensures Run(policy, ops + more).queue != []
    ensures Run(policy, ops + more).queue[0] == Run(policy, ops).queue[0]
    decreases |more|
  {
    if more == [] {
      assert ops + more == ops;
    } else {
      var init := more[..|more| - 1];
      HeadStays(policy, ops, init);
      assert (ops + more)[..|ops + more| - 1] == ops + init;
      assert more[|more| - 1].Push?;
    }
  }

  // ------------------------------------------------------ preemptive priority

  datatype Outcome = Queued(queue: seq<Task>) | NullDereference

  /** The first task from position i on that has a lower priority than x. */
  function FirstLower(q: seq<Task>, x: Task, i: nat): (p: nat)
    requires i <= |q|
    ensures i <= p <= |q|
    ensures forall j | i <= j < p :: q[j].priority >= x.priority
    ensures p < |q| ==> q[p].priority < x.priority
    decreases |q| - i
  {
    if i < |q| && q[i].priority >= x.priority then FirstLower(q, x, i + 1) else i
  }

  /** The preemptive priority push steps past the task it should stop in front of. */
  function PemPriorityPushed(q: seq<Task>, x: Task): Outcome {
    if q == [] || q[0].priority < x.priority then Queued([x] + q)
    else
      var p := FirstLower(q, x, 1);
      if p == |q| then NullDereference else Queued(q[..p + 1] + [x] + q[p + 1..])
  }

  /** A task goes in at the first place where everything before it may stay. */
  lemma {:induction false} PlaceAt(byPriority: bool, q: seq<Task>, x: Task, p: nat)
    requires p <= |q|
    requires forall j | 0 <= j < p :: Rank(byPriority, q[j]) <= Rank(byPriority, x)
    requires p < |q| ==> Rank(byPriority, q[p]) > Rank(byPriority, x)
    ensures Place(byPriority, q, x) == q[..p] + [x] + q[p..]
  {
    if p > 0 {
      PlaceAt(byPriority, q[1..], x, p - 1);
      assert q[..p] == [q[0]] + q[1..][..p - 1];
    }
  }

  /** It is right exactly when the queue is empty or the newcomer goes to its front. */
  lemma PemPriorityRightIff(q: seq<Task>, x: Task)
    ensures PemPriorityPushed(q, x) == Queued(Place(true, q, x))
       <==> q == [] || x.priority > q[0].priority
  {
    if q != [] && q[0].priority >= x.priority {
      var p := FirstLower(q, x, 1);
      PlaceAt(true, q, x, p);
      if p < |q| {
        assert (q[..p + 1] + [x] + q[p + 1..])[p] == q[p];
        assert (q[..p] + [x] + q[p..])[p] == x;
      }
    }
  }

  /** On an ordered queue it breaks on a task that belongs last, and otherwise leaves the
      newcomer behind a task of lower priority. */
  lemma PemPriorityFailure(q: seq<Task>, x: Task)
    requires InOrder(true, q) && q != [] && x.priority <= q[0].priority
    ensures PemPriorityPushed(q, x) == NullDereference <==> x.priority <= q[|q| - 1].priority
    ensures PemPriorityPushed(q, x).Queued? ==> !InOrder(true, PemPriorityPushed(q, x).queue)
  {
    var p := FirstLower(q, x, 1);
    if p < |q| {
      var r := q[..p + 1] + [x] + q[p + 1..];
      assert r[p] == q[p] && r[p + 1] == x;
      assert p < |q| - 1 ==> Rank(true, q[p]) <= Rank(true, q[|q| - 1]);
    }
  }

  /** One task, and a newcomer of lower priority: the push follows NULL. With another task
      of lower priority behind, the newcomer ends up behind it. */
  lemma PemPriorityFails()
    ensures PemPriorityPushed([Task(1, 10, 2)], Task(2, 5, 1)) == NullDereference
    ensures PemPriorityPushed([Task(1, 10, 2), Task(3, 2, 0)], Task(2, 5, 1))
         == Queued([Task(1, 10, 2), Task(3, 2, 0), Task(2, 5, 1)])
  {}

  /** A run of the preemptive priority policy as the program has it. */
  function PemPriorityRun(ops: seq<Op>): Outcome {
    if ops == [] then Queued([])
    else
      match PemPriorityRun(ops[..|ops| - 1])
      case NullDereference => NullDereference
      case Queued(q) =>
        match ops[|ops| - 1]
        case Push(x) => PemPriorityPushed(q, x)
        case Pop => Queued(if q == [] then [] else q[1..])
  }

  /** The queue the policy is meant to have. */
  function PemPriorityMeant(ops: seq<Op>): seq<Task> {
    if ops == [] then []
    else
      var q := PemPriorityMeant(ops[..|ops| - 1]);
      match ops[|ops| - 1]
      case Push(x) => Place(true, q, x)
      case Pop => if q == [] then [] else q[1..]
  }

  lemma {:induction false} PemPriorityMeantOrdered(ops: seq<Op>)
    ensures InOrder(true, PemPriorityMeant(ops))
  {
    if ops != [] {
      PemPriorityMeantOrdered(ops[..|ops| - 1]);
      match ops[|ops| - 1]
      case Push(x) => PlaceOrdered(true, PemPriorityMeant(ops[..|ops| - 1]), x);
      case Pop =>
    }
  }

  /** After k operations the program has the queue it is meant to have. */
  ghost predicate AsMeant(ops: seq<Op>, k: nat)
    requires k <= |ops|
  {
    PemPriorityRun(ops[..k]) == Queued(PemPriorityMeant(ops[..k]))
  }

  /** Operation k, if a push, meets an empty queue or outranks its head. */
  ghost predicate GoesInFront(ops: seq<Op>, k: nat)
    requires k < |ops|
  {
    var q := PemPriorityMeant(ops[..k]);
    ops[k].Push? ==> q == [] || ops[k].task.priority > q[0].priority
  }

  lemma AsMeantStep(ops: seq<Op>, k: nat)
    requires k < |ops| && AsMeant(ops, k)
    ensures AsMeant(ops, k + 1) <==> GoesInFront(ops, k)
  {
    assert ops[..k + 1][..k] == ops[..k];
    if ops[k].Push? {
      PemPriorityRightIff(PemPriorityMeant(ops[..k]), ops[k].task);
    }
  }

  lemma {:induction false} AsMeantSoFar(ops: seq<Op>, k: nat)
    requires k <= |ops| && forall j: nat | j < k :: GoesInFront(ops, j)
    ensures AsMeant(ops, k)
  {
    if k > 0 {
      AsMeantSoFar(ops, k - 1);
      AsMeantStep(ops, k - 1);
    }
  }

  /** Over any pushes and pops the queue is right all along exactly if every push meets an
      empty queue or outranks its head. */
  lemma PemPriorityRunIff(ops: seq<Op>)
    ensures (forall k: nat | k <= |ops| :: AsMeant(ops, k)) <==> forall k: nat | k < |ops| :: GoesInFront(ops, k)
  {
    if forall k: nat | k <= |ops| :: AsMeant(ops, k) {
      forall k: nat | k < |ops|
        ensures GoesInFront(ops, k)
      {
        assert AsMeant(ops, k + 1);
        AsMeantStep(ops, k);
      }
    }
    if forall k: nat | k < |ops| :: GoesInFront(ops, k) {
      forall k: nat | k <= |ops|
        ensures AsMeant(ops, k)
      {
        AsMeantSoFar(ops, k);
      }
    }
  }
}
