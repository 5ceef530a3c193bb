/** Shortest job first spends the least time waiting. */
module ShortestJob {
  import opened ReadyOrder

  /** When each task of s completes if they run one after another from time now on. */
  function Completions(s: seq<Task>, now: int): seq<int> {
    if s == [] then []
    else [now + s[0].WCT] + Completions(s[1..], now + s[0].WCT)
  }

  /** Completion minus run time, added up over the tasks. */
  function Waiting(s: seq<Task>, completions: seq<int>): int
    requires |completions| == |s|
  {
    if s == [] then 0 else (completions[0] - s[0].WCT) + Waiting(s[1..], completions[1..])
  }

  lemma CompletionsLength(s: seq<Task>, now: int)
    ensures |Completions(s, now)| == |s|
  {}

  function TotalWaiting(s: seq<Task>): int {
    CompletionsLength(s, 0);
    Waiting(s, Completions(s, 0))
  }

  /** Each task delays all those behind it. */
  ghost function Delay(s: seq<Task>): int {
    if s == [] then 0 else (|s| - 1) * s[0].WCT + Delay(s[1..])
  }

  lemma {:induction false} WaitingIsDelay(s: seq<Task>, now: int)
    ensures |Completions(s, now)| == |s|
    ensures Waiting(s, Completions(s, now)) == |s| * now + Delay(s)
  {
    if s != [] {
      var w := s[0].WCT;
      WaitingIsDelay(s[1..], now + w);
      assert Completions(s, now)[1..] == Completions(s[1..], now + w);
      assert (|s| - 1) * (now + w) == (|s| - 1) * now + (|s| - 1) * w;
    }
  }

  /** Running a shortest task earlier does not lengthen the delay. */
  lemma {:induction false} MoveForward(a: seq<Task>, x: Task, b: seq<Task>)
    requires forall i | 0 <= i < |a| :: x.WCT <= a[i].WCT
    ensures |a| * x.WCT + |b| * x.WCT + Delay(a + b) <= Delay(a + [x] + b)
  {
    if a == [] {
      assert a + b == b && a + [x] + b == [x] + b;
    } else {
      var y, t := a[0], a[1..];
      MoveForward(t, x, b);
      assert a + b == [y] + (t + b);
      assert a + [x] + b == [y] + (t + [x] + b);
      Distribute(|t|, 1, x.WCT);
      Distribute(|t + b|, 1, y.WCT);
    }
  }

  lemma TakeOut<T>(p: seq<T>, x: T) returns (a: seq<T>, b: seq<T>)
    requires x in p
    ensures p == a + [x] + b && multiset(p) == multiset(a + b) + multiset{x}
    ensures forall j | 0 <= j < |a| :: a[j] in p
  {
    var i :| 0 <= i < |p| && p[i] == x;
    a, b := p[..i], p[i + 1..];
    assert p == a + [x] + b;
  }

  /** The first of an ordered sequence is least in any permutation of it. */
  lemma FirstIsLeast(s: seq<Task>, p: seq<Task>)
    requires InOrder(false, s) && multiset(p) == multiset(s) && s != []
    ensures s[0] in p && forall t <- p :: s[0].WCT <= t.WCT
  {
    assert s[0] in multiset(p);
    forall t <- p
      ensures s[0].WCT <= t.WCT
    {
      assert t in multiset(s);
      var j :| 0 <= j < |s| && s[j] == t;
      assert j > 0 ==> Rank(false, s[0]) <= Rank(false, s[j]);
    }
  }

  /** What is left of two permutations when each gives up the same element. */
  lemma Rest<T>(s: seq<T>, t: seq<T>, x: T, r: seq<T>)
    requires multiset(t) + multiset{x} == multiset(s)
    requires s == [x] + r || s == r + [x]
    ensures multiset(t) == multiset(r)
  {
    assert multiset(s) == multiset{x} + multiset(r);
    assert multiset(t) == multiset(s) - multiset{x};
  }

  lemma Distribute(m: int, n: int, w: int)
    ensures (m + n) * w == m * w + n * w
  {}

  /** Tasks in order of run time delay each other least among all their permutations. */
  lemma {:induction false} SortedDelayLeast(s: seq<Task>, p: seq<Task>)
    requires InOrder(false, s) && multiset(p) == multiset(s)
    ensures |p| == |s| && Delay(s) <= Delay(p)
    decreases |s|
  {
    assert |multiset(p)| == |multiset(s)|;
    if s != [] {
      FirstIsLeast(s, p);
      var a, b := TakeOut(p, s[0]);
      Rest(s, a + b, s[0], s[1..]);
      SortedDelayLeast(s[1..], a + b);
      MoveForward(a, s[0], b);
      Distribute(|a|, |b|, s[0].WCT);
    }
  }

  /** A batch pushed before the first pop. */
  function Batch(tasks: seq<Task>): (ops: seq<Op>)
    ensures |ops| == |tasks| && AllPushes(ops)
  {
    seq(|tasks|, i requires 0 <= i < |tasks| => Push(tasks[i]))
  }

  lemma {:induction false} BatchArrives(tasks: seq<Task>)
    ensures var s := Run(PemSJF, Batch(tasks)); s.arrived == tasks && s.popped == []
  {
    if tasks != [] {
      var init := tasks[..|tasks| - 1];
      BatchArrives(init);
      assert Batch(tasks)[..|tasks| - 1] == Batch(init);
      assert tasks == init + [tasks[|tasks| - 1]];
    }
  }

  /** The state n pops later. */
  function Popping(policy: Policy, s: State, n: nat): State
    requires policy != PemPriority
  {
    if n == 0 then s else Apply(policy, Popping(policy, s, n - 1), Pop)
  }

  function Taken(s: State, n: nat): State
    requires n <= |s.queue|
  {
    State(s.queue[n..], s.popped + s.queue[..n], s.arrived)
  }

  /** Popping runs the queue front to back. */
  lemma {:induction false} Drained(policy: Policy, s: State, n: nat)
    requires policy != PemPriority && n <= |s.queue|
    ensures Popping(policy, s, n) == Taken(s, n)
  {
    if n == 0 {
      assert s.popped + s.queue[..0] == s.popped;
    } else {
      Drained(policy, s, n - 1);
    }
  }

  /** The order shortest job first runs a batch in. */
  function Order(tasks: seq<Task>): seq<Task> {
    Popping(PemSJF, Run(PemSJF, Batch(tasks)), |tasks|).popped
  }

  lemma BatchQueued(tasks: seq<Task>)
    ensures var s := Run(PemSJF, Batch(tasks));
            && s.popped == [] && |s.queue| == |tasks|
            && multiset(s.queue) == multiset(tasks) && InOrder(false, s.queue)
  {
    var s := Run(PemSJF, Batch(tasks));
    BatchArrives(tasks);
    RunMembers(PemSJF, Batch(tasks));
    RunOrdered(PemSJF, Batch(tasks));
    assert multiset(s.queue) == multiset(tasks);
    assert |multiset(s.queue)| == |multiset(tasks)|;
  }

  lemma TakenAll(s: State)
    requires s.popped == []
    ensures Taken(s, |s.queue|) == State([], s.queue, s.arrived)
  {
    assert [] + s.queue[..|s.queue|] == s.queue;
  }

  lemma OrderSorts(tasks: seq<Task>)
    ensures multiset(Order(tasks)) == multiset(tasks) && InOrder(false, Order(tasks))
    ensures Popping(PemSJF, Run(PemSJF, Batch(tasks)), |tasks|).queue == []
  {
    var s := Run(PemSJF, Batch(tasks));
    BatchQueued(tasks);
    Drained(PemSJF, s, |tasks|);
    TakenAll(s);
  }

  /** No other order of a batch has a smaller total waiting time. */
  lemma ShortestJobOptimal(tasks: seq<Task>, other: seq<Task>)
    requires multiset(other) == multiset(tasks)
    ensures TotalWaiting(Order(tasks)) <= TotalWaiting(other)
  {
    OrderSorts(tasks);
    SortedDelayLeast(Order(tasks), other);
    WaitingIsDelay(Order(tasks), 0);
    WaitingIsDelay(other, 0);
  }

  // ------------------------------------------------------- the reported average

  /** A thread with the time from its arrival to its end, in microseconds. */
  datatype Finished = Finished(task: Task, lastingTime: int)

  const MICROSECONDS := 1_000_000
  const NUM_OF_THREAD_NUM := 3

  /** Division that truncates toward zero. */
  function Truncated(x: int, n: nat): int
    requires n > 0
  {
    if x >= 0 then x / n else -(-x / n)
  }

  function Waited(t: Finished): int {
    t.lastingTime - t.task.WCT * MICROSECONDS
  }

  function SumWaited(threads: seq<Finished>): int {
    if threads == [] then 0 else SumWaited(threads[..|threads| - 1]) + Waited(threads[|threads| - 1])
  }

  method CalAverWaitTime(threads: seq<Finished>) returns (average: int)
    ensures average == Truncated(SumWaited(threads), NUM_OF_THREAD_NUM)
  {
    var sumTime := 0;
    for i := 0 to |threads|
      invariant sumTime == SumWaited(threads[..i])
    {
      assert threads[..i + 1][..i] == threads[..i];
      sumTime := sumTime + threads[i].lastingTime - threads[i].task.WCT * MICROSECONDS;
    }
    assert threads[..|threads|] == threads;
    average := Truncated(sumTime, NUM_OF_THREAD_NUM);
  }

  lemma {:induction false} SumWaitedConcat(s: seq<Finished>, t: seq<Finished>)
    ensures SumWaited(s + t) == SumWaited(s) + SumWaited(t)
  {
    if t == [] {
      assert s + t == s;
    } else {
      SumWaitedConcat(s, t[..|t| - 1]);
      assert (s + t)[..|s + t| - 1] == s + t[..|t| - 1];
    }
  }

  /** The order the threads are listed in does not matter. */
  lemma {:induction false} SumWaitedPermuted(s: seq<Finished>, t: seq<Finished>)
    requires multiset(s) == multiset(t)
    ensures SumWaited(s) == SumWaited(t)
    decreases |s|
  {
    if s == [] {
      assert |multiset(t)| == 0;
    } else {
      var x, rest := s[|s| - 1], s[..|s| - 1];
      assert s == rest + [x];
      assert x in multiset(t);
      var a, b := TakeOut(t, x);
      Rest(s, a + b, x, rest);
      SumWaitedPermuted(rest, a + b);
      SumWithout(a, x, b);
    }
  }

  lemma SumWithout(a: seq<Finished>, x: Finished, b: seq<Finished>)
    ensures SumWaited(a + [x] + b) == SumWaited(a + b) + Waited(x)
  {
    SumWaitedConcat(a, b);
    SumWaitedConcat(a + [x], b);
    SumWaitedConcat(a, [x]);
  }

  /** The threads of a batch that arrived at time 0 and ran in the order s. */
  ghost function Timed(s: seq<Task>, now: int): seq<Finished> {
    if s == [] then []
    else [Finished(s[0], (now + s[0].WCT) * MICROSECONDS)] + Timed(s[1..], now + s[0].WCT)
  }

  lemma {:induction false} TimedWaiting(s: seq<Task>, now: int)
    ensures |Completions(s, now)| == |s|
    ensures SumWaited(Timed(s, now)) == MICROSECONDS * Waiting(s, Completions(s, now))
  {
    if s != [] {
      var f := Finished(s[0], (now + s[0].WCT) * MICROSECONDS);
      TimedWaiting(s[1..], now + s[0].WCT);
      SumWaitedConcat([f], Timed(s[1..], now + s[0].WCT));
      assert Completions(s, now)[1..] == Completions(s[1..], now + s[0].WCT);
    }
  }

  /** So the average reported for shortest job first is least, whatever order the threads
      are listed in. */
  lemma LeastAverage(tasks: seq<Task>, other: seq<Task>, listed: seq<Finished>, listedOther: seq<Finished>)
    requires multiset(other) == multiset(tasks)
    requires multiset(listed) == multiset(Timed(Order(tasks), 0))
    requires multiset(listedOther) == multiset(Timed(other, 0))
    ensures Truncated(SumWaited(listed), NUM_OF_THREAD_NUM) <= Truncated(SumWaited(listedOther), NUM_OF_THREAD_NUM)
  {
    ShortestJobOptimal(tasks, other);
    TimedWaiting(Order(tasks), 0);
    TimedWaiting(other, 0);
    SumWaitedPermuted(listed, Timed(Order(tasks), 0));
    SumWaitedPermuted(listedOther, Timed(other, 0));
  }
}
