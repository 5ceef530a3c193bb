/**
Whether the buffer protocol comes to an end, and with all items consumed: the number of
steps a run can take, the states it can end in, and which configurations can fail.
*/
module BufferCompletion {
  import opened BoundedBuffer
  import opened BufferSafety

  // -------------------------------------------------------------- what completes

  ghost predicate Enabled(c: Config, s: State, a: Actor) {
    match a
    case Prod(i) =>
      && i < |s.producers| && !s.producers[i].PExit?
      && (s.producers[i].PEmpty? ==> s.emptyslot > 0) && (s.producers[i].PLock? ==> s.mutex > 0)
    case Cons(i) =>
      && i < |s.consumers| && !s.consumers[i].CExit?
      && (s.consumers[i].CStock? ==> s.stock > 0) && (s.consumers[i].CLock? ==> s.mutex > 0)
    case Main => ProducersDone(s) && s.posted < c.consumers - 1
  }

  /** All threads have ended. */
  ghost predicate Final(c: Config, s: State) {
    && ProducersDone(s) && s.posted == c.consumers - 1
    && forall i | 0 <= i < |s.consumers| :: s.consumers[i].CExit?
  }

  /** No thread can step. */
  ghost predicate Stuck(c: Config, s: State) {
    forall a :: !Enabled(c, s, a)
  }

  /** All threads have ended with every item consumed, once and in order. */
  ghost predicate Complete(c: Config, s: State) {
    Final(c, s) && s.consumeNum == s.itemNum == c.items && s.taken == Numbers(c.items)
  }

  /** A single consumer waits for stock only while items are missing, as nobody else
      changes what it has read. */
  ghost predicate Lone(c: Config, s: State) {
    c.consumers == 1 && |s.consumers| == 1 ==>
      var p := s.consumers[0];
      && (p.CStock? || p.CLock? || p.CTest? ==> s.consumeNum < c.items)
      && (p.CItem? ==> p.consumed == s.consumeNum)
  }

  /** A single producer is in its loop only while items are missing. */
  ghost predicate LoneProducer(c: Config, s: State) {
    c.producers == 1 && |s.producers| == 1 ==>
      var p := s.producers[0];
      p.PEmpty? || p.PLock? || p.PTest? ==> s.itemNum < c.items
  }

  /** Once everything is consumed the end flag is up. */
  lemma ConsumedMeansEnded(c: Config, s: State)
    requires Inv(c, s) && s.consumeNum == c.items
    ensures s.endFlag == 1
  {
    if s.endFlag == 0 {
      var k :| 0 <= k < |s.producers| && (s.producers[k].PStore? || s.producers[k].PEnd?);
      SumAtLeast(s.producers, k, PFresh);
      SumNonNegative(s.consumers, CToken);
      assert false;
    }
  }

  lemma StepLone(c: Config, s: State, a: Actor)
    requires Inv(c, s) && Lone(c, s)
    ensures Lone(c, Step(c, s, a))
  {
    if c.consumers == 1 && a == Cons(0) {
      assert ConsumerOk(c, s, s.consumers[0]);
      if s.consumeNum == c.items {
        ConsumedMeansEnded(c, s);
      }
    }
  }

  /** If no producer and no consumer can step, none is inside a section or holds a token. */
  lemma NobodyInside(c: Config, s: State)
    requires Inv(c, s)
    requires forall i: nat | i < |s.producers| :: !Enabled(c, s, Prod(i))
    requires forall i: nat | i < |s.consumers| :: !Enabled(c, s, Cons(i))
    ensures s.mutex == 1
    ensures s.emptyslot + (s.itemNum - s.consumeNum) == c.size
    ensures s.stock == (s.itemNum - s.consumeNum) + s.posted
  {
    forall i: nat | i < |s.producers|
      ensures PLocked(s.producers[i]) == 0
    {
      assert !Enabled(c, s, Prod(i));
    }
    forall i: nat | i < |s.consumers|
      ensures CLocked(s.consumers[i]) == 0
    {
      assert !Enabled(c, s, Cons(i));
    }
    SumZero(s.producers, PLocked);
    SumZero(s.consumers, CLocked);
    forall i: nat | i < |s.producers|
      ensures PSlot(s.producers[i]) == PFresh(s.producers[i]) == 0
    {
      assert !Enabled(c, s, Prod(i));
    }
    forall i: nat | i < |s.consumers|
      ensures CToken(s.consumers[i]) == CFreeing(s.consumers[i]) == 0
    {
      assert !Enabled(c, s, Cons(i));
    }
    SumZero(s.producers, PSlot);
    SumZero(s.producers, PFresh);
    SumZero(s.consumers, CToken);
    SumZero(s.consumers, CFreeing);
  }

  // -------------------------------------------------------------- how long it takes

  /** The steps a producer has ahead of it in its current round, at most; last says that
      the last item has been counted. */
  function PRank(p: Producer, last: bool): nat {
    match p
    case PStore => 15
    case PEnd => 14
    case PStock => 13
    case PUnlock => if last then 2 else 10
    case PGuard => if last then 1 else 9
    case PEmpty => 8
    case PLock => 7
    case PTest => 6
    case PInc => 5
    case PBack => 5
    case PExit => 0
  }

  /** The same for a consumer; last says that the last item has been consumed. The guard
      in three reads takes two steps more. */
  function CRank(c: Config, p: Consumer, last: bool): nat {
    var more := if c.atomicGuard then 0 else 2;
    match p
    case CEmpty => 14 + more
    case CUnlock => (if last then 2 else 13) + more
    case CGuard => (if last then 1 else 12) + more
    case CItem(consumed) => if consumed == c.items then 2 else 13
    case CEnd(_) => if last then 1 else 12
    case CStock => 11
    case CLock => 10
    case CTest => 9
    case CTake => 8
    case CBack => 8
    case CCount => 7
    case CExit(_) => 0
  }

  ghost function PRanks(ps: seq<Producer>, last: bool): nat {
    if ps == [] then 0 else PRanks(ps[..|ps| - 1], last) + PRank(ps[|ps| - 1], last)
  }

  ghost function CRanks(c: Config, cs: seq<Consumer>, last: bool): nat {
    if cs == [] then 0 else CRanks(c, cs[..|cs| - 1], last) + CRank(c, cs[|cs| - 1], last)
  }

  lemma {:induction false} PRanksUpdate(ps: seq<Producer>, i: nat, p: Producer, last: bool)
    requires i < |ps|
    ensures PRanks(ps[i := p], last) == PRanks(ps, last) - PRank(ps[i], last) + PRank(p, last)
  {
    var m := |ps| - 1;
    if i < m {
      PRanksUpdate(ps[..m], i, p, last);
      assert ps[i := p][..m] == ps[..m][i := p];
    } else {
      assert ps[i := p][..m] == ps[..m];
    }
  }

  lemma {:induction false} CRanksUpdate(c: Config, cs: seq<Consumer>, i: nat, p: Consumer, last: bool)
    requires i < |cs|
    ensures CRanks(c, cs[i := p], last) == CRanks(c, cs, last) - CRank(c, cs[i], last) + CRank(c, p, last)
  {
    var m := |cs| - 1;
    if i < m {
      CRanksUpdate(c, cs[..m], i, p, last);
      assert cs[i := p][..m] == cs[..m][i := p];
    } else {
      assert cs[i := p][..m] == cs[..m];
    }
  }

  lemma {:induction false} PRanksLast(ps: seq<Producer>)
    ensures PRanks(ps, true) <= PRanks(ps, false)
  {
    if ps != [] {
      PRanksLast(ps[..|ps| - 1]);
    }
  }

  lemma {:induction false} CRanksLast(c: Config, cs: seq<Consumer>)
    ensures CRanks(c, cs, true) <= CRanks(c, cs, false)
  {
    if cs != [] {
      CRanksLast(c, cs[..|cs| - 1]);
    }
  }

  /** An upper bound on the steps still possible. */
  ghost function Budget(c: Config, s: State): int {
    11 * (c.items - s.itemNum) + 10 * (c.items - s.consumeNum) + (c.consumers - 1 - s.posted)
    + PRanks(s.producers, s.itemNum == c.items) + CRanks(c, s.consumers, s.consumeNum == c.items)
  }

  lemma ProducerBudget(c: Config, s: State, i: nat)
    requires Inv(c, s) && Enabled(c, s, Prod(i))
    ensures Budget(c, ProducerStep(c, s, i)) < Budget(c, s)
  {
    var p := ProducerNext(c, s, s.producers[i]);
    var last := s.itemNum == c.items;
    assert ProducerOk(c, s, s.producers[i]);
    PRanksUpdate(s.producers, i, p, last);
    if s.producers[i].PInc? {
      PRanksLast(s.producers[i := p]);
    }
  }

  /** Away from the counting of an item, a consumer's step uses up its rank. */
  lemma CRankStep(c: Config, s: State, p: Consumer)
    requires ConsumerOk(c, s, p) && !p.CCount? && !p.CExit?
    requires s.consumeNum <= s.itemNum <= c.items
    requires s.consumeNum == c.items ==> s.endFlag == 1
    requires (p.CStock? ==> s.stock > 0) && (p.CLock? ==> s.mutex > 0)
    ensures var last := s.consumeNum == c.items;
            CRank(c, ConsumerNext(c, s, p), last) < CRank(c, p, last)
  {}

  lemma ConsumerBudget(c: Config, s: State, i: nat)
    requires Inv(c, s) && Enabled(c, s, Cons(i))
    ensures Budget(c, ConsumerStep(c, s, i)) < Budget(c, s)
  {
    var p := ConsumerNext(c, s, s.consumers[i]);
    var last := s.consumeNum == c.items;
    assert ConsumerOk(c, s, s.consumers[i]);
    CRanksUpdate(c, s.consumers, i, p, last);
    if s.consumers[i].CCount? {
      CRanksLast(c, s.consumers[i := p]);
    } else {
      if last {
        ConsumedMeansEnded(c, s);
      }
      CRankStep(c, s, s.consumers[i]);
    }
  }

  lemma StepBudget(c: Config, s: State, a: Actor)
    requires Inv(c, s) && Enabled(c, s, a)
    ensures Budget(c, Step(c, s, a)) < Budget(c, s)
  {
    match a
    case Prod(i) => ProducerBudget(c, s, i);
    case Cons(i) => ConsumerBudget(c, s, i);
    case Main =>
  }

  /** Every scheduled step is a step the thread can make then. */
  ghost predicate Effective(c: Config, s: State, schedule: seq<Actor>)
    requires c.size > 0
    decreases |schedule|
  {
    schedule == [] ||
    (|s.ring| == c.size && Enabled(c, s, schedule[0]) && Effective(c, Step(c, s, schedule[0]), schedule[1..]))
  }

  /** With either guard, each step of such a run spends from a budget no step adds to. */
  lemma {:induction false} EffectiveRun(c: Config, s: State, schedule: seq<Actor>)
    requires Inv(c, s) && Effective(c, s, schedule)
    ensures |schedule| + Budget(c, Run(c, s, schedule)) <= Budget(c, s)
    decreases |schedule|
  {
    if schedule == [] {
      assert Run(c, s, schedule) == s;
    } else {
      StepInv(c, s, schedule[0]);
      StepBudget(c, s, schedule[0]);
      EffectiveRun(c, Step(c, s, schedule[0]), schedule[1..]);
    }
  }

  lemma {:induction false} PRanksInit(k: nat)
    ensures PRanks(seq(k, _ => PGuard), false) == 9 * k
  {
    if k > 0 {
      PRanksInit(k - 1);
      assert seq(k, _ => PGuard)[..k - 1] == seq(k - 1, _ => PGuard);
    }
  }

  lemma {:induction false} CRanksInit(c: Config, k: nat)
    ensures CRanks(c, seq(k, _ => CGuard), false) == (if c.atomicGuard then 12 else 14) * k
  {
    if k > 0 {
      CRanksInit(c, k - 1);
      assert seq(k, _ => CGuard)[..k - 1] == seq(k - 1, _ => CGuard);
    }
  }

  // ----------------------------------------------------------- where a run can end

  /** On its way from counting the last item to the end, having seen it counted. */
  predicate Witness(c: Config, p: Consumer) {
    match p
    case CEmpty => true
    case CUnlock => true
    case CGuard => true
    case CItem(consumed) => consumed == c.items
    case CEnd(seen) => seen == c.items
    case CExit(seen) => seen == c.items
    case _ => false
  }

  ghost predicate LastTaker(c: Config, s: State) {
    s.consumeNum == c.items ==> exists i :: 0 <= i < |s.consumers| && Witness(c, s.consumers[i])
  }

  lemma StepLastTaker(c: Config, s: State, a: Actor)
    requires Inv(c, s) && LastTaker(c, s)
    ensures LastTaker(c, Step(c, s, a))
  {
    var s' := Step(c, s, a);
    if s'.consumeNum == c.items {
      if s.consumeNum == c.items {
        var k :| 0 <= k < |s.consumers| && Witness(c, s.consumers[k]);
        ConsumedMeansEnded(c, s);
        assert ConsumerOk(c, s, s.consumers[k]);
        assert Witness(c, s'.consumers[k]);
      } else {
        assert Witness(c, s'.consumers[a.i]);
      }
    }
  }

  /** What runs keep besides the invariant. */
  ghost predicate Kept(c: Config, s: State) {
    Lone(c, s) && LoneProducer(c, s) && LastTaker(c, s)
  }

  lemma {:induction false} RunKeeps(c: Config, s: State, schedule: seq<Actor>)
    requires Inv(c, s) && Kept(c, s)
    ensures Kept(c, Run(c, s, schedule))
    decreases |schedule|
  {
    if schedule != [] {
      var a := schedule[0];
      StepInv(c, s, a);
      StepLone(c, s, a);
      StepLastTaker(c, s, a);
      RunKeeps(c, Step(c, s, a), schedule[1..]);
    }
  }

  /** Where nobody can step, nobody is inside a section. */
  lemma StuckPlaces(c: Config, s: State)
    requires Inv(c, s) && Stuck(c, s)
    ensures s.mutex == 1 && s.emptyslot + (s.itemNum - s.consumeNum) == c.size
    ensures s.stock == (s.itemNum - s.consumeNum) + s.posted
    ensures forall i | 0 <= i < |s.producers| :: s.producers[i].PExit? || (s.producers[i].PEmpty? && s.emptyslot == 0)
    ensures forall i | 0 <= i < |s.consumers| :: s.consumers[i].CExit? || (s.consumers[i].CStock? && s.stock == 0)
    ensures ProducersDone(s) ==> s.posted == c.consumers - 1
  {
    NobodyInside(c, s);
    forall i: nat | i < |s.producers|
      ensures s.producers[i].PExit? || (s.producers[i].PEmpty? && s.emptyslot == 0)
    {
      assert !Enabled(c, s, Prod(i));
    }
    forall i: nat | i < |s.consumers|
      ensures s.consumers[i].CExit? || (s.consumers[i].CStock? && s.stock == 0)
    {
      assert !Enabled(c, s, Cons(i));
    }
    assert !Enabled(c, s, Main);
  }

  /** A run that can go no further, with either guard: the consumers have left and all items
      have been made. Either all producers have left too, or the ring is full and one of at
      least two producers waits for a slot for ever. */
  lemma StuckShape(c: Config, s: State)
    requires Inv(c, s) && Kept(c, s) && Stuck(c, s)
    ensures (forall i | 0 <= i < |s.consumers| :: s.consumers[i].CExit?) && s.itemNum == c.items
    ensures Final(c, s) <==> ProducersDone(s)
    ensures !ProducersDone(s) ==> s.emptyslot == 0 && s.itemNum - s.consumeNum == c.size && c.producers >= 2
    ensures s.mutex == 1 && s.emptyslot + (s.itemNum - s.consumeNum) == c.size
    ensures s.stock == (s.itemNum - s.consumeNum) + s.posted
  {
    StuckPlaces(c, s);
    assert ProducerOk(c, s, s.producers[0]);
    assert forall i | 0 <= i < |s.consumers| :: s.consumers[i].CExit?;
    assert ConsumerOk(c, s, s.consumers[0]);
  }

  lemma QuietNumbers(c: Config, s: State)
    requires Inv(c, s) && s.consumeNum == c.items && forall i | 0 <= i < |s.consumers| :: s.consumers[i].CExit?
    ensures s.taken == Numbers(c.items)
  {
    SumZero(s.consumers, CReading);
  }

  /** It is complete exactly if some consumer left after reading the full count of items, and
      then all tokens are back but those of the shutdown. */
  lemma CompleteIff(c: Config, s: State)
    requires Inv(c, s) && Kept(c, s) && Stuck(c, s)
    ensures Complete(c, s) <==> exists i :: 0 <= i < |s.consumers| && s.consumers[i] == CExit(c.items)
    ensures c.atomicGuard ==> Complete(c, s)
    ensures Complete(c, s) ==> s.mutex == 1 && s.emptyslot == c.size && s.stock == c.consumers - 1
  {
    StuckShape(c, s);
    assert ConsumerOk(c, s, s.consumers[0]);
    if i :| 0 <= i < |s.consumers| && s.consumers[i] == CExit(c.items) {
      assert ConsumerOk(c, s, s.consumers[i]);
      QuietNumbers(c, s);
    }
    if Complete(c, s) {
      var k :| 0 <= k < |s.consumers| && Witness(c, s.consumers[k]);
      assert s.consumers[k] == CExit(c.items);
    }
  }

  /** Completion, with either guard: no run makes more than a fixed number of steps, and one
      that cannot go on is complete exactly if a consumer has read the full count of items;
      with the guard in one step it always is. */
  lemma Completion(c: Config, schedule: seq<Actor>)
    requires Ok(c) && Effective(c, Init(c), schedule)
    ensures |schedule| <= 21 * c.items + 9 * c.producers + (if c.atomicGuard then 13 else 15) * c.consumers
    ensures var s := Run(c, Init(c), schedule);
            Stuck(c, s) ==>
              && (Complete(c, s) <==> exists i :: 0 <= i < |s.consumers| && s.consumers[i] == CExit(c.items))
              && (c.atomicGuard ==> Complete(c, s))
  {
    InitInv(c);
    RunInv(c, Init(c), schedule);
    EffectiveRun(c, Init(c), schedule);
    PRanksInit(c.producers);
    CRanksInit(c, c.consumers);
    RunKeeps(c, Init(c), schedule);
    if Stuck(c, Run(c, Init(c), schedule)) {
      CompleteIff(c, Run(c, Init(c), schedule));
    }
  }
}
