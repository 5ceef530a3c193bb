/** What holds in every run of the buffer protocol, with either way of reading the guard. */
module BufferSafety {
  import opened BoundedBuffer

  /** Every step of every thread keeps the invariant. */
  lemma StepInv(c: Config, s: State, a: Actor)
    requires Inv(c, s)
    ensures Inv(c, Step(c, s, a))
  {
    match a
    case Prod(i) =>
      if i < |s.producers| {
        ProducerInv(c, s, i);
      }
    case Cons(i) =>
      if i < |s.consumers| {
        ConsumerInv(c, s, i);
      }
    case Main =>
      var s' := MainStep(c, s);
      assert forall i | 0 <= i < |s.producers| ::
               ProducerOk(c, s, s.producers[i]) ==> ProducerOk(c, s', s.producers[i]);
      assert forall i | 0 <= i < |s.consumers| ::
               ConsumerOk(c, s, s.consumers[i]) ==> ConsumerOk(c, s', s.consumers[i]);
  }

  // ---------------------------------------------------------------- what is safe

  ghost function Run(c: Config, s: State, schedule: seq<Actor>): State
    requires c.size > 0
    decreases |schedule|
  {
    if schedule == [] || |s.ring| != c.size then s
    else Run(c, Step(c, s, schedule[0]), schedule[1..])
  }

  lemma {:induction false} RunInv(c: Config, s: State, schedule: seq<Actor>)
    requires Inv(c, s)
    ensures Inv(c, Run(c, s, schedule))
    decreases |schedule|
  {
    if schedule != [] {
      StepInv(c, s, schedule[0]);
      RunInv(c, Step(c, s, schedule[0]), schedule[1..]);
    }
  }

  /** In every run, with either guard: the items read are 1, 2, 3, ... in this order, each
      once, never more than were produced, and never more than the ring size behind. */
  lemma InOrderExactlyOnce(c: Config, schedule: seq<Actor>)
    requires Ok(c)
    ensures var s := Run(c, Init(c), schedule);
            && s.taken == Numbers(|s.taken|)
            && s.consumeNum <= |s.taken| <= s.itemNum <= c.items
            && s.itemNum - s.consumeNum <= c.size
  {
    InitInv(c);
    RunInv(c, Init(c), schedule);
    var s := Run(c, Init(c), schedule);
    NumbersMeaning(Read(s));
    SumNonNegative(s.consumers, CReading);
    SumNonNegative(s.producers, PSlot);
    SumNonNegative(s.consumers, CFreeing);
    if Sum(s.consumers, CReading) > 0 {
      SomeoneReads(s.consumers);
      var i :| 0 <= i < |s.consumers| && s.consumers[i].CCount?;
      ConsumerAlone(c, s, i);
      assert ConsumerOk(c, s, s.consumers[i]);
    }
  }

  lemma {:induction false} SomeoneReads(cs: seq<Consumer>)
    requires Sum(cs, CReading) > 0
    ensures exists i :: 0 <= i < |cs| && cs[i].CCount?
  {
    if !cs[|cs| - 1].CCount? {
      SomeoneReads(cs[..|cs| - 1]);
    }
  }

  /** Nobody is between a wait and the post that answers it. */
  ghost predicate Quiet(s: State) {
    && (forall i | 0 <= i < |s.producers| ::
          s.producers[i].PGuard? || s.producers[i].PEmpty? || s.producers[i].PExit?)
    && (forall i | 0 <= i < |s.consumers| ::
          CToken(s.consumers[i]) == CFreeing(s.consumers[i]) == CLocked(s.consumers[i]) == 0)
  }

  /** Conservation: with nobody inside a section, slots and items fill the ring exactly
      and the stock semaphore counts the items plus the extra posts. */
  lemma QuietTokens(c: Config, schedule: seq<Actor>)
    requires Ok(c)
    ensures var s := Run(c, Init(c), schedule);
            Quiet(s) ==>
              && s.mutex == 1
              && s.emptyslot + (s.itemNum - s.consumeNum) == c.size
              && s.stock == (s.itemNum - s.consumeNum) + s.posted
  {
    InitInv(c);
    RunInv(c, Init(c), schedule);
    var s := Run(c, Init(c), schedule);
    if Quiet(s) {
      SumZero(s.producers, PLocked);
      SumZero(s.producers, PSlot);
      SumZero(s.producers, PFresh);
      SumZero(s.consumers, CLocked);
      SumZero(s.consumers, CToken);
      SumZero(s.consumers, CFreeing);
    }
  }
}
