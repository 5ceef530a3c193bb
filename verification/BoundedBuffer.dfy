/**
Producers and consumers share a ring under two counting semaphores and a mutex, and
the producer process ends the consumers with extra posts of the stock semaphore. A
step is one semaphore operation or one access to the shared control block; the two
private accesses to the ring inside a locked section are one step with the index.
*/
module BoundedBuffer {

  /** With atomicGuard the consumer's loop condition is read in one step, else its three
      fields are read one after the other, without the mutex, as the program does. */
  datatype Config = Config(size: nat, items: nat, producers: nat, consumers: nat, atomicGuard: bool)

  ghost predicate Ok(c: Config) {
    c.size > 0 && c.items > 0 && c.producers > 0 && c.consumers > 0
  }

  datatype Producer =
    | PGuard | PEmpty | PLock | PTest | PInc | PStore | PEnd | PStock | PBack | PUnlock | PExit

  /** CItem carries the consume_num the split guard has read; CEnd and CExit carry the
      item_num the consumer read last. */
  datatype Consumer =
    | CGuard | CItem(consumed: int) | CEnd(seen: int)
    | CStock | CLock | CTest | CTake | CCount | CEmpty | CBack | CUnlock | CExit(seen: int)

  datatype Actor = Prod(i: nat) | Cons(i: nat) | Main

  /** taken records the item numbers read from the ring, in order. */
  datatype State = State(
    mutex: int,
    stock: int,
    emptyslot: int,
    itemNum: int,
    consumeNum: int,
    enqueue: int,
    dequeue: int,
    endFlag: int,
    ring: seq<int>,
    posted: int,
    producers: seq<Producer>,
    consumers: seq<Consumer>,
    taken: seq<int>)

  function Init(c: Config): State {
    State(1, 0, c.size, 0, 0, 0, 0, 0, seq(c.size, _ => 0), 0,
          seq(c.producers, _ => PGuard), seq(c.consumers, _ => CGuard), [])
  }

  // -------------------------------------------------------------------- steps

  /** Where a producer at p goes; a wait on a semaphore that is not positive stays. */
  function ProducerNext(c: Config, s: State, p: Producer): Producer {
    match p
    case PGuard => if s.itemNum < c.items then PEmpty else PExit
    case PEmpty => if s.emptyslot > 0 then PLock else PEmpty
    case PLock => if s.mutex > 0 then PTest else PLock
    case PTest => if s.itemNum < c.items then PInc else PBack
    case PInc => PStore
    case PStore => PEnd
    case PEnd => PStock
    case PStock => PUnlock
    case PBack => PUnlock
    case PUnlock => PGuard
    case PExit => PExit
  }

  /** What the step of a producer at p does to the shared block. */
  function ProducerEffect(c: Config, s: State, p: Producer): State
    requires c.size > 0 && |s.ring| == c.size
  {
    match p
    case PEmpty => if s.emptyslot > 0 then s.(emptyslot := s.emptyslot - 1) else s
    case PLock => if s.mutex > 0 then s.(mutex := s.mutex - 1) else s
    case PInc => s.(itemNum := s.itemNum + 1)
    case PStore =>
      var e := (s.enqueue + 1) % c.size;
      s.(enqueue := e, ring := s.ring[e := s.itemNum])
    case PEnd => if s.itemNum == c.items then s.(endFlag := 1) else s
    case PStock => s.(stock := s.stock + 1)
    case PBack => s.(emptyslot := s.emptyslot + 1)
    case PUnlock => s.(mutex := s.mutex + 1)
    case _ => s
  }

  function ProducerStep(c: Config, s: State, i: nat): State
    requires c.size > 0 && |s.ring| == c.size && i < |s.producers|
  {
    var p := s.producers[i];
    ProducerEffect(c, s, p).(producers := s.producers[i := ProducerNext(c, s, p)])
  }

  function ConsumerNext(c: Config, s: State, p: Consumer): Consumer {
    match p
    case CGuard =>
      if !c.atomicGuard then CItem(s.consumeNum)
      else if s.consumeNum < s.itemNum || s.endFlag == 0 then CStock else CExit(s.itemNum)
    case CItem(consumed) => if consumed < s.itemNum then CStock else CEnd(s.itemNum)
    case CEnd(seen) => if s.endFlag == 0 then CStock else CExit(seen)
    case CStock => if s.stock > 0 then CLock else CStock
    case CLock => if s.mutex > 0 then CTest else CLock
    case CTest => if s.consumeNum < s.itemNum then CTake else CBack
    case CTake => CCount
    case CCount => CEmpty
    case CEmpty => CUnlock
    case CBack => CUnlock
    case CUnlock => CGuard
    case CExit(seen) => CExit(seen)
  }

  function ConsumerEffect(c: Config, s: State, p: Consumer): State
    requires c.size > 0 && |s.ring| == c.size
  {
    match p
    case CStock => if s.stock > 0 then s.(stock := s.stock - 1) else s
    case CLock => if s.mutex > 0 then s.(mutex := s.mutex - 1) else s
    case CTake =>
      var d := (s.dequeue + 1) % c.size;
      s.(dequeue := d, taken := s.taken + [s.ring[d]])
    case CCount => s.(consumeNum := s.consumeNum + 1)
    case CEmpty => s.(emptyslot := s.emptyslot + 1)
    case CBack => s.(stock := s.stock + 1)
    case CUnlock => s.(mutex := s.mutex + 1)
    case _ => s
  }

  function ConsumerStep(c: Config, s: State, i: nat): State
    requires c.size > 0 && |s.ring| == c.size && i < |s.consumers|
  {
    var p := s.consumers[i];
    ConsumerEffect(c, s, p).(consumers := s.consumers[i := ConsumerNext(c, s, p)])
  }

  predicate ProducersDone(s: State) {
    forall i | 0 <= i < |s.producers| :: s.producers[i].PExit?
  }

  /** The main thread of the producer process joins all producers, then posts stock once
      for every consumer but one. */
  function MainStep(c: Config, s: State): State {
    if ProducersDone(s) && s.posted < c.consumers - 1
    then s.(stock := s.stock + 1, posted := s.posted + 1)
    else s
  }

  function Step(c: Config, s: State, a: Actor): State
    requires c.size > 0 && |s.ring| == c.size
  {
    match a
    case Prod(i) => if i < |s.producers| then ProducerStep(c, s, i) else s
    case Cons(i) => if i < |s.consumers| then ConsumerStep(c, s, i) else s
    case Main => MainStep(c, s)
  }

  // -------------------------------------------------------------------- counts

  ghost function Sum<T(!new)>(s: seq<T>, w: T -> int): int {
    if s == [] then 0 else Sum(s[..|s| - 1], w) + w(s[|s| - 1])
  }

  lemma {:induction false} SumUpdate<T(!new)>(s: seq<T>, i: nat, x: T, w: T -> int)
    requires i < |s|
    ensures Sum(s[i := x], w) == Sum(s, w) - w(s[i]) + w(x)
  {
    var m := |s| - 1;
    if i < m {
      SumUpdate(s[..m], i, x, w);
      assert s[i := x][..m] == s[..m][i := x];
    } else {
      assert s[i := x][..m] == s[..m];
    }
  }

  /** Non-negative weights: the sum is at least each of them, and any two of them. */
  lemma {:induction false} SumAtLeast<T(!new)>(s: seq<T>, i: nat, w: T -> int)
    requires i < |s| && forall x :: w(x) >= 0
    ensures Sum(s, w) >= w(s[i])
    ensures forall j | 0 <= j < |s| && j != i :: Sum(s, w) >= w(s[i]) + w(s[j])
  {
    SumNonNegative(s, w);
    var m := |s| - 1;
    SumNonNegative(s[..m], w);
    if i < m {
      SumAtLeast(s[..m], i, w);
    } else {
      forall j: nat | j < m
        ensures Sum(s, w) >= w(s[i]) + w(s[j])
      {
        SumAtLeast(s[..m], j, w);
      }
    }
  }

  lemma {:induction false} SumNonNegative<T(!new)>(s: seq<T>, w: T -> int)
    requires forall x :: w(x) >= 0
    ensures Sum(s, w) >= 0
  {
    if s != [] {
      SumNonNegative(s[..|s| - 1], w);
    }
  }

  lemma {:induction false} SumZero<T(!new)>(s: seq<T>, w: T -> int)
    requires forall i | 0 <= i < |s| :: w(s[i]) == 0
    ensures Sum(s, w) == 0
  {
    if s != [] {
      SumZero(s[..|s| - 1], w);
    }
  }

  function One(b: bool): int {
    if b then 1 else 0
  }

  /** Producer weights: inside the locked section; holding a slot not yet filled; having
      counted an item that is not yet in stock; having counted it but not stored it. */
  function PLocked(p: Producer): int {
    One(p.PTest? || p.PInc? || p.PStore? || p.PEnd? || p.PStock? || p.PBack? || p.PUnlock?)
  }

  function PSlot(p: Producer): int {
    One(p.PLock? || p.PTest? || p.PInc? || p.PBack?)
  }

  function PFresh(p: Producer): int {
    One(p.PStore? || p.PEnd? || p.PStock?)
  }

  function PStoring(p: Producer): int {
    One(p.PStore?)
  }

  /** Consumer weights: inside the locked section; holding a stock token; having read an
      item without counting it; having counted it without giving its slot back. */
  function CLocked(p: Consumer): int {
    One(p.CTest? || p.CTake? || p.CCount? || p.CEmpty? || p.CBack? || p.CUnlock?)
  }

  function CToken(p: Consumer): int {
    One(p.CLock? || p.CTest? || p.CTake? || p.CCount? || p.CBack?)
  }

  function CReading(p: Consumer): int {
    One(p.CCount?)
  }

  function CFreeing(p: Consumer): int {
    One(p.CEmpty?)
  }

  // ---------------------------------------------------------------- invariant

  ghost predicate Shape(c: Config, s: State) {
    Ok(c) && |s.ring| == c.size && |s.producers| == c.producers && |s.consumers| == c.consumers
  }

  /** Token conservation: every slot and every stock token is accounted for. */
  ghost predicate Tokens(c: Config, s: State) {
    && s.emptyslot >= 0 && s.stock >= 0 && s.mutex >= 0
    && 1 == s.mutex + Sum(s.producers, PLocked)
            + Sum(s.consumers, CLocked)
    && c.size == s.emptyslot + Sum(s.producers, PSlot)
                 + (s.itemNum - s.consumeNum) + Sum(s.consumers, CFreeing)
    && s.itemNum - s.consumeNum == s.stock - s.posted
                                   + Sum(s.consumers, CToken) + Sum(s.producers, PFresh)
  }

  ghost predicate ProducerOk(c: Config, s: State, p: Producer) {
    && (p.PInc? ==> s.itemNum < c.items)
    && (p.PExit? || p.PBack? ==> s.itemNum == c.items)
  }

  ghost predicate ConsumerOk(c: Config, s: State, p: Consumer) {
    && (c.atomicGuard ==> !p.CItem? && !p.CEnd?)
    && (p.CTake? || p.CCount? ==> s.consumeNum < s.itemNum)
    && (p.CItem? ==> p.consumed <= s.consumeNum)
    && (p.CEnd? || p.CExit? ==> (p.seen == c.items ==> s.consumeNum == c.items))
    && (p.CExit? ==> s.endFlag == 1 && (c.atomicGuard ==> p.seen == c.items))
    && (p.CBack? ==> s.consumeNum == c.items)
  }

  /** Progress counters and the end flag. */
  ghost predicate Counters(c: Config, s: State) {
    && 0 <= s.consumeNum <= s.itemNum <= c.items
    && 0 <= s.posted <= c.consumers - 1
    && (s.posted > 0 ==> ProducersDone(s))
    && (s.endFlag == 0 || s.endFlag == 1)
    && (s.endFlag == 1 ==> s.itemNum == c.items)
    && (s.itemNum == c.items && s.endFlag == 0 ==> Ending(s))
  }

  /** The producer of the last item is about to raise the flag. */
  ghost predicate Ending(s: State) {
    exists i :: 0 <= i < |s.producers| && (s.producers[i].PStore? || s.producers[i].PEnd?)
  }

  ghost predicate Positions(c: Config, s: State) {
    && (forall i | 0 <= i < |s.producers| :: ProducerOk(c, s, s.producers[i]))
    && (forall i | 0 <= i < |s.consumers| :: ConsumerOk(c, s, s.consumers[i]))
  }

  /** 1, 2, ..., k */
  function Numbers(k: int): seq<int> {
    if k <= 0 then [] else Numbers(k - 1) + [k]
  }

  lemma {:induction false} NumbersMeaning(k: int)
    ensures k >= 0 ==> |Numbers(k)| == k
    ensures forall i | 0 <= i < |Numbers(k)| :: Numbers(k)[i] == i + 1
  {
    if k > 0 {
      NumbersMeaning(k - 1);
    }
  }

  /** The ring index of item k: its number modulo the ring size. */
  ghost function Slot(size: nat, k: int): (r: int)
    requires size > 0 && k >= 0
    ensures 0 <= r < size
  {
    if k < size then k else Slot(size, k - size)
  }

  lemma {:induction false} SlotIsModulo(size: nat, k: int)
    requires size > 0 && k >= 0
    ensures Slot(size, k) == k % size
  {
    if k >= size {
      SlotIsModulo(size, k - size);
      ModShift(k, size);
    }
  }

  lemma {:induction false} MulAtLeast(m: nat, d: int)
    requires d >= 1
    ensures m * d >= m
  {
    if d > 1 {
      MulAtLeast(m, d - 1);
      assert m * d == m * (d - 1) + m;
    }
  }

  lemma MulGap(m: nat, a: int, b: int)
    requires a < b
    ensures m * a + m <= m * b
  {
    MulAtLeast(m, b - a);
    assert m * b == m * a + m * (b - a);
  }

  lemma RemainderUnique(x: int, m: nat, q: int, r: int, q': int, r': int)
    requires m > 0 && x == m * q + r && 0 <= r < m
    requires x == m * q' + r' && 0 <= r' < m
    ensures r == r'
  {
    if q < q' {
      MulGap(m, q, q');
    } else if q' < q {
      MulGap(m, q', q);
    }
  }

  lemma ModShift(k: int, m: nat)
    requires m > 0
    ensures k % m == (k - m) % m
  {
    var q := (k - m) / m;
    assert m * (q + 1) == m * q + m;
    RemainderUnique(k, m, k / m, k % m, q + 1, (k - m) % m);
  }

  lemma {:induction false} SlotStep(size: nat, k: int)
    requires size > 0 && k >= 0
    ensures Slot(size, k + 1) == if Slot(size, k) + 1 == size then 0 else Slot(size, k) + 1
    ensures Slot(size, k + 1) == (Slot(size, k) + 1) % size
  {
    if k >= size {
      SlotStep(size, k - size);
    }
  }

  /** Fewer than size apart, different items have different slots. */
  lemma {:induction false} SlotDistinct(size: nat, j: int, k: int)
    requires size > 0 && 0 <= j < k < j + size
    ensures Slot(size, j) != Slot(size, k)
  {
    if j >= size {
      SlotDistinct(size, j - size, k - size);
    }
  }

  /** Items stored and not yet read sit at their number modulo the ring size, and the
      items read so far are 1, 2, 3, ... */
  ghost predicate Window(size: nat, enqueue: int, dequeue: int, ring: seq<int>, stored: int, read: int) {
    && 0 < size == |ring| && 0 <= read && 0 <= stored
    && enqueue == Slot(size, stored)
    && dequeue == Slot(size, read)
    && forall k | read < k <= stored :: ring[Slot(size, k)] == k
  }

  ghost function Stored(s: State): int {
    s.itemNum - Sum(s.producers, PStoring)
  }

  ghost function Read(s: State): int {
    s.consumeNum + Sum(s.consumers, CReading)
  }

  ghost predicate Ring(c: Config, s: State) {
    && Window(c.size, s.enqueue, s.dequeue, s.ring, Stored(s), Read(s))
    && s.taken == Numbers(Read(s))
  }

  ghost predicate Inv(c: Config, s: State) {
    && Shape(c, s)
    && Tokens(c, s)
    && Counters(c, s)
    && Positions(c, s)
    && Ring(c, s)
  }

  lemma InitInv(c: Config)
    requires Ok(c)
    ensures Inv(c, Init(c))
  {
    var s := Init(c);
    SumZero(s.producers, PLocked);
    SumZero(s.producers, PSlot);
    SumZero(s.producers, PFresh);
    SumZero(s.producers, PStoring);
    SumZero(s.consumers, CLocked);
    SumZero(s.consumers, CToken);
    SumZero(s.consumers, CReading);
    SumZero(s.consumers, CFreeing);
  }

  // --------------------------------------------------------- mutual exclusion

  lemma {:induction false} SumSole<T(!new)>(s: seq<T>, i: nat, w: T -> int)
    requires i < |s| && forall j | 0 <= j < |s| && j != i :: w(s[j]) == 0
    ensures Sum(s, w) == w(s[i])
  {
    var m := |s| - 1;
    if i < m {
      SumSole(s[..m], i, w);
    } else {
      SumZero(s[..m], w);
    }
  }

  /** A producer in the locked section is alone there. */
  lemma ProducerAlone(c: Config, s: State, i: nat)
    requires Tokens(c, s) && i < |s.producers| && PLocked(s.producers[i]) == 1
    ensures s.mutex == 0
    ensures forall j | 0 <= j < |s.producers| && j != i :: PLocked(s.producers[j]) == 0
    ensures forall j | 0 <= j < |s.consumers| :: CLocked(s.consumers[j]) == 0
    ensures Sum(s.producers, PStoring) == PStoring(s.producers[i])
    ensures Sum(s.producers, PFresh) == PFresh(s.producers[i])
    ensures Sum(s.consumers, CReading) == 0 && Sum(s.consumers, CFreeing) == 0
  {
    SumAtLeast(s.producers, i, PLocked);
    SumNonNegative(s.consumers, CLocked);
    forall j | 0 <= j < |s.consumers|
      ensures CLocked(s.consumers[j]) == 0
    {
      SumAtLeast(s.consumers, j, CLocked);
    }
    assert forall j | 0 <= j < |s.producers| && j != i :: PLocked(s.producers[j]) == 0;
    SumSole(s.producers, i, PStoring);
    SumSole(s.producers, i, PFresh);
    SumZero(s.consumers, CReading);
    SumZero(s.consumers, CFreeing);
  }

  /** A consumer in the locked section is alone there. */
  lemma ConsumerAlone(c: Config, s: State, i: nat)
    requires Tokens(c, s) && i < |s.consumers| && CLocked(s.consumers[i]) == 1
    ensures s.mutex == 0
    ensures forall j | 0 <= j < |s.consumers| && j != i :: CLocked(s.consumers[j]) == 0
    ensures forall j | 0 <= j < |s.producers| :: PLocked(s.producers[j]) == 0
    ensures Sum(s.consumers, CReading) == CReading(s.consumers[i])
    ensures Sum(s.consumers, CFreeing) == CFreeing(s.consumers[i])
    ensures Sum(s.producers, PStoring) == 0 && Sum(s.producers, PFresh) == 0
  {
    SumAtLeast(s.consumers, i, CLocked);
    SumNonNegative(s.producers, PLocked);
    forall j | 0 <= j < |s.producers|
      ensures PLocked(s.producers[j]) == 0
    {
      SumAtLeast(s.producers, j, PLocked);
    }
    assert forall j | 0 <= j < |s.consumers| && j != i :: CLocked(s.consumers[j]) == 0;
    SumSole(s.consumers, i, CReading);
    SumSole(s.consumers, i, CFreeing);
    SumZero(s.producers, PStoring);
    SumZero(s.producers, PFresh);
  }

  // ------------------------------------------------------------------ producers

  lemma ProducerTokens(c: Config, s: State, i: nat)
    requires Shape(c, s) && Tokens(c, s) && i < |s.producers|
    ensures Tokens(c, ProducerStep(c, s, i))
  {
    var p := ProducerNext(c, s, s.producers[i]);
    SumUpdate(s.producers, i, p, PLocked);
    SumUpdate(s.producers, i, p, PSlot);
    SumUpdate(s.producers, i, p, PFresh);
  }

  lemma ProducerCounters(c: Config, s: State, i: nat)
    requires Shape(c, s) && Counters(c, s) && i < |s.producers| && ProducerOk(c, s, s.producers[i])
    ensures Counters(c, ProducerStep(c, s, i))
  {
    var s' := ProducerStep(c, s, i);
    assert s'.producers[i] == ProducerNext(c, s, s.producers[i]);
    if Ending(s) && s'.endFlag == 0 {
      var k :| 0 <= k < |s.producers| && (s.producers[k].PStore? || s.producers[k].PEnd?);
      assert s'.itemNum == c.items ==> s'.producers[k].PStore? || s'.producers[k].PEnd?;
    }
  }

  lemma ProducerPositions(c: Config, s: State, i: nat)
    requires Shape(c, s) && Tokens(c, s) && Counters(c, s) && Positions(c, s) && i < |s.producers|
    ensures Positions(c, ProducerStep(c, s, i))
  {
    var s' := ProducerStep(c, s, i);
    if s.producers[i].PInc? {
      ProducerAlone(c, s, i);
    }
    forall j | 0 <= j < |s.producers|
      ensures ProducerOk(c, s', s'.producers[j])
    {
      assert ProducerOk(c, s, s.producers[j]) && ProducerOk(c, s, s.producers[i]);
    }
    forall j | 0 <= j < |s.consumers|
      ensures ConsumerOk(c, s', s'.consumers[j])
    {
      assert ConsumerOk(c, s, s.consumers[j]);
    }
  }

  lemma WindowStore(size: nat, enqueue: int, dequeue: int, ring: seq<int>, stored: int, read: int)
    requires Window(size, enqueue, dequeue, ring, stored, read) && stored < read + size
    ensures var e := (enqueue + 1) % size;
            Window(size, e, dequeue, ring[e := stored + 1], stored + 1, read)
  {
    SlotStep(size, stored);
    forall k | read < k <= stored
      ensures Slot(size, k) != Slot(size, stored + 1)
    {
      SlotDistinct(size, k, stored + 1);
    }
  }

  lemma StoreRing(c: Config, s: State, i: nat)
    requires Shape(c, s) && Tokens(c, s) && Ring(c, s) && i < |s.producers| && s.producers[i].PStore?
    ensures Ring(c, ProducerStep(c, s, i))
  {
    SumUpdate(s.producers, i, PEnd, PStoring);
    ProducerAlone(c, s, i);
    SumNonNegative(s.producers, PSlot);
    WindowStore(c.size, s.enqueue, s.dequeue, s.ring, Stored(s), Read(s));
  }

  /** Counting an item and marking it as not yet stored happen together. */
  lemma ProducerRing(c: Config, s: State, i: nat)
    requires |s.ring| == c.size > 0 && Ring(c, s) && i < |s.producers| && !s.producers[i].PStore?
    ensures Ring(c, ProducerStep(c, s, i))
  {
    SumUpdate(s.producers, i, ProducerNext(c, s, s.producers[i]), PStoring);
    assert Stored(ProducerStep(c, s, i)) == Stored(s);
    assert Read(ProducerStep(c, s, i)) == Read(s);
  }

  lemma ProducerInv(c: Config, s: State, i: nat)
    requires Inv(c, s) && i < |s.producers|
    ensures Inv(c, ProducerStep(c, s, i))
  {
    ProducerTokens(c, s, i);
    assert ProducerOk(c, s, s.producers[i]);
    ProducerCounters(c, s, i);
    ProducerPositions(c, s, i);
    if s.producers[i].PStore? {
      StoreRing(c, s, i);
    } else {
      ProducerRing(c, s, i);
    }
  }

  // ------------------------------------------------------------------ consumers

  lemma ConsumerTokens(c: Config, s: State, i: nat)
    requires Shape(c, s) && Tokens(c, s) && i < |s.consumers|
    ensures Tokens(c, ConsumerStep(c, s, i))
  {
    var p := ConsumerNext(c, s, s.consumers[i]);
    SumUpdate(s.consumers, i, p, CLocked);
    SumUpdate(s.consumers, i, p, CToken);
    SumUpdate(s.consumers, i, p, CFreeing);
  }

  /** Before the extra posts, a consumer that holds the mutex and a token finds an item. */
  lemma TokenMeansItem(c: Config, s: State, i: nat)
    requires Shape(c, s) && Tokens(c, s) && Counters(c, s) && Positions(c, s)
    requires i < |s.consumers| && s.consumers[i].CTest?
    ensures s.consumeNum < s.itemNum || (s.posted > 0 && s.consumeNum == c.items)
  {
    ConsumerAlone(c, s, i);
    SumAtLeast(s.consumers, i, CToken);
    if s.consumeNum == s.itemNum {
      assert ProducerOk(c, s, s.producers[0]);
    }
  }

  lemma ConsumerPositions(c: Config, s: State, i: nat)
    requires Shape(c, s) && Tokens(c, s) && Counters(c, s) && Positions(c, s) && i < |s.consumers|
    ensures Positions(c, ConsumerStep(c, s, i))
  {
    var s' := ConsumerStep(c, s, i);
    if s.consumers[i].CTest? {
      TokenMeansItem(c, s, i);
    }
    if s.consumers[i].CCount? {
      ConsumerAlone(c, s, i);
    }
    forall j | 0 <= j < |s.producers|
      ensures ProducerOk(c, s', s'.producers[j])
    {
      assert ProducerOk(c, s, s.producers[j]);
    }
    forall j | 0 <= j < |s.consumers|
      ensures ConsumerOk(c, s', s'.consumers[j])
    {
      assert ConsumerOk(c, s, s.consumers[j]) && ConsumerOk(c, s, s.consumers[i]);
    }
  }

  lemma TakeRing(c: Config, s: State, i: nat)
    requires Shape(c, s) && Tokens(c, s) && Ring(c, s) && i < |s.consumers| && s.consumers[i].CTake?
    requires s.consumeNum < s.itemNum
    ensures Ring(c, ConsumerStep(c, s, i))
  {
    SumUpdate(s.consumers, i, CCount, CReading);
    ConsumerAlone(c, s, i);
    SlotStep(c.size, Read(s));
    assert s.ring[Slot(c.size, Read(s) + 1)] == Read(s) + 1;
  }

  lemma ConsumerRing(c: Config, s: State, i: nat)
    requires |s.ring| == c.size > 0 && Ring(c, s) && i < |s.consumers| && !s.consumers[i].CTake?
    ensures Ring(c, ConsumerStep(c, s, i))
  {
    SumUpdate(s.consumers, i, ConsumerNext(c, s, s.consumers[i]), CReading);
    assert Stored(ConsumerStep(c, s, i)) == Stored(s);
    assert Read(ConsumerStep(c, s, i)) == Read(s);
  }

  lemma ConsumerInv(c: Config, s: State, i: nat)
    requires Inv(c, s) && i < |s.consumers|
    ensures Inv(c, ConsumerStep(c, s, i))
  {
    ConsumerTokens(c, s, i);
    assert ConsumerOk(c, s, s.consumers[i]);
    ConsumerPositions(c, s, i);
    if s.consumers[i].CTake? {
      assert ConsumerOk(c, s, s.consumers[i]);
      TakeRing(c, s, i);
    } else {
      ConsumerRing(c, s, i);
    }
  }
}
