/**
The shared control block of the buffer programs: each method call performs one step
of one thread on its fields and is proved to be the step of the model.
*/
module BufferProgram {
  import opened BoundedBuffer
  import opened BufferSafety
  import opened BufferCompletion

  class ControlBlock {
    const config: Config
    var mutex: int
    var stock: int
    var emptyslot: int
    var itemNum: int
    var consumeNum: int
    var enqueue: int
    var dequeue: int
    var endFlag: int
    var posted: int
    const data: array<int>
    const producers: array<Producer>
    const consumers: array<Consumer>
    ghost var taken: seq<int>

    ghost function Abs(): State
      reads this, data, producers, consumers
    {
      State(mutex, stock, emptyslot, itemNum, consumeNum, enqueue, dequeue, endFlag, data[..], posted,
            producers[..], consumers[..], taken)
    }

    ghost predicate Sized()
      reads this, data, producers, consumers
    {
      config.size > 0 && data.Length == config.size
    }

    ghost predicate Valid()
      reads this, data, producers, consumers
    {
      Inv(config, Abs())
    }

    constructor (c: Config)
      requires Ok(c)
      ensures config == c && Abs() == Init(c) && Valid()
      ensures fresh(data) && fresh(producers) && fresh(consumers)
    {
      config := c;
      mutex, stock, emptyslot := 1, 0, c.size;
      itemNum, consumeNum, enqueue, dequeue, endFlag, posted := 0, 0, 0, 0, 0, 0;
      data := new int[c.size](_ => 0);
      producers := new Producer[c.producers](_ => PGuard);
      consumers := new Consumer[c.consumers](_ => CGuard);
      taken := [];
      new;
      assert data[..] == Init(c).ring;
      assert producers[..] == Init(c).producers;
      assert consumers[..] == Init(c).consumers;
      InitInv(c);
    }

    method ProducerAccess(i: nat)
      requires Sized() && i < producers.Length
      modifies this, data, producers
      ensures Abs() == ProducerStep(config, old(Abs()), i)
    {
      ghost var s := Abs();
      match producers[i] {
        case PGuard =>
          producers[i] := if itemNum < config.items then PEmpty else PExit;
        case PEmpty =>
          if emptyslot > 0 {
            emptyslot := emptyslot - 1;
            producers[i] := PLock;
          }
        case PLock =>
          if mutex > 0 {
            mutex := mutex - 1;
            producers[i] := PTest;
          }
        case PTest =>
          producers[i] := if itemNum < config.items then PInc else PBack;
        case PInc =>
          itemNum := itemNum + 1;
          producers[i] := PStore;
        case PStore =>
          enqueue := (enqueue + 1) % config.size;
          data[enqueue] := itemNum;
          producers[i] := PEnd;
        case PEnd =>
          if itemNum == config.items {
            endFlag := 1;
          }
          producers[i] := PStock;
        case PStock =>
          stock := stock + 1;
          producers[i] := PUnlock;
        case PBack =>
          emptyslot := emptyslot + 1;
          producers[i] := PUnlock;
        case PUnlock =>
          mutex := mutex + 1;
          producers[i] := PGuard;
        case PExit =>
      }
      assert producers[..] == s.producers[i := ProducerNext(config, s, s.producers[i])];
    }

    /** item is the number of the item read from the ring, when one is read. */
    method ConsumerAccess(i: nat) returns (item: int)
      requires Sized() && i < consumers.Length
      modifies this, consumers
      ensures Abs() == ConsumerStep(config, old(Abs()), i)
      ensures old(consumers[i].CTake?) ==> taken == old(taken) + [item]
    {
      ghost var s := Abs();
      item := 0;
      match consumers[i] {
        case CGuard =>
          if config.atomicGuard {
            consumers[i] := if consumeNum < itemNum || endFlag == 0 then CStock else CExit(itemNum);
          } else {
            consumers[i] := CItem(consumeNum);
          }
        case CItem(consumed) =>
          consumers[i] := if consumed < itemNum then CStock else CEnd(itemNum);
        case CEnd(seen) =>
          consumers[i] := if endFlag == 0 then CStock else CExit(seen);
        case CStock =>
          if stock > 0 {
            stock := stock - 1;
            consumers[i] := CLock;
          }
        case CLock =>
          if mutex > 0 {
            mutex := mutex - 1;
            consumers[i] := CTest;
          }
        case CTest =>
          consumers[i] := if consumeNum < itemNum then CTake else CBack;
        case CTake =>
          dequeue := (dequeue + 1) % config.size;
          item := data[dequeue];
          taken := taken + [item];
          consumers[i] := CCount;
        case CCount =>
          consumeNum := consumeNum + 1;
          consumers[i] := CEmpty;
        case CEmpty =>
          emptyslot := emptyslot + 1;
          consumers[i] := CUnlock;
        case CBack =>
          stock := stock + 1;
          consumers[i] := CUnlock;
        case CUnlock =>
          mutex := mutex + 1;
          consumers[i] := CGuard;
        case CExit(_) =>
      }
      assert consumers[..] == s.consumers[i := ConsumerNext(config, s, s.consumers[i])];
    }

    /** One step of a producer thread keeps the protocol's invariant. */
    method Produce(i: nat)
      requires Valid() && i < producers.Length
      modifies this, data, producers
      ensures Valid() && Abs() == Step(config, old(Abs()), Prod(i))
    {
      StepInv(config, Abs(), Prod(i));
      ProducerAccess(i);
    }

    /** One step of a consumer thread keeps the protocol's invariant; an item read from
        the ring is the next one in the order of production. */
    method Consume(i: nat) returns (item: int)
      requires Valid() && i < consumers.Length
      modifies this, consumers
      ensures Valid() && Abs() == Step(config, old(Abs()), Cons(i))
      ensures old(consumers[i].CTake?) ==> item == |old(taken)| + 1
    {
      StepInv(config, Abs(), Cons(i));
      item := ConsumerAccess(i);
      NumbersMeaning(Read(Abs()));
      assert taken == Numbers(Read(Abs()));
      assert old(consumers[i].CTake?) ==> taken[|old(taken)|] == item;
    }

    /** One extra post of the producer process. */
    method Post()
      requires Valid() && Enabled(config, Abs(), Main)
      modifies `stock, `posted
      ensures Valid() && Abs() == Step(config, old(Abs()), Main)
    {
      StepInv(config, Abs(), Main);
      stock := stock + 1;
      posted := posted + 1;
    }

    /** The posts of the producer process once its threads have been joined. */
    method ShutdownPosts()
      requires Valid() && ProducersDone(Abs())
      modifies `stock, `posted
      ensures Valid() && posted == config.consumers - 1
      ensures stock - old(stock) == posted - old(posted)
    {
      while posted < config.consumers - 1
        invariant Valid() && ProducersDone(Abs()) && posted <= config.consumers - 1
        invariant stock - old(stock) == posted - old(posted)
      {
        Post();
      }
    }
  }
}
