/**
The program over its shared arrays: each method call performs one shared access
of one thread, in place, and is proved to be the step of the model.
*/
module PetersonProgram {
  import opened FilterLock
  import opened PetersonShm

  ghost function LockOf(level: array<int>, waiting: array<int>, threads: array<Thread>): Lock
    reads level, waiting, threads
  {
    Lock(level[..], waiting[..], threads[..])
  }

  /** One shared access of the waiting-room loop of thread i. */
  method FilterAccess(level: array<int>, waiting: array<int>, threads: array<Thread>, i: nat)
    requires level != waiting
    requires Shape(LockOf(level, waiting, threads)) && ThreadsOk(LockOf(level, waiting, threads))
    requires i < threads.Length && InFilter(threads[i].pc)
    modifies level, waiting, threads
    ensures LockOf(level, waiting, threads) == Advance(old(LockOf(level, waiting, threads)), i)
  {
    ghost var l := LockOf(level, waiting, threads);
    var t := threads[i];
    assert ThreadOk(|l.threads|, l.threads[i], l.level[i]);
    match t.pc {
      case SetLevel =>
        level[i] := t.lev;
        threads[i] := t.(pc := SetWaiting);
      case SetWaiting =>
        waiting[t.lev] := i;
        threads[i] := t.(pc := TestWaiting);
      case TestWaiting =>
        if waiting[t.lev] == i {
          threads[i] := t.(pc := ScanLevel, k := 0);
        } else {
          threads[i] := Arrive(threads.Length, t.lev + 1);
        }
      case ScanLevel =>
        if level[t.k] >= t.lev && t.k != i {
          threads[i] := t.(pc := TestWaiting);
        } else {
          threads[i] := t.(pc := ScanWaiting);
        }
      case ScanWaiting =>
        if waiting[t.lev] != i {
          threads[i] := t.(pc := TestWaiting);
        } else if t.k + 1 < threads.Length {
          threads[i] := t.(pc := ScanLevel, k := t.k + 1);
        } else {
          threads[i] := Arrive(threads.Length, t.lev + 1);
        }
    }
    assert LockOf(level, waiting, threads) == Advance(l, i);
  }

  class SharedMemory {
    const levelWrite: array<int>
    const waitingWrite: array<int>
    const levelRead: array<int>
    const waitingRead: array<int>
    const writers: array<Thread>
    const readers: array<Thread>
    var written: int
    var mtext: int
    var counter: int
    var killed: bool
    ghost var sent: seq<int>
    ghost var received: seq<int>
    ghost var receivers: seq<int>

    ghost function Abs(): State
      reads this, levelWrite, waitingWrite, levelRead, waitingRead, writers, readers
    {
      State(LockOf(levelWrite, waitingWrite, writers), LockOf(levelRead, waitingRead, readers),
            written, mtext, counter, killed, sent, received, receivers)
    }

    /** The six arrays are different objects. */
    ghost predicate Separate() {
      && levelWrite != waitingWrite && levelWrite != levelRead && levelWrite != waitingRead
      && waitingWrite != levelRead && waitingWrite != waitingRead && levelRead != waitingRead
      && writers != readers
    }

    constructor (n: nat)
      ensures Abs() == Init(n) && Separate()
      ensures fresh(levelWrite) && fresh(waitingWrite) && fresh(levelRead) && fresh(waitingRead)
      ensures fresh(writers) && fresh(readers)
    {
      levelWrite := new int[n](_ => -1);
      waitingWrite := new int[Rooms(n)](_ => -1);
      levelRead := new int[n](_ => -1);
      waitingRead := new int[Rooms(n)](_ => -1);
      writers := new Thread[n](_ => Arrive(n, 0));
      readers := new Thread[n](_ => Arrive(n, 0));
      written, mtext, counter, killed := 0, -1, 0, false;
      sent, received, receivers := [], [], [];
      new;
      assert levelWrite[..] == Start(n).level == levelRead[..];
      assert waitingWrite[..] == Start(n).waiting == waitingRead[..];
      assert writers[..] == Start(n).threads == readers[..];
    }

    method WriterAccess(i: nat, stage: Stage)
      requires Separate() && i < writers.Length == levelWrite.Length && writers[i].pc == Critical(stage)
      modifies this, levelWrite, writers
      ensures Abs() == WriterStage(old(Abs()), i, stage)
    {
      match stage {
        case Await =>
          if written != 1 {
            writers[i] := writers[i].(pc := Critical(Count));
          }
        case Count =>
          counter := counter + 1;
          writers[i] := writers[i].(pc := Critical(Access));
        case Access =>
          mtext := i;
          sent := sent + [i];
          writers[i] := writers[i].(pc := Critical(Publish));
        case Publish =>
          written := 1;
          writers[i] := writers[i].(pc := Critical(Check));
        case Check =>
          if counter > 1 {
            killed := true;
          } else {
            writers[i] := writers[i].(pc := Critical(Uncount));
          }
        case Uncount =>
          counter := counter - 1;
          writers[i] := writers[i].(pc := Critical(Release));
        case Release =>
          levelWrite[i] := -1;
          writers[i] := writers[i].(pc := Exited);
      }
    }

    method ReaderAccess(i: nat, stage: Stage)
      requires Separate() && i < readers.Length == levelRead.Length && readers[i].pc == Critical(stage)
      modifies this, levelRead, readers
      ensures Abs() == ReaderStage(old(Abs()), i, stage)
    {
      match stage {
        case Await =>
          if written != 0 {
            readers[i] := readers[i].(pc := Critical(Count));
          }
        case Count =>
          counter := counter + 1;
          readers[i] := readers[i].(pc := Critical(Access));
        case Access =>
          received := received + [mtext];
          receivers := receivers + [i];
          readers[i] := readers[i].(pc := Critical(Publish));
        case Publish =>
          written := 0;
          readers[i] := readers[i].(pc := Critical(Check));
        case Check =>
          if counter > 1 {
            killed := true;
          } else {
            readers[i] := readers[i].(pc := Critical(Uncount));
          }
        case Uncount =>
          counter := counter - 1;
          readers[i] := readers[i].(pc := Critical(Release));
        case Release =>
          levelRead[i] := -1;
          readers[i] := readers[i].(pc := Exited);
      }
    }

    /** One shared access of thread t. */
    method Execute(t: Tid)
      requires Separate() && Locks(Abs())
      modifies this, levelWrite, waitingWrite, levelRead, waitingRead, writers, readers
      ensures Abs() == Step(old(Abs()), t) && Locks(Abs())
    {
      StepLocks(Abs(), t);
      if !killed && t.i < writers.Length {
        match t {
          case Writer(i) =>
            match writers[i].pc {
              case Exited =>
              case Critical(stage) => WriterAccess(i, stage);
              case _ => FilterAccess(levelWrite, waitingWrite, writers, i);
            }
          case Reader(i) =>
            match readers[i].pc {
              case Exited =>
              case Critical(stage) => ReaderAccess(i, stage);
              case _ => FilterAccess(levelRead, waitingRead, readers, i);
            }
        }
      }
    }

    /** The threads run as scheduled. */
    method Follow(schedule: seq<Tid>)
      requires Separate() && Locks(Abs())
      modifies this, levelWrite, waitingWrite, levelRead, waitingRead, writers, readers
      ensures Abs() == Run(old(Abs()), schedule)
    {
      var k := 0;
      while k < |schedule|
        invariant k <= |schedule| && Locks(Abs())
        invariant Run(Abs(), schedule[k..]) == Run(old(Abs()), schedule)
      {
        assert schedule[k..][0] == schedule[k] && schedule[k..][1..] == schedule[k + 1..];
        Execute(schedule[k]);
        k := k + 1;
      }
    }
  }
}
