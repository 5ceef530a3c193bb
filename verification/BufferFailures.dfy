/**
How the consumer guard in three reads fails: runs that lose items and runs that hang, on
one small input each and on every configuration that admits them.
*/
module BufferFailures {
  import opened BoundedBuffer
  import opened BufferSafety
  import opened BufferCompletion

  lemma {:induction false} RunAppend(c: Config, s: State, a: seq<Actor>, b: seq<Actor>)
    requires c.size > 0 && |s.ring| == c.size
    ensures Run(c, s, a + b) == Run(c, Run(c, s, a), b)
    decreases |a|
  {
    if a == [] {
      assert a + b == b;
    } else {
      assert (a + b)[0] == a[0] && (a + b)[1..] == a[1..] + b;
      RunAppend(c, Step(c, s, a[0]), a[1..], b);
    }
  }

  lemma RunOne(c: Config, s: State, a: Actor, rest: seq<Actor>)
    requires c.size > 0 && |s.ring| == c.size
    ensures Run(c, s, [a] + rest) == Run(c, Step(c, s, a), rest)
  {
    assert ([a] + rest)[0] == a && ([a] + rest)[1..] == rest;
  }

  lemma RunThree(c: Config, s: State, x: Actor, y: Actor, z: Actor) returns (s1: State, s2: State, s3: State)
    requires c.size > 0 && |s.ring| == c.size
    ensures s1 == Step(c, s, x) && |s1.ring| == c.size
    ensures s2 == Step(c, s1, y) && |s2.ring| == c.size
    ensures s3 == Step(c, s2, z) && Run(c, s, [x, y, z]) == s3
  {
    s1 := Step(c, s, x);
    s2 := Step(c, s1, y);
    s3 := Step(c, s2, z);
    assert [x] + [y, z] == [x, y, z] && [y] + [z] == [y, z] && [z] + [] == [z];
    RunOne(c, s, x, [y, z]);
    RunOne(c, s1, y, [z]);
    RunOne(c, s2, z, []);
  }

  /** One slot, one item, one producer, one consumer: the consumer compares its counters
      before the item is made and looks at the flag after, and leaves without it. */
  lemma SplitGuardLosesItem()
    ensures var c, p, q := Config(1, 1, 1, 1, false), Prod(0), Cons(0);
            var s := Run(c, Init(c), [q, q, p] + [p, p, p] + [p, p, p] + [p, p, p] + [q]);
            Final(c, s) && s.itemNum == 1 && s.consumeNum == 0 && s.taken == []
  {
    var c, p, q := Config(1, 1, 1, 1, false), Prod(0), Cons(0);
    var s0 := Init(c);
    var s1 := State(1, 0, 1, 0, 0, 0, 0, 0, [0], 0, [PEmpty], [CEnd(0)], []);
    var s2 := State(0, 0, 0, 0, 0, 0, 0, 0, [0], 0, [PInc], [CEnd(0)], []);
    var s3 := State(0, 0, 0, 1, 0, 0, 0, 1, [1], 0, [PStock], [CEnd(0)], []);
    var s4 := State(1, 1, 0, 1, 0, 0, 0, 1, [1], 0, [PExit], [CEnd(0)], []);
    assert Run(c, s0, [q, q, p]) == s1 by {
      var a, b, d := RunThree(c, s0, q, q, p);
    }
    assert Run(c, s1, [p, p, p]) == s2 by {
      var a, b, d := RunThree(c, s1, p, p, p);
    }
    assert Run(c, s2, [p, p, p]) == s3 by {
      var a, b, d := RunThree(c, s2, p, p, p);
    }
    assert Run(c, s3, [p, p, p]) == s4 by {
      var a, b, d := RunThree(c, s3, p, p, p);
    }
    LastLook(c, s4);
    RunAppend(c, s0, [q, q, p], [p, p, p]);
    RunAppend(c, s0, [q, q, p] + [p, p, p], [p, p, p]);
    RunAppend(c, s0, [q, q, p] + [p, p, p] + [p, p, p], [p, p, p]);
    RunAppend(c, s0, [q, q, p] + [p, p, p] + [p, p, p] + [p, p, p], [q]);
  }

  lemma LastLook(c: Config, s: State)
    requires c == Config(1, 1, 1, 1, false) && |s.ring| == 1 && s.consumers == [CEnd(0)]
    ensures s.endFlag == 1 ==> Run(c, s, [Cons(0)]) == s.(consumers := [CExit(0)])
  {
    assert [Cons(0)][1..] == [];
  }

  /** One slot, one item, two producers, one consumer: the consumer leaves too early, and the
      second producer, past its guard before the item was made, waits for the slot for ever. */
  lemma SplitGuardHangs()
    ensures var c, p, r, q := Config(1, 1, 2, 1, false), Prod(0), Prod(1), Cons(0);
            var s := Run(c, Init(c), ([q, q, p] + [r, p, p]) + ([p, p, p] + [p, p, p]) + [p, q]);
            && Stuck(c, s) && !Final(c, s) && s.consumeNum == 0
            && s.producers == [PExit, PEmpty] && s.consumers == [CExit(0)] && s.emptyslot == 0
  {
    var c, p, r, q := Config(1, 1, 2, 1, false), Prod(0), Prod(1), Cons(0);
    var s0 := Init(c);
    var s2 := HangStarts(c);
    var s4 := HangFills(c, s2);
    var s := HangEnds(c, s4);
    var early, late := [q, q, p] + [r, p, p], [p, p, p] + [p, p, p];
    RunAppend(c, s0, early, late);
    RunAppend(c, s0, early + late, [p, q]);
  }

  lemma HangStarts(c: Config) returns (s: State)
    requires c == Config(1, 1, 2, 1, false)
    ensures Run(c, Init(c), [Cons(0), Cons(0), Prod(0)] + [Prod(1), Prod(0), Prod(0)]) == s
    ensures s == State(0, 0, 0, 0, 0, 0, 0, 0, [0], 0, [PTest, PEmpty], [CEnd(0)], [])
  {
    var a1, a2, a3 := RunThree(c, Init(c), Cons(0), Cons(0), Prod(0));
    assert a3 == State(1, 0, 1, 0, 0, 0, 0, 0, [0], 0, [PEmpty, PGuard], [CEnd(0)], []);
    var b1, b2, b3 := RunThree(c, a3, Prod(1), Prod(0), Prod(0));
    RunAppend(c, Init(c), [Cons(0), Cons(0), Prod(0)], [Prod(1), Prod(0), Prod(0)]);
    s := b3;
  }

  lemma HangFills(c: Config, s: State) returns (t: State)
    requires c == Config(1, 1, 2, 1, false)
    requires s == State(0, 0, 0, 0, 0, 0, 0, 0, [0], 0, [PTest, PEmpty], [CEnd(0)], [])
    ensures Run(c, s, [Prod(0), Prod(0), Prod(0)] + [Prod(0), Prod(0), Prod(0)]) == t
    ensures t == State(1, 1, 0, 1, 0, 0, 0, 1, [1], 0, [PGuard, PEmpty], [CEnd(0)], [])
  {
    var a1, a2, a3 := RunThree(c, s, Prod(0), Prod(0), Prod(0));
    assert a3 == State(0, 0, 0, 1, 0, 0, 0, 0, [1], 0, [PEnd, PEmpty], [CEnd(0)], []);
    var b1, b2, b3 := RunThree(c, a3, Prod(0), Prod(0), Prod(0));
    RunAppend(c, s, [Prod(0), Prod(0), Prod(0)], [Prod(0), Prod(0), Prod(0)]);
    t := b3;
  }

  lemma HangEnds(c: Config, s: State) returns (t: State)
    requires c == Config(1, 1, 2, 1, false)
    requires s == State(1, 1, 0, 1, 0, 0, 0, 1, [1], 0, [PGuard, PEmpty], [CEnd(0)], [])
    ensures Run(c, s, [Prod(0), Cons(0)]) == t && Stuck(c, t) && !Final(c, t)
    ensures t == State(1, 1, 0, 1, 0, 0, 0, 1, [1], 0, [PExit, PEmpty], [CExit(0)], [])
  {
    RunOne(c, s, Prod(0), [Cons(0)]);
    var u := Step(c, s, Prod(0));
    RunOne(c, u, Cons(0), []);
    t := Step(c, u, Cons(0));
    assert [Prod(0)] + [Cons(0)] == [Prod(0), Cons(0)] && [Cons(0)] + [] == [Cons(0)];
    assert t.producers[1] == PEmpty;
  }

  // ------------------------------------------------------------ every configuration

  /** Some schedule leads from s to t. */
  ghost predicate Reach(c: Config, s: State, t: State) {
    exists schedule :: Leads(c, s, schedule, t)
  }

  ghost predicate Leads(c: Config, s: State, schedule: seq<Actor>, t: State) {
    Ready(c, s) && Ready(c, t) && Run(c, s, schedule) == t
  }

  ghost predicate Ready(c: Config, s: State) {
    Ok(c) && !c.atomicGuard && |s.ring| == c.size && |s.producers| == c.producers && |s.consumers| == c.consumers
  }

  lemma ReachNone(c: Config, s: State)
    requires Ready(c, s)
    ensures Reach(c, s, s)
  {
    assert Leads(c, s, [], s);
  }

  lemma ReachStep(c: Config, s: State, t: State, a: Actor)
    requires Reach(c, s, t)
    ensures Reach(c, s, Step(c, t, a))
  {
    var schedule :| Leads(c, s, schedule, t);
    RunAppend(c, s, schedule, [a]);
    RunOne(c, t, a, []);
    assert [a] + [] == [a];
    assert Leads(c, s, schedule + [a], Step(c, t, a));
  }

  ghost function Thrice(c: Config, t: State, a: Actor): State
    requires Ready(c, t)
  {
    Step(c, Step(c, Step(c, t, a), a), a)
  }

  lemma ReachThrice(c: Config, s: State, t: State, a: Actor)
    requires Reach(c, s, t)
    ensures Reach(c, s, Thrice(c, t, a))
  {
    ReachStep(c, s, t, a);
    ReachStep(c, s, Step(c, t, a), a);
    ReachStep(c, s, Step(c, Step(c, t, a), a), a);
  }

  /** The part of a state that decides who can step. */
  datatype View = View(
    mutex: int, stock: int, emptyslot: int, itemNum: int, consumeNum: int, endFlag: int, posted: int,
    producers: seq<Producer>, consumers: seq<Consumer>)

  function See(s: State): View {
    View(s.mutex, s.stock, s.emptyslot, s.itemNum, s.consumeNum, s.endFlag, s.posted, s.producers, s.consumers)
  }

  lemma MakeStores(c: Config, t: State)
    requires Ready(c, t) && t.itemNum < c.items && t.producers[0] == PTest
    ensures See(Thrice(c, t, Prod(0))) == See(t).(itemNum := t.itemNum + 1, producers := t.producers[0 := PEnd])
  {
    var ps := t.producers;
    var t1 := Step(c, t, Prod(0));
    assert t1 == t.(producers := ps[0 := PInc]);
    var t2 := Step(c, t1, Prod(0));
    assert t2 == t.(itemNum := t.itemNum + 1, producers := ps[0 := PStore]);
  }

  lemma MakeLeaves(c: Config, t: State)
    requires Ready(c, t) && t.producers[0] == PEnd
    ensures See(Thrice(c, t, Prod(0))) ==
            See(t).(mutex := t.mutex + 1, stock := t.stock + 1, producers := t.producers[0 := PGuard],
                    endFlag := if t.itemNum == c.items then 1 else t.endFlag)
  {
    var ps := t.producers;
    var t1 := Step(c, t, Prod(0));
    assert t1 == t.(endFlag := if t.itemNum == c.items then 1 else t.endFlag, producers := ps[0 := PStock]);
    var t2 := Step(c, t1, Prod(0));
    assert t2 == t1.(stock := t.stock + 1, producers := ps[0 := PUnlock]);
  }

  /** The first producer makes an item. */
  lemma Make(c: Config, s: State, t: State) returns (t': State)
    requires Reach(c, s, t)
    requires t.mutex == 1 && t.emptyslot > 0 && t.itemNum < c.items && t.producers[0] == PGuard
    ensures Reach(c, s, t')
    ensures See(t') == See(t).(emptyslot := t.emptyslot - 1, itemNum := t.itemNum + 1, stock := t.stock + 1,
                               endFlag := if t.itemNum + 1 == c.items then 1 else t.endFlag)
  {
    var a := Prod(0);
    ReachThrice(c, s, t, a);
    var t3 := Thrice(c, t, a);
    ReachThrice(c, s, t3, a);
    MakeStores(c, t3);
    var t6 := Thrice(c, t3, a);
    ReachThrice(c, s, t6, a);
    MakeLeaves(c, t6);
    t' := Thrice(c, t6, a);
    assert t'.producers == t.producers;
  }

  lemma TakeReads(c: Config, t: State)
    requires Ready(c, t) && t.mutex == 1 && t.consumeNum < t.itemNum && t.consumers[0] == CLock
    ensures See(Thrice(c, t, Cons(0))) == See(t).(mutex := 0, consumers := t.consumers[0 := CCount])
  {
    var cs := t.consumers;
    var t1 := Step(c, t, Cons(0));
    assert t1 == t.(mutex := 0, consumers := cs[0 := CTest]);
    var t2 := Step(c, t1, Cons(0));
    assert t2 == t.(mutex := 0, consumers := cs[0 := CTake]);
  }

  lemma TakeLeaves(c: Config, t: State)
    requires Ready(c, t) && t.consumers[0] == CCount
    ensures See(Thrice(c, t, Cons(0))) ==
            See(t).(mutex := t.mutex + 1, emptyslot := t.emptyslot + 1, consumeNum := t.consumeNum + 1,
                    consumers := t.consumers[0 := CGuard])
  {
    var cs := t.consumers;
    var t1 := Step(c, t, Cons(0));
    assert t1 == t.(consumeNum := t.consumeNum + 1, consumers := cs[0 := CEmpty]);
    var t2 := Step(c, t1, Cons(0));
    assert t2 == t1.(emptyslot := t.emptyslot + 1, consumers := cs[0 := CUnlock]);
  }

  /** The first consumer takes one. */
  lemma Take(c: Config, s: State, t: State) returns (t': State)
    requires Reach(c, s, t)
    requires t.mutex == 1 && t.stock > 0 && t.consumeNum < t.itemNum && t.consumers[0] == CGuard
    ensures Reach(c, s, t')
    ensures See(t') == See(t).(emptyslot := t.emptyslot + 1, consumeNum := t.consumeNum + 1, stock := t.stock - 1)
  {
    var a := Cons(0);
    ReachThrice(c, s, t, a);
    var t3 := Thrice(c, t, a);
    ReachThrice(c, s, t3, a);
    TakeReads(c, t3);
    var t6 := Thrice(c, t3, a);
    ReachThrice(c, s, t6, a);
    TakeLeaves(c, t6);
    t' := Thrice(c, t6, a);
    assert t'.consumers == t.consumers;
  }

  /** A calm state: nobody is in a section, and made items less taken ones fill the ring. */
  function Calm(c: Config, made: int, taken: int, ps: seq<Producer>, cs: seq<Consumer>, posted: int): View {
    View(1, made - taken + posted, c.size - (made - taken), made, taken, if made == c.items then 1 else 0, posted,
         ps, cs)
  }

  /** k rounds of making an item and taking it. */
  lemma {:induction false} Rounds(c: Config, s: State, t: State, k: nat) returns (t': State)
    requires Reach(c, s, t)
    requires See(t) == Calm(c, t.itemNum, t.itemNum, t.producers, t.consumers, 0) && t.itemNum + k < c.items
    requires t.producers[0] == PGuard && t.consumers[0] == CGuard
    ensures Reach(c, s, t')
    ensures See(t') == Calm(c, t.itemNum + k, t.itemNum + k, t.producers, t.consumers, 0)
    decreases k
  {
    if k == 0 {
      t' := t;
    } else {
      t' := Make(c, s, t);
      t' := Take(c, s, t');
      t' := Rounds(c, s, t', k - 1);
    }
  }

  /** m items in a row. */
  lemma {:induction false} Fill(c: Config, s: State, t: State, m: nat) returns (t': State)
    requires Reach(c, s, t)
    requires See(t) == Calm(c, t.itemNum, t.consumeNum, t.producers, t.consumers, 0)
    requires t.itemNum + m <= c.items && t.itemNum - t.consumeNum + m <= c.size && t.producers[0] == PGuard
    ensures Reach(c, s, t')
    ensures See(t') == Calm(c, t.itemNum + m, t.consumeNum, t.producers, t.consumers, 0)
    decreases m
  {
    if m == 0 {
      t' := t;
    } else {
      t' := Make(c, s, t);
      t' := Fill(c, s, t', m - 1);
    }
  }

  /** j consumers at p, the others at q. */
  function Mixed(n: nat, j: nat, p: Consumer, q: Consumer): (cs: seq<Consumer>)
    ensures |cs| == n
  {
    seq(n, i => if i < j then p else q)
  }

  /** One consumer after the other finds the ring empty and goes on to look at the flag. */
  lemma {:induction false} AllLook(c: Config, s: State, t: State, k: int, j: nat) returns (t': State)
    requires Reach(c, s, t) && j <= c.consumers
    requires See(t) == Calm(c, k, k, t.producers, Mixed(c.consumers, 0, CEnd(k), CGuard), 0)
    ensures Reach(c, s, t')
    ensures See(t') == Calm(c, k, k, t.producers, Mixed(c.consumers, j, CEnd(k), CGuard), 0)
  {
    if j == 0 {
      t' := t;
    } else {
      t' := AllLook(c, s, t, k, j - 1);
      var u := t';
      var cs := u.consumers;
      ReachStep(c, s, u, Cons(j - 1));
      t' := Step(c, u, Cons(j - 1));
      assert t' == u.(consumers := cs[j - 1 := CItem(k)]);
      ReachStep(c, s, t', Cons(j - 1));
      t' := Step(c, t', Cons(j - 1));
      assert t' == u.(consumers := cs[j - 1 := CEnd(k)]);
      assert t'.consumers == Mixed(c.consumers, j, CEnd(k), CGuard);
    }
  }

  /** And once the flag is up, each leaves. */
  lemma {:induction false} AllLeave(c: Config, s: State, t: State, k: int, j: nat) returns (t': State)
    requires Reach(c, s, t) && j <= c.consumers && t.endFlag == 1
    requires t.consumers == Mixed(c.consumers, 0, CExit(k), CEnd(k))
    ensures Reach(c, s, t')
    ensures See(t') == See(t).(consumers := Mixed(c.consumers, j, CExit(k), CEnd(k)))
  {
    if j == 0 {
      t' := t;
    } else {
      var u := AllLeave(c, s, t, k, j - 1);
      ReachStep(c, s, u, Cons(j - 1));
      t' := Step(c, u, Cons(j - 1));
      assert t' == u.(consumers := u.consumers[j - 1 := CExit(k)]);
      assert t'.consumers == Mixed(c.consumers, j, CExit(k), CEnd(k));
    }
  }

  /** The first j producers have left; the second one waits for a slot if hangs. */
  function Ended(n: nat, j: nat, hangs: bool): (ps: seq<Producer>)
    ensures |ps| == n
  {
    seq(n, i => if hangs && i == 1 then PEmpty else if i < j then PExit else PGuard)
  }

  /** With all items made every producer at its guard leaves. */
  lemma {:induction false} AllEnd(c: Config, s: State, t: State, hangs: bool, j: nat) returns (t': State)
    requires Reach(c, s, t) && j <= c.producers && t.itemNum == c.items
    requires t.producers == Ended(c.producers, 0, hangs)
    ensures Reach(c, s, t')
    ensures See(t') == See(t).(producers := Ended(c.producers, j, hangs))
  {
    if j == 0 {
      t' := t;
    } else {
      var u := AllEnd(c, s, t, hangs, j - 1);
      if hangs && j == 2 {
        t' := u;
      } else {
        ReachStep(c, s, u, Prod(j - 1));
        t' := Step(c, u, Prod(j - 1));
        assert t' == u.(producers := u.producers[j - 1 := PExit]);
      }
      assert t'.producers == Ended(c.producers, j, hangs);
    }
  }

  /** The main thread makes its posts. */
  lemma {:induction false} AllPost(c: Config, s: State, t: State, j: nat) returns (t': State)
    requires Reach(c, s, t) && j < c.consumers && t.posted == 0 && ProducersDone(t)
    ensures Reach(c, s, t')
    ensures See(t') == See(t).(stock := t.stock + j, posted := j)
  {
    if j == 0 {
      t' := t;
    } else {
      var u := AllPost(c, s, t, j - 1);
      ReachStep(c, s, u, Main);
      t' := Step(c, u, Main);
    }
  }

  /** All items but the last m made and taken, every consumer on its way to read the flag. */
  lemma Prelude(c: Config, m: nat) returns (t: State)
    requires Ok(c) && !c.atomicGuard && 0 < m <= c.items
    ensures Reach(c, Init(c), t)
    ensures var k := c.items - m;
            See(t) == Calm(c, k, k, Ended(c.producers, 0, false), Mixed(c.consumers, c.consumers, CEnd(k), CGuard), 0)
  {
    var s := Init(c);
    var k := c.items - m;
    ReachNone(c, s);
    assert s.producers == Ended(c.producers, 0, false);
    assert s.consumers == Mixed(c.consumers, 0, CEnd(k), CGuard);
    t := Rounds(c, s, s, k);
    t := AllLook(c, s, t, k, c.consumers);
  }

  /** The last m items are made while the consumers leave. */
  lemma Finale(c: Config, t: State, m: nat, hangs: bool) returns (t': State)
    requires Reach(c, Init(c), t) && 0 < m <= c.items && m <= c.size
    requires var k := c.items - m;
             See(t) == Calm(c, k, k, Ended(c.producers, 0, hangs), Mixed(c.consumers, c.consumers, CEnd(k), CGuard), 0)
    ensures Reach(c, Init(c), t')
    ensures var k := c.items - m;
            See(t') == Calm(c, c.items, k, Ended(c.producers, c.producers, hangs),
                            Mixed(c.consumers, c.consumers, CExit(k), CEnd(k)), 0)
  {
    var s := Init(c);
    var k := c.items - m;
    t' := Fill(c, s, t, m);
    assert t'.consumers == Mixed(c.consumers, 0, CExit(k), CEnd(k));
    t' := AllLeave(c, s, t', k, c.consumers);
    t' := AllEnd(c, s, t', hangs, c.producers);
  }

  /** With the guard in three reads every configuration has a run that ends all threads and
      loses the last item. */
  lemma LosesItem(c: Config) returns (t: State)
    requires Ok(c) && !c.atomicGuard
    ensures Reach(c, Init(c), t) && Final(c, t) && t.itemNum == c.items && t.consumeNum == c.items - 1
  {
    t := Prelude(c, 1);
    t := Finale(c, t, 1, false);
    t := AllPost(c, Init(c), t, c.consumers - 1);
  }

  /** And with a second producer and no more slots than items it has one that hangs: a
      producer waits for a slot, the ring is full and all consumers have left. */
  lemma Hangs(c: Config) returns (t: State)
    requires Ok(c) && !c.atomicGuard && c.producers >= 2 && c.size <= c.items
    ensures Reach(c, Init(c), t) && Stuck(c, t) && !ProducersDone(t)
    ensures t.itemNum == c.items && t.consumeNum == c.items - c.size
  {
    var s := Init(c);
    var u := Prelude(c, c.size);
    ReachStep(c, s, u, Prod(1));
    t := Step(c, u, Prod(1));
    assert t == u.(producers := u.producers[1 := PEmpty]);
    assert t.producers == Ended(c.producers, 0, true);
    t := Finale(c, t, c.size, true);
    assert t.producers[1] == PEmpty;
  }

  lemma FinalIsStuck(c: Config, s: State)
    requires Final(c, s)
    ensures Stuck(c, s)
  {}

  /** Exactly the configurations with the guard in one step complete in every run. */
  lemma AlwaysCompleteIff(c: Config)
    requires Ok(c)
    ensures (forall schedule :: var s := Run(c, Init(c), schedule); Stuck(c, s) ==> Complete(c, s))
       <==> c.atomicGuard
  {
    if c.atomicGuard {
      forall schedule | Stuck(c, Run(c, Init(c), schedule))
        ensures Complete(c, Run(c, Init(c), schedule))
      {
        InitInv(c);
        RunInv(c, Init(c), schedule);
        RunKeeps(c, Init(c), schedule);
        CompleteIff(c, Run(c, Init(c), schedule));
      }
    } else {
      var t := LosesItem(c);
      FinalIsStuck(c, t);
      var schedule :| Leads(c, Init(c), schedule, t);
      assert !Complete(c, Run(c, Init(c), schedule));
    }
  }

  /** Exactly those with the guard in three reads, two producers or more, and no more slots
      than items can leave a thread waiting for ever. */
  lemma CanHangIff(c: Config)
    requires Ok(c)
    ensures (exists schedule :: var s := Run(c, Init(c), schedule); Stuck(c, s) && !Final(c, s))
       <==> !c.atomicGuard && c.producers >= 2 && c.size <= c.items
  {
    forall schedule | Stuck(c, Run(c, Init(c), schedule)) && !Final(c, Run(c, Init(c), schedule))
      ensures !c.atomicGuard && c.producers >= 2 && c.size <= c.items
    {
      var s := Run(c, Init(c), schedule);
      InitInv(c);
      RunInv(c, Init(c), schedule);
      RunKeeps(c, Init(c), schedule);
      StuckShape(c, s);
      CompleteIff(c, s);
    }
    if !c.atomicGuard && c.producers >= 2 && c.size <= c.items {
      var t := Hangs(c);
      var schedule :| Leads(c, Init(c), schedule, t);
      assert !Final(c, Run(c, Init(c), schedule));
    }
  }
}
