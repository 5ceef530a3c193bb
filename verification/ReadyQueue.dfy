/** The scheduler's ready queue: a singly linked list that each policy inserts into. */
module ReadyQueue {
  import opened ReadyOrder

  function Inserted<T>(s: seq<T>, p: nat, x: T): (r: seq<T>)
    requires p <= |s|
    ensures |r| == |s| + 1
  {
    s[..p] + [x] + s[p..]
  }

  lemma InsertedAt<T>(s: seq<T>, p: nat, x: T, k: nat)
    requires p <= |s| && k <= |s|
    ensures Inserted(s, p, x)[k] == if k < p then s[k] else if k == p then x else s[k - 1]
  {}

  ghost predicate Separate<T>(s: seq<T>) {
    forall i, j | 0 <= i < j < |s| :: s[i] != s[j]
  }

  lemma InsertedSeparate<T>(s: seq<T>, p: nat, x: T)
    requires Separate(s) && x !in s && p <= |s|
    ensures Separate(Inserted(s, p, x))
  {
    forall j, k | 0 <= j < k <= |s|
      ensures Inserted(s, p, x)[j] != Inserted(s, p, x)[k]
    {
      InsertedAt(s, p, x, j);
      InsertedAt(s, p, x, k);
    }
  }

  class Node {
    var task: Task
    var next: Node?

    constructor (task: Task, next: Node?)
      ensures this.task == task && this.next == next
    {
      this.task, this.next := task, next;
    }
  }

  class Queue {
    var top: Node?
    ghost var Repr: set<Node>
    ghost var nodes: seq<Node>
    ghost var tasks: seq<Task>

    /** The list links exactly nodes, in that order, and holds tasks. */
    ghost predicate Valid()
      reads this, Repr
    {
      && |tasks| == |nodes|
      && (forall i | 0 <= i < |nodes| :: nodes[i] in Repr)
      && Separate(nodes)
      && top == NodeAt(0)
      && forall i | 0 <= i < |nodes| :: nodes[i].task == tasks[i] && nodes[i].next == NodeAt(i + 1)
    }

    ghost function NodeAt(i: nat): Node?
      reads this
    {
      if i < |nodes| then nodes[i] else null
    }

    constructor ()
      ensures Valid() && Repr == {} && tasks == []
    {
      top := null;
      Repr, nodes, tasks := {}, [], [];
    }

    /** Link a new node behind temp, which is node i. */
    method InsertAfter(temp: Node, ghost i: nat, x: Task)
      requires Valid() && i < |nodes| && temp == nodes[i]
      modifies this`Repr, this`nodes, this`tasks, temp`next
      ensures Valid() && fresh(Repr - old(Repr))
      ensures tasks == Inserted(old(tasks), i + 1, x)
    {
      var temp2 := temp.next;
      var node := new Node(x, temp2);
      temp.next := node;
      ghost var was, held := nodes, tasks;
      Repr := Repr + {node};
      nodes := Inserted(was, i + 1, node);
      tasks := Inserted(held, i + 1, x);
      forall k | 0 <= k < |nodes|
        ensures nodes[k] in Repr && nodes[k].task == tasks[k] && nodes[k].next == NodeAt(k + 1)
      {
        InsertedAt(was, i + 1, node, k);
        InsertedAt(held, i + 1, x, k);
        if k + 1 < |nodes| {
          InsertedAt(was, i + 1, node, k + 1);
        }
      }
      InsertedSeparate(was, i + 1, node);
      InsertedAt(was, i + 1, node, 0);
    }

    /** Link a new node in front. */
    method InsertFront(x: Task)
      requires Valid()
      modifies this
      ensures Valid() && fresh(Repr - old(Repr))
      ensures tasks == [x] + old(tasks)
    {
      var node := new Node(x, top);
      top := node;
      Repr := Repr + {node};
      nodes := [node] + nodes;
      tasks := [x] + tasks;
    }

    method Fcfs(x: Task)
      requires Valid()
      modifies this, Repr
      ensures Valid() && fresh(Repr - old(Repr))
      ensures tasks == Pushed(FCFS, old(tasks), x)
    {
      if top == null {
        InsertFront(x);
        return;
      }
      var temp: Node := top;
      ghost var i := 0;
      while temp.next != null
        invariant i < |nodes| && temp == nodes[i]
        decreases |nodes| - i
      {
        temp := temp.next;
        i := i + 1;
      }
      InsertAfter(temp, i, x);
    }

    /** Step from the top past every task that may stay in front of x. */
    method Seek(byPriority: bool, x: Task) returns (temp: Node, ghost i: nat)
      requires Valid() && top != null
      ensures i < |nodes| && temp == nodes[i]
      ensures forall j | 1 <= j <= i :: Rank(byPriority, tasks[j]) <= Rank(byPriority, x)
      ensures i + 1 < |nodes| ==> Rank(byPriority, tasks[i + 1]) > Rank(byPriority, x)
    {
      temp, i := top, 0;
      while temp.next != null
            && (if byPriority then temp.next.task.priority >= x.priority else temp.next.task.WCT <= x.WCT)
        invariant i < |nodes| && temp == nodes[i]
        invariant forall j | 1 <= j <= i :: Rank(byPriority, tasks[j]) <= Rank(byPriority, x)
        decreases |nodes| - i
      {
        temp := temp.next;
        i := i + 1;
      }
    }

    method PemSjfPush(x: Task)
      requires Valid()
      modifies this, Repr
      ensures Valid() && fresh(Repr - old(Repr))
      ensures tasks == Pushed(PemSJF, old(tasks), x)
    {
      if top == null {
        InsertFront(x);
      } else if x.WCT < top.task.WCT {
        InsertFront(x);
      } else {
        var temp, i := Seek(false, x);
        PlaceAt(false, tasks, x, i + 1);
        InsertAfter(temp, i, x);
      }
    }

    method NotPemPush(byPriority: bool, x: Task)
      requires Valid()
      modifies this, Repr
      ensures Valid() && fresh(Repr - old(Repr))
      ensures tasks == PlaceBehind(byPriority, old(tasks), x)
    {
      if top == null {
        InsertFront(x);
      } else {
        var temp, i := Seek(byPriority, x);
        BehindAt(byPriority, tasks, x, i);
        InsertAfter(temp, i, x);
      }
    }

    /** One node too far: false stands for following a NULL pointer. */
    method PemPriorityPush(x: Task) returns (ok: bool)
      requires Valid()
      modifies this, Repr
      ensures Valid() && fresh(Repr - old(Repr))
      ensures ok ==> PemPriorityPushed(old(tasks), x) == Queued(tasks)
      ensures !ok ==> PemPriorityPushed(old(tasks), x) == NullDereference && tasks == old(tasks)
    {
      ok := true;
      if top == null {
        InsertFront(x);
      } else if x.priority > top.task.priority {
        InsertFront(x);
      } else {
        var temp, i := Seek(true, x);
        var past := temp.next;
        if past == null {
          ok := false;
        } else {
          InsertAfter(past, i + 1, x);
        }
      }
    }

    method PushThread(x: Task, policy: Policy) returns (ok: bool)
      requires Valid()
      modifies this, Repr
      ensures Valid() && fresh(Repr - old(Repr))
      ensures policy != PemPriority ==> ok && tasks == Pushed(policy, old(tasks), x)
      ensures policy == PemPriority ==>
                PemPriorityPushed(old(tasks), x) == if ok then Queued(tasks) else NullDereference
    {
      ok := true;
      match policy
      case FCFS => Fcfs(x);
      case PemSJF => PemSjfPush(x);
      case NotPemSJF => NotPemPush(false, x);
      case PemPriority => ok := PemPriorityPush(x);
      case NotPemPriority => NotPemPush(true, x);
    }

    method PopThread()
      requires Valid()
      modifies this
      ensures Valid() && Repr == old(Repr)
      ensures tasks == if old(tasks) == [] then [] else old(tasks)[1..]
    {
      if top != null {
        top := top.next;
        nodes := nodes[1..];
        tasks := tasks[1..];
      }
    }
  }

  lemma BehindAt(byPriority: bool, q: seq<Task>, x: Task, i: nat)
    requires i < |q|
    requires forall j | 1 <= j <= i :: Rank(byPriority, q[j]) <= Rank(byPriority, x)
    requires i + 1 < |q| ==> Rank(byPriority, q[i + 1]) > Rank(byPriority, x)
    ensures PlaceBehind(byPriority, q, x) == Inserted(q, i + 1, x)
  {
    PlaceAt(byPriority, q[1..], x, i);
    assert q[..i + 1] == [q[0]] + q[1..][..i];
  }

  /** Any run of pushes and pops on the list is the run on sequences. */
  method Serve(policy: Policy, ops: seq<Op>) returns (queue: Queue, popped: seq<Task>)
    requires policy != PemPriority
    ensures queue.Valid() && State(queue.tasks, popped, Run(policy, ops).arrived) == Run(policy, ops)
  {
    queue := new Queue();
    popped := [];
    for k := 0 to |ops|
      invariant queue.Valid() && fresh(queue) && fresh(queue.Repr)
      invariant queue.tasks == Run(policy, ops[..k]).queue
      invariant popped == Run(policy, ops[..k]).popped
    {
      assert ops[..k + 1][..k] == ops[..k];
      match ops[k] {
        case Push(x) =>
          var _ := queue.PushThread(x, policy);
        case Pop =>
          if queue.top != null {
            popped := popped + [queue.top.task];
          }
          queue.PopThread();
      }
    }
    assert ops[..|ops|] == ops;
  }
}
