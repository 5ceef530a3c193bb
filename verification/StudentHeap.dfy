/** The static list of students: records in an array, free slots on a stack, a heap on top. */
module StudentHeap {
  import opened HeapOrder

  const MAXSIZE := 1000

  /** head is the one slot whose record has no predecessor. */
  ghost predicate HeadOf(s: seq<Student>, head: int) {
    if s == [] then head == -1
    else 0 <= head < |s| && forall k | 0 <= k < |s| :: s[k].pre == -1 <==> k == head
  }

  /** Entry i of order, or -1 beyond its ends. */
  function At(order: seq<int>, i: int): int {
    if 0 <= i < |order| then order[i] else -1
  }

  /** From head on, nex leads through the slots of order, each once, and ends at -1; pre leads
      back the same way. */
  ghost predicate Chain(s: seq<Student>, order: seq<int>, head: int) {
    && head == At(order, 0)
    && (forall i, j | 0 <= i < j < |order| :: order[i] != order[j])
    && (forall i | 0 <= i < |order| :: 0 <= order[i] < |s|)
    && (forall i | 0 <= i < |order| :: s[order[i]].nex == At(order, i + 1))
    && (forall i | 0 <= i < |order| :: s[order[i]].pre == At(order, i - 1))
  }

  /** t is s with one more record, of the student, in use and linked in front of the one at
      head, whose pre is the only other field that changes. */
  ghost predicate Joined(s: seq<Student>, t: seq<Student>, head: int, stu: Student) {
    var n := |s|;
    && |t| == n + 1
    && t[n].id == stu.id && t[n].name == stu.name
    && t[n].pre == -1 && t[n].nex == head && t[n].flag == 1
    && (forall k | 0 <= k < n :: t[k].id == s[k].id && t[k].name == s[k].name)
    && (forall k | 0 <= k < n :: t[k].nex == s[k].nex && t[k].flag == s[k].flag)
    && (forall k | 0 <= k < n :: t[k].pre == if k == head then n else s[k].pre)
  }

  /** Joining puts the new slot in front of the chain. */
  lemma JoinedChain(s: seq<Student>, t: seq<Student>, head: int, stu: Student, order: seq<int>)
    requires Joined(s, t, head, stu) && Chain(s, order, head)
    ensures Chain(t, [|s|] + order, |s|)
  {
    var o := [|s|] + order;
    forall i | 0 <= i < |o|
      ensures 0 <= o[i] < |t| && t[o[i]].nex == At(o, i + 1) && t[o[i]].pre == At(o, i - 1)
    {
      if i > 0 {
        assert o[i] == order[i - 1];
        assert s[order[i - 1]].nex == At(order, i) && s[order[i - 1]].pre == At(order, i - 2);
        assert i > 1 ==> order[i - 1] != order[0];
      }
    }
  }

  lemma LinkedJoins(s: seq<Student>, head: int, stu: Student)
    ensures Joined(s, Linked(s, head, |s|) + [Entered(stu, head)], head, stu)
    ensures head != |s| ==>
              Linked(s, head, |s|) + [Entered(stu, head)] == Linked(s + [Entered(stu, head)], head, |s|)
    ensures forall order | Chain(s, order, head) ::
              head != |s| && Chain(Linked(s, head, |s|) + [Entered(stu, head)], [|s|] + order, |s|)
  {
    var t := Linked(s, head, |s|) + [Entered(stu, head)];
    forall order | Chain(s, order, head)
      ensures head != |s| && Chain(t, [|s|] + order, |s|)
    {
      JoinedChain(s, t, head, stu, order);
    }
  }

  /** The same records in some order, and a head that was right still is. */
  ghost predicate Rearranged(s: seq<Student>, head: int, s': seq<Student>, head': int) {
    multiset(s') == multiset(s) && (HeadOf(s, head) ==> HeadOf(s', head'))
  }

  /** s with the record at the head linked behind slot k. */
  function Linked(s: seq<Student>, head: int, k: int): (r: seq<Student>)
    ensures |r| == |s|
  {
    if 0 <= head < |s| then s[head := s[head].(pre := k)] else s
  }

  /** The head after a removal that leaves records. */
  function HeadAfter(s: seq<Student>, head: int): int
    requires s != []
  {
    var f := Flagged(s, head);
    if s[0].pre == -1 then s[0].nex else DescendHead(LastFirst(f), 0, f[|f| - 1].id, head)
  }

  /** Where that is: behind a removed head; else where it was, unless the sift of a heap moved
      a record without a predecessor. */
  lemma HeadAfterMeaning(s: seq<Student>, head: int)
    requires Heap(s) && |s| > 1
    ensures s[0].pre == -1 ==> HeadAfter(s, head) == s[0].nex
    ensures s[0].pre != -1 && |s| == 2 ==> HeadAfter(s, head) == head
    ensures s[0].pre != -1 && |s| > 2 ==>
              var last, c := s[|s| - 1], SmallerChild(s[..|s| - 1], 0);
              HeadAfter(s, head) == if s[c].id >= last.id then head
                                    else if last.pre == -1 then c
                                    else if s[c].pre == -1 then 0
                                    else head
  {
    if |s| > 2 {
      DescendHeadShape(s, head);
    }
  }

  lemma DescendHeadShape(s: seq<Student>, head: int)
    requires Heap(s) && |s| > 2
    ensures var f, last, c := Flagged(s, head), s[|s| - 1], SmallerChild(s[..|s| - 1], 0);
            DescendHead(LastFirst(f), 0, f[|f| - 1].id, head)
            == if s[c].id >= last.id then head
               else if last.pre == -1 then c
               else if s[c].pre == -1 then 0
               else head
  {
    var f := Flagged(s, head);
    var c := SmallerChild(s[..|s| - 1], 0);
    var r := LastFirst(f);
    assert SmallerChild(r, 0) == c;
    if s[c].id >= s[|s| - 1].id {
      forall k | 0 < k < |r| && Parent(k) >= 1
        ensures Above(r, k)
      {
        assert Above(s, k);
      }
      DescendHeadIdle(r, c, s[|s| - 1].id, head);
    }
  }

  lemma {:induction false} DescendHeadIdle(s: seq<Student>, high: nat, id: int, head: int)
    requires HeapFrom(s, 1) && 0 < high < |s| && id <= s[high].id
    ensures DescendHead(s, high, id, head) == head
    decreases |s| - high
  {
    if 2 * high + 1 < |s| {
      var low := SmallerChild(s, high);
      assert Above(s, low);
      DescendHeadIdle(s, low, id, head);
    }
  }

  /** The record as it is stored: in use, and first in the list. */
  function Entered(stu: Student, head: int): Student {
    stu.(pre := -1, nex := head, flag := 1)
  }

  /** What a search for a student, or for a number alone, looks for. */
  function SameKey(stu: Student): Student -> bool {
    (t: Student) => t.id == stu.id && t.name == stu.name
  }

  function SameId(id: int): Student -> bool {
    (t: Student) => t.id == id
  }

  class StaticLinkList {
    const list: array<Student>
    const index: array<int>
    var top: int
    var head: int
    var size: int

    /** Slots 0 to size - 1 are in use, and the stack holds the others, lowest on top. */
    ghost predicate Valid()
      reads `top, `size, index
    {
      && list.Length == index.Length == MAXSIZE
      && 0 <= size <= MAXSIZE
      && top == MAXSIZE - size - 1
      && forall j | 0 <= j < MAXSIZE :: index[j] == MAXSIZE - j - 1
    }

    ghost predicate Sized()
      reads `size
    {
      0 <= size <= list.Length
    }

    ghost function Contents(): (s: seq<Student>)
      requires Sized()
      reads `size, list
    {
      list[..size]
    }

    constructor ()
      ensures Valid() && fresh(list) && fresh(index) && Contents() == [] && HeadOf(Contents(), head)
      ensures Chain(Contents(), [], head)
    {
      list := new Student[MAXSIZE](_ => Student(0, "", 0, 0, 0));
      index := new int[MAXSIZE];
      head := -1;
      size := 0;
      top := MAXSIZE - 1;
      new;
      for i := 0 to MAXSIZE
        invariant size == 0 && head == -1 && top == MAXSIZE - 1
        invariant forall j | 0 <= j < i :: index[j] == MAXSIZE - j - 1
      {
        index[i] := MAXSIZE - i - 1;
      }
    }

    // ------------------------------------------------------------- free slots

    method PushStack(unusedIndex: int)
      requires -1 <= top < index.Length - 1
      modifies this`top, index
      ensures top == old(top) + 1 && index[top] == unusedIndex
      ensures forall j | 0 <= j < index.Length && j != top :: index[j] == old(index[j])
    {
      top := top + 1;
      index[top] := unusedIndex;
    }

    method PopStack()
      modifies this`top
      ensures top == if old(top) == -1 then -1 else old(top) - 1
    {
      if top != -1 {
        top := top - 1;
      }
    }

    /** The free slot handed out is always the first beyond those in use. */
    method TopStack() returns (slot: int)
      requires Valid()
      ensures slot == if size == MAXSIZE then -1 else size
    {
      slot := if top == -1 then -1 else index[top];
    }

    // --------------------------------------------------------------- the list

    method InsertListAtHead(stu: Student)
      requires Valid() && size < MAXSIZE && -1 <= head < MAXSIZE
      modifies this, list
      ensures Valid() && head == old(size)
      ensures Contents() == Linked(old(Contents()) + [Entered(stu, old(head))], old(head), old(size))
      ensures old(head) != old(size) ==> Joined(old(Contents()), Contents(), old(head), stu)
      ensures forall order | Chain(old(Contents()), order, old(head)) :: Chain(Contents(), [old(size)] + order, head)
      ensures HeadOf(old(Contents()), old(head)) ==> HeadOf(Contents(), head)
    {
      ghost var s, h := Contents(), head;
      var slot := TopStack();
      PopStack();
      list[slot] := stu;
      list[slot] := list[slot].(flag := 1);
      list[slot] := list[slot].(pre := -1);
      list[slot] := list[slot].(nex := head);
      if head != -1 {
        list[head] := list[head].(pre := slot);
      }
      head := slot;
      size := size + 1;
      LinkedJoins(s, h, stu);
    }

    // --------------------------------------------------------------- the heap

    method Swap(parent: int, child: int)
      requires 0 <= parent < list.Length && 0 <= child < list.Length
      modifies list
      ensures list[..] == old(Swapped(list[..], parent, child))
    {
      var t := list[parent];
      list[parent] := list[child];
      list[child] := t;
    }
  
    /** Exchange two records, and let head follow the one without a predecessor. */
    method SwapAndTrack(parent: int, child: int)
      requires Sized() && 0 <= parent < child < size
      modifies this`head, list
      ensures Contents() == Swapped(old(Contents()), parent, child)
      ensures head == Tracked(Contents(), parent, child, old(head))
      ensures forall k | size <= k < list.Length :: list[k] == old(list[k])
      ensures Rearranged(old(Contents()), old(head), Contents(), head)
    {
      ghost var s := Contents();
      Swap(parent, child);
      assert Contents() == Swapped(s, parent, child);
      if list[parent].pre == -1 {
        head := parent;
      }
      if list[child].pre == -1 {
        head := child;
      }
    }

    /** One round of the sift: exchange the record in slot parent with its smaller child, or
        find it in place. */
    method SinkOnce(ghost i: nat, parent: nat, id: int) returns (next: nat, sunk: bool)
      requires Sized() && i <= parent && 2 * parent + 1 < size && list[parent].id == id
      requires Sinking(Contents(), i, parent)
      modifies this`head, list
      ensures Sized() && Rearranged(old(Contents()), old(head), Contents(), head)
      ensures parent < next < size
      ensures sunk ==> list[next].id == id && Sinking(Contents(), i, next)
      ensures !sunk ==> HeapFrom(Contents(), i)
    {
      ghost var s := Contents();
      var child := LesserChild(parent);
      next, sunk := child, id > list[child].id;
      if sunk {
        SinkStep(s, i, parent);
        SwapAndTrack(parent, child);
      }
    }

    method LesserChild(parent: nat) returns (child: nat)
      requires Sized() && 2 * parent + 1 < size
      ensures child == SmallerChild(Contents(), parent)
    {
      child := 2 * parent + 1;
      if child + 1 < size && list[child].id > list[child + 1].id {
        child := child + 1;
      }
    }

    /** Let the record in slot i sink to its place. */
    method SinkDown(i: nat)
      requires Sized() && i < size && HeapFrom(Contents(), i + 1)
      modifies this`head, list
      ensures HeapFrom(Contents(), i)
      ensures Rearranged(old(Contents()), old(head), Contents(), head)
    {
      var temp := list[i];
      var parent := i;
      var sunk := true;
      while sunk && 2 * parent + 1 < size
        invariant i <= parent < size
        invariant sunk ==> list[parent].id == temp.id && Sinking(Contents(), i, parent)
        invariant !sunk ==> HeapFrom(Contents(), i)
        invariant Rearranged(old(Contents()), old(head), Contents(), head)
        decreases sunk, size - parent
      {
        parent, sunk := SinkOnce(i, parent, temp.id);
      }
    }

    /** Any array of records becomes a heap of the same records. */
    method RearrangeHeap()
      requires Sized()
      modifies this`head, list
      ensures Heap(Contents())
      ensures multiset(Contents()) == multiset(old(Contents()))
      ensures HeadOf(old(Contents()), old(head)) ==> HeadOf(Contents(), head)
    {
      var i := size / 2 - 1;
      while i >= 0
        invariant -1 <= i < size && HeapFrom(Contents(), i + 1)
        invariant Rearranged(old(Contents()), old(head), Contents(), head)
      {
        SinkDown(i);
        i := i - 1;
      }
    }

    /** Let the last record rise to its place, and make it the head. */
    method RiseUp(id: int)
      requires Sized() && size > 0 && list[size - 1].id == id
      requires Rising(Contents(), size - 1)
      modifies this`head, list
      ensures Heap(Contents())
      ensures multiset(Contents()) == multiset(old(Contents()))
      ensures 0 <= head < size && list[head] == old(list[size - 1])
      ensures old(HeadOf(Contents(), size - 1)) ==> HeadOf(Contents(), head)
    {
      var child := size - 1;
      var parent := if child == 0 then 0 else (child - 1) / 2;
      while id < list[parent].id && child > 0
        invariant 0 <= child < size && parent == (if child == 0 then 0 else Parent(child))
        invariant list[child] == old(list[size - 1])
        invariant Rising(Contents(), child)
        invariant multiset(Contents()) == multiset(old(Contents()))
        invariant old(HeadOf(Contents(), size - 1)) ==> HeadOf(Contents(), child)
        decreases child
      {
        RiseOnce(parent, child);
        child := parent;
        parent := if child == 0 then 0 else (child - 1) / 2;
      }
      head := child;
    }

    method RiseOnce(parent: nat, child: nat)
      requires Sized() && 0 < child < size && parent == Parent(child)
      requires Rising(Contents(), child) && list[child].id < list[parent].id
      modifies list
      ensures Rising(Contents(), parent) && list[parent] == old(list[child])
      ensures multiset(Contents()) == multiset(old(Contents()))
      ensures old(HeadOf(Contents(), child)) ==> HeadOf(Contents(), parent)
    {
      ghost var s := Contents();
      RiseStep(s, child);
      Swap(parent, child);
      assert Contents() == Swapped(s, parent, child);
    }

    /** Add a record to the heap, linked in at the head. */
    method PushHeap(stu: Student)
      requires Valid() && size < MAXSIZE && 0 <= head < MAXSIZE && Heap(Contents())
      modifies this, list, index
      ensures Valid() && Heap(Contents())
      ensures multiset(Contents()) == multiset(Linked(old(Contents()), old(head), old(size))
                                              + [Entered(stu, old(head))])
      ensures exists t :: Joined(old(Contents()), t, old(head), stu) && multiset(Contents()) == multiset(t)
      ensures 0 <= head < size && list[head] == Entered(stu, old(head))
      ensures HeadOf(old(Contents()), old(head)) ==> HeadOf(Contents(), head)
    {
      LinkIn(stu);
      ghost var s := Contents();
      RiseUp(stu.id);
      assert multiset(Contents()) == multiset(s);
    }

    /** Store a record in the free slot on top of the stack, before the one at the head. */
    method LinkIn(stu: Student)
      requires Valid() && size < MAXSIZE && 0 <= head < MAXSIZE && Heap(Contents())
      modifies this`top, this`size, list
      ensures Valid() && size == old(size) + 1 && list[old(size)] == Entered(stu, head)
      ensures Contents() == Linked(old(Contents()), head, old(size)) + [Entered(stu, head)]
      ensures Joined(old(Contents()), Contents(), head, stu)
      ensures forall order | Chain(old(Contents()), order, head) ::
                Chain(Contents(), [old(size)] + order, old(size))
      ensures Rising(Contents(), size - 1)
      ensures HeadOf(old(Contents()), head) ==> HeadOf(Contents(), size - 1)
    {
      ghost var s := Contents();
      var child := TopStack();
      PopStack();
      list[head] := list[head].(pre := child);
      list[child] := stu.(flag := 1, pre := -1, nex := head);
      size := size + 1;
      LinkedJoins(s, head, stu);
    }

    /** Remove the record in slot 0. The head, and the links of the removed record, must be
        slots, or -1 for a link. */
    method PopHeap()
      requires Valid() && (size > 0 ==> 0 <= head < MAXSIZE)
      requires size > 0 ==> -1 <= list[0].pre < MAXSIZE && -1 <= list[0].nex < MAXSIZE
      modifies this, list, index
      ensures Valid()
      ensures Contents() == if old(size) == 0 then [] else Removed(old(Contents()), old(head))
      ensures head == if old(size) <= 1 then old(head) else HeadAfter(old(Contents()), old(head))
    {
      if size == 0 {
        return;
      }
      ghost var s := Contents();
      size := size - 1;
      var temp := list[size];
      PushStack(size);
      list[head] := list[head].(flag := 0);
      if size == 0 {
        return;
      }
      ghost var f := Flagged(s, head);
      assert list[..size + 1] == f;
      ReplaceRoot(temp.id, f);
      Bridge(list[size].pre, list[size].nex);
    }

    /** Exchange the root with the record behind those in use, and sift. */
    method ReplaceRoot(id: int, ghost f: seq<Student>)
      requires 0 < size < list.Length && list[..size + 1] == f
      modifies this`head, list
      ensures Contents() == Descend(LastFirst(f), 0, id) && list[size] == f[0]
      ensures head == DescendHead(LastFirst(f), 0, id, old(head))
    {
      Swap(0, size);
      assert Contents() == LastFirst(f) && list[size] == f[0];
      SiftOnce(id);
    }

    /** Link the records in the slots pre and nex past the removed one. */
    method Bridge(pre: int, nex: int)
      requires Sized() && -1 <= pre < list.Length && -1 <= nex < list.Length
      modifies this`head, list
      ensures Contents() == Bridged(old(Contents()), pre, nex)
      ensures head == if pre == -1 then nex else old(head)
    {
      if pre != -1 {
        list[pre] := list[pre].(nex := nex);
      }
      if nex != -1 {
        list[nex] := list[nex].(pre := pre);
      }
      if pre == -1 {
        head := nex;
      }
    }

    method SiftOnce(id: int)
      requires Sized() && size > 0
      modifies this`head, list
      ensures Contents() == Descend(old(Contents()), 0, id)
      ensures head == DescendHead(old(Contents()), 0, id, old(head))
      ensures forall k | size <= k < list.Length :: list[k] == old(list[k])
    {
      var high := 0;
      while 2 * high + 1 < size
        invariant 0 <= high < size && Contents() == old(Contents()) && head == old(head)
        invariant forall k | size <= k < list.Length :: list[k] == old(list[k])
        invariant DescendHead(old(Contents()), 0, id, old(head)) == DescendHead(old(Contents()), high, id, old(head))
        invariant Descend(old(Contents()), 0, id) == Descend(old(Contents()), high, id)
        decreases size - high
      {
        var low := LesserChild(high);
        if list[low].id < id {
          SwapAndTrack(high, low);
          return;
        }
        high := low;
      }
    }

    // ------------------------------------------------------------------- search

    /** The slot of a record with this number and name, or -1 exactly when there is none. */
    method FindHeap(stu: Student, curIndex: nat) returns (slot: int)
      requires Sized()
      ensures slot == Find(Contents(), SameKey(stu), curIndex)
      decreases size - curIndex
    {
      if curIndex >= size {
        return -1;
      }
      if list[curIndex].id == stu.id && list[curIndex].name == stu.name {
        return curIndex;
      }
      var left, right := -1, -1;
      if curIndex * 2 + 1 < size {
        left := FindHeap(stu, curIndex * 2 + 1);
      }
      if left != -1 {
        return left;
      }
      if curIndex * 2 + 2 < size {
        right := FindHeap(stu, curIndex * 2 + 2);
      }
      return right;
    }
  
    method FindHeapID(id: int, curIndex: int) returns (slot: int)
      requires Sized()
      ensures slot == if curIndex < 0 then -1 else Find(Contents(), SameId(id), curIndex)
      decreases size - curIndex
    {
      if curIndex >= size || curIndex < 0 {
        return -1;
      }
      if list[curIndex].id == id {
        return curIndex;
      }
      var left, right := -1, -1;
      if curIndex * 2 + 1 < size {
        left := FindHeapID(id, curIndex * 2 + 1);
      }
      if left != -1 {
        return left;
      }
      if curIndex * 2 + 2 < size {
        right := FindHeapID(id, curIndex * 2 + 2);
      }
      return right;
    }

    method TopHeap() returns (stu: Student)
      requires Sized() && size > 0 && Heap(Contents())
      ensures stu in Contents() && forall k | 0 <= k < size :: stu.id <= Contents()[k].id
    {
      stu := list[0];
      forall k: nat | k < size
        ensures stu.id <= Contents()[k].id
      {
        RootIsLeast(Contents(), k);
      }
    }

    /** Give the student a new number, if he is there, and restore the heap. */
    method ModifyId(stu: Student, id: int) returns (found: bool)
      requires Valid()
      modifies this`head, list
      ensures Valid()
      ensures found <==> exists k | 0 <= k < size :: SameKey(stu)(old(Contents())[k])
      ensures !found ==> Contents() == old(Contents()) && head == old(head)
      ensures found ==> Heap(Contents())
      ensures found ==> Renumbered(old(Contents()), Find(old(Contents()), SameKey(stu), 0), stu, id, Contents())
      ensures HeadOf(old(Contents()), old(head)) ==> HeadOf(Contents(), head)
    {
      ghost var s := Contents();
      var slot := FindHeap(stu, 0);
      FindExhaustive(s, SameKey(stu));
      found := slot != -1;
      if found {
        list[slot] := list[slot].(id := id);
        assert Contents() == s[slot := s[slot].(id := id)];
        RearrangeHeap();
      }
    }
  }

  /** One record with the number and name of stu has got the new number; nothing else has. */
  ghost predicate Renumbered(s: seq<Student>, slot: int, stu: Student, id: int, t: seq<Student>) {
    && 0 <= slot < |s| && SameKey(stu)(s[slot])
    && multiset(t) == multiset(s[slot := s[slot].(id := id)])
  }

}
