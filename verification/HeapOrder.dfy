/** Heap order on the students' numbers, and what keeps or breaks it. */
module HeapOrder {

  /** A record: the student, the slots of its neighbours in the list or -1, and whether it
      is in use. */
  datatype Student = Student(id: int, name: string, pre: int, nex: int, flag: int)

  function Parent(k: int): int
    requires k > 0
  {
    (k - 1) / 2
  }

  /** Slot k does not hold a smaller number than the slot above it. */
  ghost predicate Above(s: seq<Student>, k: int)
    requires 0 < k < |s|
  {
    s[Parent(k)].id <= s[k].id
  }

  /** Every parent from slot i on is in order with its children. */
  ghost predicate HeapFrom(s: seq<Student>, i: int) {
    forall k | 0 < k < |s| && Parent(k) >= i :: Above(s, k)
  }

  ghost predicate Heap(s: seq<Student>) {
    HeapFrom(s, 0)
  }

  /** Slot 0 of a heap holds a least number. */
  lemma {:induction false} RootIsLeast(s: seq<Student>, k: nat)
    requires Heap(s) && k < |s|
    ensures s[0].id <= s[k].id
  {
    if k > 0 {
      assert Above(s, k);
      RootIsLeast(s, Parent(k));
    }
  }

  function Swapped(s: seq<Student>, i: nat, j: nat): (r: seq<Student>)
    requires i < |s| && j < |s|
    ensures |r| == |s| && multiset(r) == multiset(s)
  {
    s[i := s[j]][j := s[i]]
  }

  // -------------------------------------------------------------- sifting down

  /** In order from slot i on, except below slot p; what lies below p is in order with what
      lies above it. */
  ghost predicate Sinking(s: seq<Student>, i: int, p: int) {
    && (forall k | 0 < k < |s| && Parent(k) >= i && Parent(k) != p :: Above(s, k))
    && forall k | 0 < k < |s| && Parent(k) == p && p > i && p > 0 && Parent(p) >= i :: s[Parent(p)].id <= s[k].id
  }

  /** The smaller of the two children of slot p. */
  function SmallerChild(s: seq<Student>, p: nat): (c: int)
    requires 2 * p + 1 < |s|
    ensures 0 < c < |s| && Parent(c) == p
    ensures forall k | 0 < k < |s| && Parent(k) == p :: s[c].id <= s[k].id
  {
    if 2 * p + 2 < |s| && s[2 * p + 1].id > s[2 * p + 2].id then 2 * p + 2 else 2 * p + 1
  }

  lemma SinkStep(s: seq<Student>, i: nat, p: nat)
    requires i <= p && 2 * p + 1 < |s| && Sinking(s, i, p)
    requires s[p].id > s[SmallerChild(s, p)].id
    ensures var c := SmallerChild(s, p); Sinking(Swapped(s, p, c), i, c)
  {
    var c := SmallerChild(s, p);
    var r := Swapped(s, p, c);
    forall k | 0 < k < |r| && Parent(k) >= i && Parent(k) != c
      ensures Above(r, k)
    {
      assert Parent(k) != p ==> Above(s, k);
    }
    forall k | 0 < k < |r| && Parent(k) == c
      ensures r[p].id <= r[k].id
    {
      assert Above(s, k);
    }
  }

  // ---------------------------------------------------------------- sifting up

  /** In order except between slot c and the slot above it. */
  ghost predicate Rising(s: seq<Student>, c: int) {
    && (forall k | 0 < k < |s| && k != c :: Above(s, k))
    && forall k | 0 < k < |s| && c > 0 && Parent(k) == c :: s[Parent(c)].id <= s[k].id
  }

  lemma RiseStep(s: seq<Student>, c: nat)
    requires 0 < c < |s| && Rising(s, c) && s[c].id < s[Parent(c)].id
    ensures Rising(Swapped(s, Parent(c), c), Parent(c))
  {
    var p := Parent(c);
    var r := Swapped(s, p, c);
    forall k | 0 < k < |r| && k != p
      ensures Above(r, k)
    {
      assert k != c ==> Above(s, k);
    }
    forall k | 0 < k < |r| && p > 0 && Parent(k) == p
      ensures r[Parent(p)].id <= r[k].id
    {
      assert Above(s, p);
      assert k != c ==> Above(s, k);
    }
  }

  // -------------------------------------------------------------------- search

  /** Slot k lies in the subtree below slot i. */
  predicate Under(i: nat, k: nat)
    decreases k
  {
    k == i || (k > i && Under(i, (k - 1) / 2))
  }

  lemma {:induction false} UnderRoot(k: nat)
    ensures Under(0, k)
  {
    if k > 0 {
      UnderRoot((k - 1) / 2);
    }
  }

  lemma {:induction false} UnderSplit(i: nat, k: nat)
    ensures Under(i, k) <==> k == i || Under(2 * i + 1, k) || Under(2 * i + 2, k)
    decreases k
  {
    if k > i {
      UnderSplit(i, (k - 1) / 2);
    }
  }

  /** Search the subtree below slot i, the left side first. */
  function Find(s: seq<Student>, f: Student -> bool, i: nat): (r: int)
    ensures -1 <= r < |s|
    decreases |s| - i
  {
    if i >= |s| then -1
    else if f(s[i]) then i
    else
      var l := if 2 * i + 1 < |s| then Find(s, f, 2 * i + 1) else -1;
      if l != -1 then l
      else if 2 * i + 2 < |s| then Find(s, f, 2 * i + 2) else -1
  }

  /** The search ends at a match below i, and gives up only when there is none. */
  lemma {:induction false} FindBelow(s: seq<Student>, f: Student -> bool, i: nat, k: nat)
    requires k < |s|
    ensures Find(s, f, i) != -1 ==> f(s[Find(s, f, i)]) && Under(i, Find(s, f, i))
    ensures Under(i, k) && f(s[k]) ==> Find(s, f, i) != -1
    decreases |s| - i
  {
    if i < |s| && !f(s[i]) {
      UnderSplit(i, k);
      FindBelow(s, f, 2 * i + 1, k);
      FindBelow(s, f, 2 * i + 2, k);
      var r := Find(s, f, i);
      if r != -1 {
        UnderSplit(i, r);
      }
    }
  }

  /** From the root the search is exhaustive, heap or not. */
  lemma FindExhaustive(s: seq<Student>, f: Student -> bool)
    ensures Find(s, f, 0) == -1 <==> forall k | 0 <= k < |s| :: !f(s[k])
    ensures Find(s, f, 0) != -1 ==> f(s[Find(s, f, 0)])
  {
    forall k: nat | k < |s|
      ensures f(s[k]) ==> Find(s, f, 0) != -1
      ensures Find(s, f, 0) != -1 ==> f(s[Find(s, f, 0)])
    {
      UnderRoot(k);
      FindBelow(s, f, 0, k);
    }
  }

  // ------------------------------------------------------------------- removal

  /** The sift of the removal: it stops after one exchange, wherever that is. */
  function Descend(s: seq<Student>, high: nat, id: int): (r: seq<Student>)
    ensures |r| == |s|
    decreases |s| - high
  {
    if 2 * high + 1 >= |s| then s
    else
      var low := SmallerChild(s, high);
      if s[low].id < id then Swapped(s, high, low) else Descend(s, low, id)
  }

  /** Where the head of the list is after that sift: it follows an exchanged record without
      a predecessor. */
  function DescendHead(s: seq<Student>, high: nat, id: int, head: int): int
    decreases |s| - high
  {
    if 2 * high + 1 >= |s| then head
    else
      var low := SmallerChild(s, high);
      if s[low].id < id then Tracked(Swapped(s, high, low), high, low, head) else DescendHead(s, low, id, head)
  }

  function Tracked(s: seq<Student>, parent: nat, child: nat, head: int): int
    requires parent < |s| && child < |s|
  {
    if s[child].pre == -1 then child else if s[parent].pre == -1 then parent else head
  }

  /** The records before that sift: the last one in the place of the first. */
  function LastFirst(s: seq<Student>): (r: seq<Student>)
    requires s != []
    ensures |r| == |s| - 1
  {
    s[0 := s[|s| - 1]][..|s| - 1]
  }

  /** What is left when the root is removed and the last record put in its place. */
  function Popped(s: seq<Student>): (r: seq<Student>)
    requires s != []
    ensures |r| == |s| - 1
  {
    var m := |s| - 1;
    if m == 0 then [] else Descend(LastFirst(s), 0, s[m].id)
  }

  lemma {:induction false} DescendMembers(s: seq<Student>, high: nat, id: int)
    ensures multiset(Descend(s, high, id)) == multiset(s)
    decreases |s| - high
  {
    if 2 * high + 1 < |s| && s[SmallerChild(s, high)].id >= id {
      DescendMembers(s, SmallerChild(s, high), id);
    }
  }

  /** Exactly the record in slot 0 goes. */
  lemma PoppedMembers(s: seq<Student>)
    requires s != []
    ensures multiset(s) == multiset(Popped(s)) + multiset{s[0]}
  {
    var m := |s| - 1;
    assert s == s[..m] + [s[m]];
    if m > 0 {
      var r := s[0 := s[m]][..m];
      DescendMembers(r, 0, s[m].id);
      assert r == [s[m]] + s[1..m];
      assert s[..m] == [s[0]] + s[1..m];
    }
  }

  /** Every record below slot i is in order with those under it. */
  lemma {:induction false} DescendIdle(s: seq<Student>, high: nat, id: int)
    requires HeapFrom(s, 1) && 0 < high < |s| && id <= s[high].id
    ensures Descend(s, high, id) == s
    decreases |s| - high
  {
    if 2 * high + 1 < |s| {
      var low := SmallerChild(s, high);
      assert Above(s, low);
      DescendIdle(s, low, id);
    }
  }

  /** The last record may stand in the place of the smaller child of the root. */
  ghost predicate LastFits(s: seq<Student>)
    requires s != []
  {
    var m := |s| - 1;
    m <= 1 || forall k | 0 < k < m && Parent(k) == SmallerChild(s[..m], 0) :: s[m].id <= s[k].id
  }

  lemma PoppedShape(s: seq<Student>)
    requires Heap(s) && |s| > 2
    ensures var m := |s| - 1;
            var r := s[0 := s[m]][..m];
            var c := SmallerChild(s[..m], 0);
            && 0 < c < m && HeapFrom(r, 1) && SmallerChild(r, 0) == c
            && Popped(s) == if s[c].id < s[m].id then Swapped(r, 0, c) else r
  {
    var m := |s| - 1;
    var r := s[0 := s[m]][..m];
    var c := SmallerChild(s[..m], 0);
    forall k | 0 < k < |r| && Parent(k) >= 1
      ensures Above(r, k)
    {
      assert Above(s, k);
    }
    if s[c].id >= s[m].id {
      DescendIdle(r, c, s[m].id);
    }
  }

  /** Removal keeps heap order exactly when the last record fits there. */
  lemma PoppedHeapIff(s: seq<Student>)
    requires Heap(s) && s != []
    ensures Heap(Popped(s)) <==> LastFits(s)
  {
    var m := |s| - 1;
    if m > 1 {
      PoppedShape(s);
      var c := SmallerChild(s[..m], 0);
      if s[c].id >= s[m].id {
        forall k | 0 < k < m && Parent(k) == c
          ensures s[m].id <= s[k].id
        {
          assert Above(s, k);
        }
      }
    }
  }

  // ------------------------------------------------------------- flags and links

  /** The same students in the same slots, whatever their flags and links. */
  ghost predicate SameStudents(s: seq<Student>, t: seq<Student>) {
    |s| == |t| && forall k | 0 <= k < |s| :: s[k].id == t[k].id && s[k].name == t[k].name
  }

  /** s with the record in slot h marked as deleted. */
  function Flagged(s: seq<Student>, h: int): (r: seq<Student>)
    ensures SameStudents(s, r)
  {
    if 0 <= h < |s| then s[h := s[h].(flag := 0)] else s
  }

  /** s with the records in the slots pre and nex linked past a removed one. */
  function Bridged(s: seq<Student>, pre: int, nex: int): (r: seq<Student>)
    ensures SameStudents(s, r)
  {
    var t := if 0 <= pre < |s| then s[pre := s[pre].(nex := nex)] else s;
    if 0 <= nex < |t| then t[nex := t[nex].(pre := pre)] else t
  }

  /** What removal leaves in the slots in use. */
  function Removed(s: seq<Student>, head: int): (r: seq<Student>)
    requires s != []
    ensures |r| == |s| - 1
  {
    Bridged(Popped(Flagged(s, head)), s[0].pre, s[0].nex)
  }

  lemma SameFit(s: seq<Student>, t: seq<Student>)
    requires SameStudents(s, t) && s != []
    ensures LastFits(s) == LastFits(t)
  {
    if |s| > 2 {
      assert SmallerChild(s[..|s| - 1], 0) == SmallerChild(t[..|t| - 1], 0);
    }
  }

  /** Removal as the program does it, flag and links included, keeps heap order exactly when
      the last record fits. */
  lemma RemovedHeapIff(s: seq<Student>, head: int)
    requires Heap(s) && s != []
    ensures Heap(Removed(s, head)) <==> LastFits(s)
  {
    var f := Flagged(s, head);
    SameFit(s, f);
    PoppedHeapIff(f);
  }

  /** Slot k holds the record of slot j, but for the flag of the one at head and the links that
      lead past the one in slot 0. */
  ghost predicate Moved(s: seq<Student>, head: int, j: int, t: seq<Student>, k: int) {
    && 0 <= j < |s| && 0 <= k < |t|
    && t[k].id == s[j].id && t[k].name == s[j].name
    && t[k].flag == (if j == head then 0 else s[j].flag)
    && t[k].nex == (if k == s[0].pre then s[0].nex else s[j].nex)
    && t[k].pre == (if k == s[0].nex then s[0].pre else s[j].pre)
  }

  /** Every field of every record that a removal leaves. */
  lemma RemovedFields(s: seq<Student>, head: int, k: nat) returns (j: int)
    requires k < |s| - 1
    ensures 0 < j && Moved(s, head, j, Removed(s, head), k)
  {
    j := PoppedFrom(Flagged(s, head), k);
  }

  lemma PoppedFrom(s: seq<Student>, k: nat) returns (j: int)
    requires k < |s| - 1
    ensures 0 < j < |s| && Popped(s)[k] == s[j]
  {
    PoppedMembers(s);
    j := BehindFirst(s, Popped(s), k);
  }

  lemma BehindFirst(s: seq<Student>, p: seq<Student>, k: nat) returns (j: int)
    requires s != [] && k < |p| && multiset(s) == multiset(p) + multiset{s[0]}
    ensures 0 < j < |s| && p[k] == s[j]
  {
    var rest := s[1..];
    assert s == [s[0]] + rest;
    assert multiset(p) == multiset(s) - multiset{s[0]};
    assert multiset(rest) == multiset(s) - multiset{s[0]};
    assert p[k] in multiset(p);
    var i :| 0 <= i < |rest| && rest[i] == p[k];
    j := i + 1;
  }

  /** The students left are all but the one in slot 0. */
  lemma RemovedStudents(s: seq<Student>, head: int)
    requires s != []
    ensures SameStudents(Removed(s, head), Popped(Flagged(s, head)))
    ensures multiset(Flagged(s, head)) == multiset(Popped(Flagged(s, head))) + multiset{Flagged(s, head)[0]}
  {
    PoppedMembers(Flagged(s, head));
  }

  /** A heap of six, from which two removals leave 4 in slot 0 although 3 is still there. */
  lemma RemovalLosesLeast()
    ensures var s := Numbered([1, 2, 4, 3, 5, 6]);
            && Heap(s) && !LastFits(s)
            && Popped(s) == Numbered([2, 6, 4, 3, 5])
            && Popped(Popped(s)) == Numbered([4, 6, 5, 3])
  {
    var s := Numbered([1, 2, 4, 3, 5, 6]);
    assert SmallerChild(s[..5], 0) == 1;
    assert Parent(3) == 1 && s[5].id > s[3].id;
  }

  function Numbered(ids: seq<int>): (s: seq<Student>)
    ensures |s| == |ids| && forall k | 0 <= k < |s| :: s[k] == Student(ids[k], "", 0, 0, 1)
  {
    seq(|ids|, k requires 0 <= k < |ids| => Student(ids[k], "", 0, 0, 1))
  }
}
