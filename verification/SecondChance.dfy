/**
Second chance. The queue of frames starts at the pointer; a page whose bit is set is
passed over once. At an eviction with the pointer behind the last frame the program
first looks at the cell behind its bit array: what that cell holds is a parameter.
*/
module SecondChance {
  import opened PageReplacement
  import opened ClockFrames

  datatype Slot = Slot(page: int, chance: bool)

  /** The pages in queue order with their bits, and the value of the pointer variable. */
  datatype Frames = Frames(q: seq<Slot>, pointer: nat)

  ghost predicate Holds(q: seq<Slot>, page: int) {
    exists i :: 0 <= i < |q| && q[i].page == page
  }

  function Chances(q: seq<Slot>): nat {
    if q == [] then 0 else Chances(q[..|q| - 1]) + if q[|q| - 1].chance then 1 else 0
  }

  lemma {:induction false} ChancesFront(x: Slot, q: seq<Slot>)
    ensures Chances([x] + q) == Chances(q) + if x.chance then 1 else 0
  {
    if q == [] {
      assert [x] + q == [x];
    } else {
      ChancesFront(x, q[..|q| - 1]);
      assert ([x] + q)[..|q|] == [x] + q[..|q| - 1];
    }
  }

  /** The front page loses its chance and goes to the back. */
  function PassOver(q: seq<Slot>): (r: seq<Slot>)
    requires q != [] && q[0].chance
    ensures Chances(r) == Chances(q) - 1
  {
    ChancesFront(q[0], q[1..]);
    assert [q[0]] + q[1..] == q;
    assert (q[1..] + [Slot(q[0].page, false)])[..|q| - 1] == q[1..];
    q[1..] + [Slot(q[0].page, false)]
  }

  /** The queue once its front has no chance left. */
  function Rotate(q: seq<Slot>): (r: seq<Slot>)
    ensures |r| == |q| && (q != [] ==> !r[0].chance)
    decreases Chances(q)
  {
    if q == [] || !q[0].chance then q else Rotate(PassOver(q))
  }

  /** How many pages in a row have a chance, from the front. */
  function Lead(q: seq<Slot>): (k: nat)
    ensures k <= |q|
  {
    if q == [] || !q[0].chance then 0 else 1 + Lead(q[1..])
  }

  lemma {:induction false} LeadMeaning(q: seq<Slot>)
    ensures forall i | 0 <= i < Lead(q) :: q[i].chance
    ensures Lead(q) < |q| ==> !q[Lead(q)].chance
  {
    if q != [] && q[0].chance {
      LeadMeaning(q[1..]);
    }
  }

  function Spent(q: seq<Slot>): (r: seq<Slot>)
    ensures |r| == |q| && forall i | 0 <= i < |q| :: r[i] == Slot(q[i].page, false)
  {
    seq(|q|, i requires 0 <= i < |q| => Slot(q[i].page, false))
  }

  /** Exactly the leading pages with a chance lose it and go to the back, in order: at
      most as many as there are frames, and then the search ends. */
  lemma {:induction false} RotateMeaning(q: seq<Slot>, passed: seq<Slot>)
    requires forall i | 0 <= i < |passed| :: !passed[i].chance
    ensures Rotate(q + passed) == q[Lead(q)..] + passed + Spent(q[..Lead(q)])
    decreases |q|
  {
    if q == [] {
      assert q + passed == passed;
    } else if q[0].chance {
      var x := Slot(q[0].page, false);
      assert PassOver(q + passed) == q[1..] + (passed + [x]);
      RotateMeaning(q[1..], passed + [x]);
      assert q[..Lead(q)] == [q[0]] + q[1..][..Lead(q[1..])];
    } else {
      assert q[..0] == [];
    }
  }

  // ----------------------------------------------------------------- one step

  /** The page is used: its chance is renewed. */
  function Renew(q: seq<Slot>, page: int): (r: seq<Slot>)
    ensures |r| == |q|
    ensures forall i | 0 <= i < |q| :: r[i] == if q[i].page == page then Slot(page, true) else q[i]
  {
    seq(|q|, i requires 0 <= i < |q| => if q[i].page == page then Slot(page, true) else q[i])
  }

  /** The second-chance policy with n frames. */
  ghost function PolicyStep(n: nat, q: seq<Slot>, page: int): seq<Slot>
    requires n > 0
  {
    if Holds(q, page) then Renew(q, page)
    else if |q| < n then q + [Slot(page, true)]
    else Rotate(q)[1..] + [Slot(page, false)]
  }

  /** The search of the program reads the cell behind the bits. */
  ghost predicate Overruns(n: nat, f: Frames, page: int) {
    !Holds(f.q, page) && |f.q| >= n && f.pointer >= n
  }

  /** What the program does when the cell behind the bits holds beyond. */
  ghost function CodeStep(n: nat, f: Frames, page: int, beyond: int): Frames
    requires n > 0
  {
    if Holds(f.q, page) then Frames(Renew(f.q, page), f.pointer)
    else if |f.q| < n then Frames(f.q + [Slot(page, true)], f.pointer)
    else if f.pointer >= n && beyond != 1 then
      Frames(f.q[1..] + [Slot(page, f.q[0].chance)], 1)
    else
      Frames(Rotate(f.q)[1..] + [Slot(page, false)], Wrap(n, Start(n, f.pointer) + Lead(f.q)) + 1)
  }

  /** The program makes the policy's choice exactly when it does not overrun its bits
      with a page in the first frame that still has its chance, or finds a one there. */
  lemma CodeFollowsPolicy(n: nat, f: Frames, page: int, beyond: int)
    requires 0 < n && |f.q| <= n
    ensures CodeStep(n, f, page, beyond).q == PolicyStep(n, f.q, page)
            <==> !(Overruns(n, f, page) && beyond != 1 && f.q[0].chance)
  {
    if Overruns(n, f, page) && beyond != 1 && f.q[0].chance {
      assert CodeStep(n, f, page, beyond).q[n - 1].chance;
      assert !PolicyStep(n, f.q, page)[n - 1].chance;
    }
  }

  /** What the program does instead: the page in the first frame is evicted although it
      has its chance, which its successor inherits. */
  lemma OverrunEvictsFirst(n: nat, f: Frames, page: int, beyond: int)
    requires 0 < n && |f.q| == n && Overruns(n, f, page) && beyond != 1
    requires forall i | 0 < i < n :: f.q[i].page != f.q[0].page
    ensures !Holds(CodeStep(n, f, page, beyond).q, f.q[0].page)
    ensures CodeStep(n, f, page, beyond).q[n - 1] == Slot(page, f.q[0].chance)
  {}

  // --------------------------------------------------------------------- runs

  ghost function Queue(n: nat, refs: seq<int>): seq<Slot>
    requires n > 0
  {
    if refs == [] then [] else PolicyStep(n, Queue(n, refs[..|refs| - 1]), refs[|refs| - 1])
  }

  ghost function Run(n: nat, refs: seq<int>, beyond: seq<int>): Frames
    requires n > 0 && |beyond| == |refs|
  {
    if refs == [] then Frames([], 0)
    else CodeStep(n, Run(n, refs[..|refs| - 1], beyond[..|refs| - 1]), refs[|refs| - 1], beyond[|refs| - 1])
  }

  ghost function Hits(n: nat, refs: seq<int>, beyond: seq<int>): (hits: seq<bool>)
    requires n > 0 && |beyond| == |refs|
    ensures |hits| == |refs|
  {
    if refs == [] then []
    else Hits(n, refs[..|refs| - 1], beyond[..|refs| - 1])
         + [Holds(Run(n, refs[..|refs| - 1], beyond[..|refs| - 1]).q, refs[|refs| - 1])]
  }

  lemma RunExtend(n: nat, refs: seq<int>, beyond: seq<int>, k: nat)
    requires n > 0 && |beyond| == |refs| && k < |refs|
    ensures Run(n, refs[..k + 1], beyond[..k + 1])
            == CodeStep(n, Run(n, refs[..k], beyond[..k]), refs[k], beyond[k])
    ensures Hits(n, refs[..k + 1], beyond[..k + 1])
            == Hits(n, refs[..k], beyond[..k]) + [Holds(Run(n, refs[..k], beyond[..k]).q, refs[k])]
  {
    assert refs[..k + 1][..k] == refs[..k];
    assert beyond[..k + 1][..k] == beyond[..k];
  }

  ghost predicate OnePerPage(q: seq<Slot>) {
    forall i, j | 0 <= i < j < |q| :: q[i].page != q[j].page
  }

  /** Passing over pages neither loses nor doubles any. */
  lemma {:induction false} RotateKeeps(q: seq<Slot>, page: int)
    requires OnePerPage(q)
    ensures OnePerPage(Rotate(q))
    ensures Holds(Rotate(q), page) <==> Holds(q, page)
    decreases Chances(q)
  {
    if q != [] && q[0].chance {
      var p := PassOver(q);
      assert forall i | 0 <= i < |q| - 1 :: p[i] == q[i + 1];
      assert p[|q| - 1].page == q[0].page;
      assert Holds(p, page) <==> Holds(q, page) by {
        if k :| 0 <= k < |q| && q[k].page == page {
          assert p[if k == 0 then |q| - 1 else k - 1].page == page;
        }
      }
      RotateKeeps(p, page);
    }
  }

  lemma CodeStepFacts(n: nat, f: Frames, page: int, beyond: int)
    requires n > 0 && |f.q| <= n && f.pointer <= n && (|f.q| < n ==> f.pointer == 0) && OnePerPage(f.q)
    ensures var f' := CodeStep(n, f, page, beyond);
            |f'.q| <= n && f'.pointer <= n && (|f'.q| < n ==> f'.pointer == 0) && OnePerPage(f'.q)
  {
    RotateKeeps(f.q, page);
    assert !Holds(f.q, page) ==> forall i | 0 <= i < |f.q| :: f.q[i].page != page;
    assert !Holds(Rotate(f.q), page) ==> forall i | 0 <= i < |f.q| :: Rotate(f.q)[i].page != page;
  }

  lemma {:induction false} RunFacts(n: nat, refs: seq<int>, beyond: seq<int>)
    requires n > 0 && |beyond| == |refs|
    ensures var f := Run(n, refs, beyond);
            |f.q| <= n && f.pointer <= n && (|f.q| < n ==> f.pointer == 0) && OnePerPage(f.q)
  {
    if refs != [] {
      var m := |refs| - 1;
      RunFacts(n, refs[..m], beyond[..m]);
      CodeStepFacts(n, Run(n, refs[..m], beyond[..m]), refs[m], beyond[m]);
    }
  }

  lemma {:induction false} RotatePages(q: seq<Slot>)
    requires forall i | 0 <= i < |q| :: q[i].page >= 0
    ensures forall i | 0 <= i < |q| :: Rotate(q)[i].page >= 0
    decreases Chances(q)
  {
    if q != [] && q[0].chance {
      RotatePages(PassOver(q));
    }
  }

  /** An eviction that takes a page with a chance because the search overran. */
  ghost predicate Robbed(n: nat, f: Frames, page: int, beyond: int) {
    Overruns(n, f, page) && beyond != 1 && f.q != [] && f.q[0].chance
  }

  /** Reference k of the run is such an eviction. */
  ghost predicate RobbedAt(n: nat, refs: seq<int>, beyond: seq<int>, k: nat)
    requires n > 0 && |beyond| == |refs| && k < |refs|
  {
    Robbed(n, Run(n, refs[..k], beyond[..k]), refs[k], beyond[k])
  }

  /** After k references the program has the queue of the policy. */
  ghost predicate OnPolicy(n: nat, refs: seq<int>, beyond: seq<int>, k: nat)
    requires n > 0 && |beyond| == |refs| && k <= |refs|
  {
    Run(n, refs[..k], beyond[..k]).q == Queue(n, refs[..k])
  }

  lemma OnPolicyStep(n: nat, refs: seq<int>, beyond: seq<int>, k: nat)
    requires n > 0 && |beyond| == |refs| && k < |refs| && OnPolicy(n, refs, beyond, k)
    ensures OnPolicy(n, refs, beyond, k + 1) <==> !RobbedAt(n, refs, beyond, k)
  {
    RunFacts(n, refs[..k], beyond[..k]);
    RunExtend(n, refs, beyond, k);
    CodeFollowsPolicy(n, Run(n, refs[..k], beyond[..k]), refs[k], beyond[k]);
    assert refs[..k + 1][..k] == refs[..k];
  }

  lemma {:induction false} OnPolicySoFar(n: nat, refs: seq<int>, beyond: seq<int>, k: nat)
    requires n > 0 && |beyond| == |refs| && k <= |refs|
    requires forall j: nat | j < k :: !RobbedAt(n, refs, beyond, j)
    ensures OnPolicy(n, refs, beyond, k)
  {
    if k > 0 {
      OnPolicySoFar(n, refs, beyond, k - 1);
      OnPolicyStep(n, refs, beyond, k - 1);
    }
  }

  /** The program has the queue of the policy all along exactly if no eviction is such a one;
      in particular if the pointer is wrapped before the search, as a one behind the bits does. */
  lemma RunIsPolicyIff(n: nat, refs: seq<int>, beyond: seq<int>)
    requires n > 0 && |beyond| == |refs|
    ensures (forall k: nat | k <= |refs| :: OnPolicy(n, refs, beyond, k))
       <==> forall k: nat | k < |refs| :: !RobbedAt(n, refs, beyond, k)
  {
    if forall k: nat | k <= |refs| :: OnPolicy(n, refs, beyond, k) {
      forall k: nat | k < |refs|
        ensures !RobbedAt(n, refs, beyond, k)
      {
        assert OnPolicy(n, refs, beyond, k + 1);
        OnPolicyStep(n, refs, beyond, k);
      }
    }
    if forall k: nat | k < |refs| :: !RobbedAt(n, refs, beyond, k) {
      forall k: nat | k <= |refs|
        ensures OnPolicy(n, refs, beyond, k)
      {
        OnPolicySoFar(n, refs, beyond, k);
      }
    }
  }

  /** So a run without one ends in the queue of the policy. */
  lemma RunIsPolicy(n: nat, refs: seq<int>, beyond: seq<int>)
    requires n > 0 && |beyond| == |refs|
    requires forall k: nat | k < |refs| :: !RobbedAt(n, refs, beyond, k)
    ensures Run(n, refs, beyond).q == Queue(n, refs)
  {
    OnPolicySoFar(n, refs, beyond, |refs|);
    assert refs[..|refs|] == refs && beyond[..|refs|] == beyond;
  }

  lemma TwoFrames(a: Slot, b: Slot, pointer: nat, page: int)
    requires page != a.page && page != b.page
    ensures CodeStep(2, Frames([a, b], 2), page, 0) == Frames([b, Slot(page, a.chance)], 1)
    ensures pointer < 2 && !a.chance ==>
              CodeStep(2, Frames([a, b], pointer), page, 0) == Frames([b, Slot(page, false)], pointer + 1)
  {}

  lemma ThreeMisses()
    ensures Run(2, [1, 2, 3], [0, 0, 0]) == Frames([Slot(2, false), Slot(3, false)], 1)
  {
    var q := [Slot(1, true), Slot(2, true)];
    assert Run(2, [1, 2], [0, 0]) == Frames(q, 0);
    RotateMeaning(q, []);
    assert q + [] == q && Lead(q[1..]) == 1;
    assert Rotate(q) == [Slot(1, false), Slot(2, false)];
  }

  /** Two frames suffice: page 3 is evicted right after it was used again. */
  lemma OverrunHappens()
    ensures var f := Run(2, [1, 2, 3, 4, 3], [0, 0, 0, 0, 0]);
            && Overruns(2, f, 5) && f.q[0] == Slot(3, true)
            && CodeStep(2, f, 5, 0).q == [f.q[1], Slot(5, true)] != PolicyStep(2, f.q, 5)
  {
    ThreeMisses();
    assert [1, 2, 3] + [4] == [1, 2, 3, 4] && [0, 0, 0] + [0] == [0, 0, 0, 0];
    TwoFrames(Slot(2, false), Slot(3, false), 1, 4);
    var q := [Slot(3, false), Slot(4, false)];
    assert Run(2, [1, 2, 3, 4], [0, 0, 0, 0]) == Frames(q, 2);
    assert [1, 2, 3, 4] + [3] == [1, 2, 3, 4, 3] && [0, 0, 0, 0] + [0] == [0, 0, 0, 0, 0];
    var f := Frames([Slot(3, true), Slot(4, false)], 2);
    assert q[0].page == 3 && Renew(q, 3) == f.q;
    TwoFrames(f.q[0], f.q[1], 2, 5);
    CodeFollowsPolicy(2, f, 5, 0);
  }

  // ------------------------------------------------------------------ in place

  function Slots(mem: seq<int>, bits: seq<int>): (r: seq<Slot>)
    requires |mem| == |bits|
    ensures |r| == |mem| && forall i | 0 <= i < |mem| :: r[i] == Slot(mem[i], bits[i] == 1)
  {
    seq(|mem|, i requires 0 <= i < |mem| == |bits| => Slot(mem[i], bits[i] == 1))
  }

  function Around(s: seq<Slot>, w: nat): (r: seq<Slot>)
    requires w <= |s|
    ensures |r| == |s|
  {
    s[w..] + s[..w]
  }

  /** Where the frames and the bits keep the queue. */
  ghost predicate Layout(mem: seq<int>, bits: seq<int>, f: Frames) {
    && |mem| == |bits| && |f.q| <= |mem| && f.pointer <= |mem|
    && (forall i | 0 <= i < |f.q| :: f.q[i].page >= 0)
    && if |f.q| < |mem| then
         && f.pointer == 0
         && f.q == Slots(mem, bits)[..|f.q|]
         && forall i | |f.q| <= i < |mem| :: mem[i] == EMPTY
       else
         f.q == Around(Slots(mem, bits), Start(|mem|, f.pointer))
  }

  lemma AroundMembers(mem: seq<int>, bits: seq<int>, w: nat, page: int)
    requires |mem| == |bits| && w <= |mem|
    ensures Holds(Around(Slots(mem, bits), w), page) <==> page in mem
  {
    var q := Around(Slots(mem, bits), w);
    if page in mem {
      var i :| 0 <= i < |mem| && mem[i] == page;
      assert q[if i < w then |mem| - w + i else i - w].page == page;
    }
    if Holds(q, page) {
      var k :| 0 <= k < |q| && q[k].page == page;
      assert mem[Wrap(|mem|, w + k)] == page;
    }
  }

  lemma ProbeSlots(mem: seq<int>, bits: seq<int>, f: Frames, page: int, j: nat)
    requires Layout(mem, bits, f) && page >= 0
    requires j <= |mem| && (j < |mem| ==> mem[j] == page || mem[j] == EMPTY)
    requires forall i | 0 <= i < j :: mem[i] != page && mem[i] != EMPTY
    ensures Holds(f.q, page) <==> j < |mem| && mem[j] == page
    ensures !Holds(f.q, page) ==> j == |f.q|
  {
    if |f.q| < |mem| {
      assert forall i {:trigger mem[i]} | 0 <= i < |f.q| :: f.q[i].page == mem[i] && mem[i] >= 0;
      assert mem[|f.q|] == EMPTY;
    } else {
      AroundMembers(mem, bits, Start(|mem|, f.pointer), page);
      AroundMembers(mem, bits, Start(|mem|, f.pointer), EMPTY);
    }
  }

  lemma LeadPassOver(q: seq<Slot>)
    requires q != [] && q[0].chance
    ensures Lead(PassOver(q)) == Lead(q) - 1
  {
    LeadClear(q[1..], Slot(q[0].page, false));
  }

  lemma {:induction false} LeadClear(q: seq<Slot>, x: Slot)
    requires !x.chance
    ensures Lead(q + [x]) == Lead(q)
  {
    if q != [] && q[0].chance {
      LeadClear(q[1..], x);
      assert (q + [x])[1..] == q[1..] + [x];
    }
  }

  lemma PassOverAround(mem: seq<int>, bits: seq<int>, p: nat)
    requires |mem| == |bits| && p < |bits| && bits[p] == 1
    ensures PassOver(Around(Slots(mem, bits), p)) == Around(Slots(mem, bits[p := 0]), Wrap(|bits|, p + 1))
  {
    var s, t := Slots(mem, bits), Slots(mem, bits[p := 0]);
    assert t == s[p := Slot(mem[p], false)];
    assert Around(s, p)[1..] == s[p + 1..] + s[..p];
    assert t[..p + 1] == s[..p] + [Slot(mem[p], false)];
    assert t[p + 1..] == s[p + 1..];
    if p + 1 == |bits| {
      assert t[0..] + t[..0] == t;
    }
  }

  lemma RenewAround(mem: seq<int>, bits: seq<int>, w: nat, j: nat)
    requires |mem| == |bits| && w <= |bits| && j < |bits|
    requires forall i | 0 <= i < |mem| && i != j :: mem[i] != mem[j]
    ensures Renew(Around(Slots(mem, bits), w), mem[j]) == Around(Slots(mem, bits[j := 1]), w)
  {}

  lemma SweepStep(mem: seq<int>, bits: seq<int>, p: nat)
    requires |mem| == |bits| && p < |bits|
    ensures var now := Around(Slots(mem, bits), p);
            if bits[p] == 1 then
              var next := Around(Slots(mem, bits[p := 0]), Wrap(|bits|, p + 1));
              && Rotate(next) == Rotate(now)
              && Lead(next) == Lead(now) - 1
              && Chances(next) < Chances(now)
            else
              Rotate(now) == now && Lead(now) == 0
  {
    var now := Around(Slots(mem, bits), p);
    assert now[0] == Slots(mem, bits)[p];
    if bits[p] == 1 {
      LeadPassOver(now);
      PassOverAround(mem, bits, p);
    }
  }

  /** k frames after the start w of a search, at frame p: the queue from p on turns into what
      the queue q from w on turns into. */
  ghost predicate Searching(mem: seq<int>, before: seq<int>, bits: seq<int>, w: nat, q: seq<Slot>, k: nat, p: nat) {
    && |mem| == |bits| && p < |bits|
    && p == Wrap(|bits|, w + k)
    && Cleared(before, bits, w, k)
    && k + Lead(Around(Slots(mem, bits), p)) == Lead(q)
    && Rotate(Around(Slots(mem, bits), p)) == Rotate(q)
  }

  lemma SearchingStarts(mem: seq<int>, bits: seq<int>, w: nat)
    requires |mem| == |bits| && w < |bits|
    ensures Searching(mem, bits, bits, w, Around(Slots(mem, bits), w), 0, w)
  {}

  lemma SearchingGoesOn(mem: seq<int>, before: seq<int>, bits: seq<int>, w: nat, q: seq<Slot>, k: nat, p: nat)
    requires Searching(mem, before, bits, w, q, k, p) && bits[p] == 1
    ensures Searching(mem, before, bits[p := 0], w, q, k + 1, Wrap(|bits|, p + 1))
    ensures Lead(q) > k
  {
    SweepStep(mem, bits, p);
    ClearOn(before, bits, w, k, p);
  }

  lemma SearchingEnds(mem: seq<int>, before: seq<int>, bits: seq<int>, w: nat, q: seq<Slot>, k: nat, p: nat)
    requires Searching(mem, before, bits, w, q, k, p) && bits[p] != 1
    ensures p == Wrap(|bits|, w + Lead(q)) && Around(Slots(mem, bits), p) == Rotate(q)
    ensures Searched(before, bits, w, Lead(q))
  {
    SweepStep(mem, bits, p);
    ClearEnds(before, bits, w, k, p);
  }

  /** Clear bits from the pointer on until one is clear already. */
  method Sweep(bits: array<int>, start: nat, ghost q: seq<Slot>, ghost mem: seq<int>) returns (p: nat)
    requires bits.Length == |mem| && start < bits.Length && q == Around(Slots(mem, bits[..]), start)
    modifies bits
    ensures p == Wrap(bits.Length, start + Lead(q)) < bits.Length
    ensures Around(Slots(mem, bits[..]), p) == Rotate(q)
    ensures Searched(old(bits[..]), bits[..], start, Lead(q))
  {
    p := start;
    ghost var before, k: nat := bits[..], 0;
    SearchingStarts(mem, before, start);
    while bits[p] == 1
      invariant p < bits.Length && Searching(mem, before, bits[..], start, q, k, p)
      decreases Lead(q) - k
    {
      ghost var b := bits[..];
      SearchingGoesOn(mem, before, b, start, q, k, p);
      bits[p] := 0;
      assert bits[..] == b[p := 0];
      p := p + 1;
      if p > bits.Length - 1 {
        p := 0;
      }
      k := k + 1;
    }
    SearchingEnds(mem, before, bits[..], start, q, k, p);
  }

  /** Find the frame to take; behind the last bit the search reads beyond instead. */
  method Search(bits: array<int>, pointer: nat, beyond: int, ghost mem: seq<int>) returns (p: nat)
    requires bits.Length == |mem| > 0 && pointer <= bits.Length
    modifies bits
    ensures p < bits.Length
    ensures var q := Around(Slots(mem, old(bits[..])), Start(bits.Length, pointer));
            if pointer >= bits.Length && beyond != 1 then
              bits[..] == old(bits[..]) && p == 0
            else
              && p == Wrap(bits.Length, Start(bits.Length, pointer) + Lead(q))
              && Around(Slots(mem, bits[..]), p) == Rotate(q)
              && Searched(old(bits[..]), bits[..], Start(bits.Length, pointer), Lead(q))
  {
    p := pointer;
    ghost var q := Around(Slots(mem, bits[..]), Start(bits.Length, pointer));
    if p < bits.Length {
      p := Sweep(bits, p, q, mem);
    } else if beyond == 1 {
      p := 0;
      p := Sweep(bits, p, q, mem);
    }
    if p > bits.Length - 1 {
      p := 0;
    }
  }

  lemma HitLayout(mem: seq<int>, bits: seq<int>, f: Frames, j: nat)
    requires Layout(mem, bits, f) && OnePerPage(f.q) && j < |mem| && mem[j] >= 0
    ensures Layout(mem, bits[j := 1], Frames(Renew(f.q, mem[j]), f.pointer))
  {
    if |f.q| < |mem| {
      assert forall i | 0 <= i < |f.q| :: f.q[i].page == mem[i];
    } else {
      var w := Start(|mem|, f.pointer);
      forall i | 0 <= i < |mem| && i != j
        ensures mem[i] != mem[j]
      {
        assert f.q[if i < w then |mem| - w + i else i - w].page == mem[i];
        assert f.q[if j < w then |mem| - w + j else j - w].page == mem[j];
      }
      RenewAround(mem, bits, w, j);
    }
  }

  lemma FillLayout(mem: seq<int>, bits: seq<int>, f: Frames, page: int)
    requires Layout(mem, bits, f) && |f.q| < |mem| && page >= 0
    ensures var k := |f.q|;
            Layout(mem[k := page], bits[k := 1], Frames(f.q + [Slot(page, true)], f.pointer))
  {
    var k := |f.q|;
    var s, t := Slots(mem, bits), Slots(mem[k := page], bits[k := 1]);
    assert t[..k + 1] == s[..k] + [Slot(page, true)];
    if k + 1 == |mem| {
      assert Around(t, 0) == t[..k + 1];
    }
  }

  lemma LayoutMembers(mem: seq<int>, bits: seq<int>, f: Frames, page: int)
    requires Layout(mem, bits, f) && page >= 0
    ensures page in mem <==> Holds(f.q, page)
    ensures EMPTY in mem <==> |f.q| < |mem|
  {
    if |f.q| < |mem| {
      assert forall i {:trigger mem[i]} | 0 <= i < |f.q| :: f.q[i].page == mem[i];
      assert mem[|f.q|] == EMPTY;
    } else {
      AroundMembers(mem, bits, Start(|mem|, f.pointer), page);
      AroundMembers(mem, bits, Start(|mem|, f.pointer), EMPTY);
    }
  }

  /** One reference under second chance. */
  method VisitSecondchance(memList: array<int>, bits: array<int>, page: int, pointer: nat, beyond: int, ghost f: Frames)
    returns (hit: bool, p: nat)
    requires memList != bits && memList.Length > 0 && page >= 0
    requires Layout(memList[..], bits[..], f) && f.pointer == pointer && OnePerPage(f.q)
    modifies memList, bits
    ensures hit == Holds(f.q, page)
    ensures Layout(memList[..], bits[..], CodeStep(memList.Length, f, page, beyond))
    ensures p == CodeStep(memList.Length, f, page, beyond).pointer
    ensures ClockStep(Clock(old(memList[..]), old(bits[..]), pointer), page, beyond, Clock(memList[..], bits[..], p))
  {
    p := pointer;
    ghost var mem, old_bits := memList[..], bits[..];
    ghost var c := Clock(mem, old_bits, pointer);
    LayoutMembers(mem, old_bits, f, page);
    var j := Probe(memList, page);
    ProbeSlots(mem, old_bits, f, page, j);
    if j < memList.Length && memList[j] == page {
      hit := true;
      HitLayout(mem, old_bits, f, j);
      bits[j] := 1;
      assert UsedAt(c, page, Clock(memList[..], bits[..], p), j);
    } else if j < memList.Length {
      hit := false;
      FillLayout(mem, old_bits, f, page);
      memList[j] := page;
      bits[j] := 1;
      assert LoadedAt(c, page, Clock(memList[..], bits[..], p), j);
    } else {
      hit := false;
      p := Evict(memList, bits, page, p, beyond, f);
    }
  }

  /** A full list of frames, in the order r from frame p on, after frame p is given to a
      new page. */
  lemma ReplacedLayout(mem: seq<int>, bits: seq<int>, r: seq<Slot>, p: nat, page: int)
    requires |mem| == |bits| && p < |mem| && page >= 0
    requires r == Around(Slots(mem, bits), p) && forall i | 0 <= i < |r| :: r[i].page >= 0
    ensures Layout(mem[p := page], bits, Frames(r[1..] + [Slot(page, r[0].chance)], p + 1))
  {
    assert r[0] == Slots(mem, bits)[p];
  }

  /** Where the search for a page to evict ends, and the queue as it left it. */
  ghost predicate SearchEnds(n: nat, f: Frames, beyond: int, r: seq<Slot>, p: nat) {
    if f.pointer >= n && beyond != 1 then r == f.q && p == 0
    else n > 0 && r == Rotate(f.q) && p == Wrap(n, Start(n, f.pointer) + Lead(f.q))
  }

  /** An eviction takes the front of that queue. */
  lemma EvictStep(n: nat, f: Frames, page: int, beyond: int, r: seq<Slot>, p: nat)
    requires 0 < n == |f.q| && !Holds(f.q, page) && SearchEnds(n, f, beyond, r, p)
    ensures CodeStep(n, f, page, beyond) == Frames(r[1..] + [Slot(page, r[0].chance)], p + 1)
  {}

  lemma EndPages(n: nat, f: Frames, beyond: int, r: seq<Slot>, p: nat)
    requires SearchEnds(n, f, beyond, r, p) && forall i | 0 <= i < |f.q| :: f.q[i].page >= 0
    ensures forall i | 0 <= i < |r| :: r[i].page >= 0
  {
    RotatePages(f.q);
  }

  method Evict(memList: array<int>, bits: array<int>, page: int, pointer: nat, beyond: int, ghost f: Frames)
    returns (p: nat)
    requires memList != bits && memList.Length > 0 && page >= 0
    requires Layout(memList[..], bits[..], f) && f.pointer == pointer
    requires !Holds(f.q, page) && |f.q| == memList.Length
    modifies memList, bits
    ensures Layout(memList[..], bits[..], CodeStep(memList.Length, f, page, beyond))
    ensures p == CodeStep(memList.Length, f, page, beyond).pointer
    ensures var c, c' := Clock(old(memList[..]), old(bits[..]), pointer), Clock(memList[..], bits[..], p);
            if pointer < memList.Length || beyond == 1 then SearchedFor(c, page, c', Lead(f.q))
            else c' == Clock(c.mem[0 := page], c.bits, 1)
  {
    ghost var mem := memList[..];
    ghost var c := Clock(mem, bits[..], pointer);
    p := Search(bits, pointer, beyond, mem);
    if pointer < memList.Length || beyond == 1 {
      SearchTakes(c, page, bits[..], Lead(f.q), p);
    }
    ghost var r := if pointer >= memList.Length && beyond != 1 then f.q else Rotate(f.q);
    EndPages(memList.Length, f, beyond, r, p);
    EvictStep(memList.Length, f, page, beyond, r, p);
    ReplacedLayout(mem, bits[..], r, p, page);
    memList[p] := page;
    assert memList[..] == mem[p := page];
    p := p + 1;
  }

  /** Second chance on a reference string; beyond[i] is what the cell behind the bits
      holds when the i-th reference is served. */
  method ReplaceAlgSecondchance(memList: array<int>, pageToVisit: array<int>, beyond: seq<int>)
    returns (hits: seq<bool>, bits: array<int>, ghost trace: seq<Clock>)
    requires memList != pageToVisit && memList.Length > 0 && Pages(pageToVisit[..])
    requires |beyond| == pageToVisit.Length
    requires forall j | 0 <= j < memList.Length :: memList[j] == EMPTY
    modifies memList
    ensures fresh(bits)
    ensures hits == Hits(memList.Length, old(pageToVisit[..]), beyond)
    ensures Layout(memList[..], bits[..], Run(memList.Length, old(pageToVisit[..]), beyond))
    ensures ClockTrace(trace, memList.Length, old(pageToVisit[..]), beyond)
    ensures trace[pageToVisit.Length].mem == memList[..] && trace[pageToVisit.Length].bits == bits[..]
  {
    var n := memList.Length;
    hits := [];
    bits := new int[n](_ => 0);
    var pointer := 0;
    ghost var refs := pageToVisit[..];
    ghost var f := Frames([], 0);
    trace := [Clock(memList[..], bits[..], pointer)];
    assert memList[..] == Blanks(n) && bits[..] == seq(n, _ => 0);
    for i := 0 to pageToVisit.Length
      invariant pageToVisit[..] == refs
      invariant f == Run(n, refs[..i], beyond[..i]) && f.pointer == pointer
      invariant hits == Hits(n, refs[..i], beyond[..i])
      invariant Layout(memList[..], bits[..], f)
      invariant ClockTrace(trace, n, refs[..i], beyond[..i]) && trace[i] == Clock(memList[..], bits[..], pointer)
    {
      RunFacts(n, refs[..i], beyond[..i]);
      RunExtend(n, refs, beyond, i);
      var hit: bool;
      hit, pointer := VisitSecondchance(memList, bits, pageToVisit[i], pointer, beyond[i], f);
      f := CodeStep(n, f, refs[i], beyond[i]);
      hits := hits + [hit];
      ClockExtend(trace, n, refs, beyond, i, Clock(memList[..], bits[..], pointer));
      trace := trace + [Clock(memList[..], bits[..], pointer)];
    }
    assert refs[..pageToVisit.Length] == refs && beyond[..pageToVisit.Length] == beyond;
  }
}
