/** backtrace_alloc and backtrace_free called from any number of threads: a try-lock guards
    the free list, and whoever misses the lock goes to mmap or leaks. Steps are single
    accesses to the lock or to the list, in any interleaving. */
module AllocatorRuns {
  import opened FreeList
  import opened Options

  const UNMAP: nat := 65536 // 16 * 4096: blocks this large may go back to the system

  /** What happens once the lock is released: return (perhaps a block), or go on to mmap. */
  datatype After = Return(ret: Option<Block>) | NeedMap(size: nat)

  datatype Phase =
    | Idle
    | TryAlloc(size: nat)                                   // before the test-and-set
    | Walk(size: nat, i: nat)                               // at entry i of the list
    | Scan(b: Block, ret: Option<Block>, c: nat, small: nat) // freeing b: counting entries
    | Push(b: Block, ret: Option<Block>)                    // about to put b on the list
    | Release(after: After)                                 // about to release the lock
    | Mapping(size: nat)                                    // about to call mmap
    | TryFree(b: Block, ret: Option<Block>)                 // before the test-and-set

  /** The lock, the free list, the blocks the callers own, and the threads. */
  datatype State = State(lock: bool, list: seq<Block>, live: seq<Block>, threads: seq<Phase>)

  /** The phases between taking and releasing the lock. */
  predicate Inside(p: Phase) { p.Walk? || p.Scan? || p.Push? || p.Release? }

  ghost predicate Init(s: State)
  {
    s.lock == false && s.list == [] && s.live == [] && forall t :: 0 <= t < |s.threads| ==> s.threads[t] == Idle
  }

  function Go(s: State, t: nat, p: Phase): State
    requires t < |s.threads|
  {
    s.(threads := s.threads[t := p])
  }

  /** Hand a block, if there is one, to the caller. */
  function Finish(s: State, t: nat, ret: Option<Block>): State
    requires t < |s.threads|
  {
    var s' := if ret.Some? then s.(live := s.live + [ret.value]) else s;
    s'.(threads := s.threads[t := Idle])
  }

  /** Free b inside the lock: small blocks are leaked. */
  function FreeInside(b: Block, ret: Option<Block>): Phase
  {
    if b.size < HEADER then Release(Return(ret)) else Scan(b, ret, 0, 0)
  }

  /** The rest of block p behind the part given to the caller. */
  function Remainder(p: Block, size: nat): Block
    requires Rounded(size) < p.size
  {
    Block(p.addr + Rounded(size), p.size - Rounded(size))
  }

  ghost predicate Step(s: State, s': State, t: nat)
  {
    t < |s.threads| &&
    match s.threads[t]
    case Idle => StartAlloc(s, s', t) || StartFree(s, s', t)
    case TryAlloc(size) =>
      if s.lock then s' == Go(s, t, Mapping(size)) else s' == Go(s, t, Walk(size, 0)).(lock := true)
    case Walk(size, i) => WalkStep(s, s', t, size, i)
    case Scan(b, ret, c, small) => ScanStep(s, s', t, b, ret, c, small)
    case Push(b, ret) => s' == Go(s, t, Release(Return(ret))).(list := [b] + s.list)
    case Release(after) =>
      (match after
       case Return(ret) => s' == Finish(s, t, ret).(lock := false)
       case NeedMap(size) => s' == Go(s, t, Mapping(size)).(lock := false))
    case Mapping(size) => s' == Go(s, t, Idle) || MapStep(s, s', t, size)
    case TryFree(b, ret) =>
      // unmapped if it is large (and aligned), leaked if the lock is taken
      || ((b.size >= UNMAP || s.lock) && s' == Finish(s, t, ret))
      || (!s.lock && s' == Go(s, t, FreeInside(b, ret)).(lock := true))
  }

  ghost predicate StartAlloc(s: State, s': State, t: nat)
    requires t < |s.threads|
  {
    exists size :: s' == Go(s, t, TryAlloc(size))
  }

  /** A caller frees part of a block it owns, and keeps what lies before and behind it. */
  ghost predicate StartFree(s: State, s': State, t: nat)
    requires t < |s.threads|
  {
    exists k: nat, b: Block :: FreePart(s, s', t, k, b)
  }

  ghost predicate FreePart(s: State, s': State, t: nat, k: nat, b: Block)
    requires t < |s.threads|
  {
    && k < |s.live| && s.live[k].addr <= b.addr && b.addr + b.size <= s.live[k].addr + s.live[k].size
    && var o := s.live[k];
       s' == Go(s, t, TryFree(b, None)).(live := Without(s.live, k) +
               [Block(o.addr, b.addr - o.addr), Block(b.addr + b.size, o.addr + o.size - (b.addr + b.size))])
  }

  /** First fit: unlink the entry and split it. */
  ghost predicate WalkStep(s: State, s': State, t: nat, size: nat, i: nat)
    requires t < |s.threads|
  {
    if i >= |s.list| then s' == Go(s, t, Release(NeedMap(size)))
    else if s.list[i].size < size then s' == Go(s, t, Walk(size, i + 1))
    else
      var p := s.list[i];
      s' == Go(s, t, if Rounded(size) < p.size
                     then FreeInside(Remainder(p, size), Some(Given(p, size)))
                     else Release(Return(Some(Given(p, size))))).(list := Without(s.list, i))
  }

  /** Count the entries and remember the first smallest; a full list loses it. */
  ghost predicate ScanStep(s: State, s': State, t: nat, b: Block, ret: Option<Block>, c: nat, small: nat)
    requires t < |s.threads|
  {
    if c < |s.list| then
      && (c > 0 ==> small < |s.list|)
      && s' == Go(s, t, Scan(b, ret, c + 1, if c == 0 || s.list[c].size < s.list[small].size then c else small))
    else if c >= LIMIT then
      && small < |s.list|
      && if b.size <= s.list[small].size then s' == Go(s, t, Release(Return(ret)))
         else s' == Go(s, t, Push(b, ret)).(list := Without(s.list, small))
    else s' == Go(s, t, Push(b, ret))
  }

  /** mmap gives a region that nobody has; its rest is freed. */
  ghost predicate MapStep(s: State, s': State, t: nat, size: nat)
    requires t < |s.threads|
  {
    exists addr: nat, ask: nat :: Mapped(s, s', t, size, Block(addr, ask))
  }

  ghost predicate Mapped(s: State, s': State, t: nat, size: nat, page: Block)
    requires t < |s.threads|
  {
    && Rounded(size) <= page.size
    && (forall x: nat :: At(page, x) > 0 ==> Total(s, x) == 0)
    && s' == if Rounded(size) < page.size then Go(s, t, TryFree(Remainder(page, size), Some(Given(page, size))))
             else Finish(s, t, Some(page))
  }

  // ----- who has which byte

  function OptAt(o: Option<Block>, x: nat): nat
  {
    if o.Some? then At(o.value, x) else 0
  }

  /** How often byte x lies in what a thread has in hand. */
  function Held(p: Phase, x: nat): nat
  {
    match p
    case Scan(b, ret, _, _) => At(b, x) + OptAt(ret, x)
    case Push(b, ret) => At(b, x) + OptAt(ret, x)
    case TryFree(b, ret) => At(b, x) + OptAt(ret, x)
    case Release(Return(ret)) => OptAt(ret, x)
    case _ => 0
  }

  function HeldSum(threads: seq<Phase>, x: nat): nat
  {
    if |threads| == 0 then 0 else Held(threads[0], x) + HeldSum(threads[1..], x)
  }

  /** How often byte x is on the list, in the callers' hands or in a thread's. */
  function Total(s: State, x: nat): nat
  {
    Sum(s.list, x) + Sum(s.live, x) + HeldSum(s.threads, x)
  }

  lemma {:induction false} HeldUpdate(threads: seq<Phase>, t: nat, p: Phase, x: nat)
    requires t < |threads|
    ensures HeldSum(threads[t := p], x) + Held(threads[t], x) == HeldSum(threads, x) + Held(p, x)
  {
    hide Held;
    if t == 0 {
      assert threads[t := p][1..] == threads[1..];
    } else {
      HeldUpdate(threads[1..], t - 1, p, x);
      assert threads[t := p][1..] == threads[1..][t - 1 := p];
    }
  }

  /** What thread t's step can touch. */
  function Local(s: State, t: nat, x: nat): nat
    requires t < |s.threads|
  {
    Sum(s.list, x) + Sum(s.live, x) + Held(s.threads[t], x)
  }

  /** No step but mmap makes bytes: they move between places, or are leaked. */
  lemma LocalStep(s: State, s': State, t: nat, x: nat)
    requires Step(s, s', t) && !s.threads[t].Mapping?
    ensures |s'.threads| == |s.threads| && Local(s', t, x) <= Local(s, t, x)
  {
    hide At, Sum, Rounded;
    match s.threads[t]
    case Idle => if StartFree(s, s', t) { FreePartBytes(s, s', t, x); }
    case TryAlloc(size) =>
    case Walk(size, i) => WalkBytes(s, s', t, x);
    case Scan(b, ret, c, small) => if c >= LIMIT && small < |s.list| { SumWithout(s.list, small, x); }
    case Push(b, ret) => SumCons(b, s.list, x);
    case Release(after) => if after.Return? { FinishBytes(s, t, after.ret, x); }
    case TryFree(b, ret) => FinishBytes(s, t, ret, x);
  }

  lemma FinishBytes(s: State, t: nat, ret: Option<Block>, x: nat)
    requires t < |s.threads|
    ensures Local(Finish(s, t, ret), t, x) == Sum(s.list, x) + Sum(s.live, x) + OptAt(ret, x)
  {
    if ret.Some? { SumSnoc(s.live, ret.value, x); }
  }

  lemma FreePartBytes(s: State, s': State, t: nat, x: nat)
    requires t < |s.threads| && s.threads[t] == Idle && StartFree(s, s', t)
    ensures |s'.threads| == |s.threads| && Local(s', t, x) == Local(s, t, x)
  {
    var k: nat, b: Block :| FreePart(s, s', t, k, b);
    var o := s.live[k];
    var pre, post := Block(o.addr, b.addr - o.addr), Block(b.addr + b.size, o.addr + o.size - (b.addr + b.size));
    hide Sum;
    SumWithout(s.live, k, x);
    assert Without(s.live, k) + [pre, post] == Without(s.live, k) + [pre] + [post];
    SumSnoc(Without(s.live, k), pre, x);
    SumSnoc(Without(s.live, k) + [pre], post, x);
  }

  lemma WalkBytes(s: State, s': State, t: nat, x: nat)
    requires t < |s.threads| && s.threads[t].Walk? && WalkStep(s, s', t, s.threads[t].size, s.threads[t].i)
    ensures |s'.threads| == |s.threads| && Local(s', t, x) <= Local(s, t, x)
  {
    var Walk(size, i) := s.threads[t];
    hide Sum, Rounded;
    if i < |s.list| && s.list[i].size >= size {
      SumWithout(s.list, i, x);
    }
  }

  /** mmap's bytes are new: only what nobody had is added. */
  lemma MapBytes(s: State, s': State, t: nat, x: nat)
    requires t < |s.threads| && s.threads[t].Mapping? && (s' == Go(s, t, Idle) || MapStep(s, s', t, s.threads[t].size))
    ensures |s'.threads| == |s.threads|
    ensures Local(s', t, x) <= Local(s, t, x) || (Local(s', t, x) <= Local(s, t, x) + 1 && Total(s, x) == 0)
  {
    hide Sum, Total, Rounded;
    var size := s.threads[t].size;
    if s' != Go(s, t, Idle) {
      var addr: nat, ask: nat :| Mapped(s, s', t, size, Block(addr, ask));
      var page := Block(addr, ask);
      assert At(page, x) > 0 ==> Total(s, x) == 0;
      if Rounded(size) >= ask { FinishBytes(s, t, Some(page), x); }
    }
  }

  /** A step changes the phase of its own thread only. */
  lemma OthersStay(s: State, s': State, t: nat)
    requires Step(s, s', t)
    ensures |s'.threads| == |s.threads| && s'.threads == s.threads[t := s'.threads[t]]
  {
    hide At, Sum, Rounded, Total, Without, Remainder, Given;
  }

  lemma TotalStep(s: State, s': State, t: nat, x: nat)
    requires Step(s, s', t) && Total(s, x) <= 1
    ensures Total(s', x) <= 1
  {
    OthersStay(s, s', t);
    HeldUpdate(s.threads, t, s'.threads[t], x);
    if s.threads[t].Mapping? {
      hide Held;
      MapBytes(s, s', t, x);
    } else {
      hide Step, Held;
      LocalStep(s, s', t, x);
    }
  }

  // ----- the invariant

  /** No byte is in two places. */
  ghost predicate Disjoint(s: State) { forall x: nat :: Total(s, x) <= 1 }

  /** The lock is taken exactly while one thread, and no other, is inside. */
  ghost predicate Exclusive(s: State)
  {
    && (s.lock ==> exists t: nat :: t < |s.threads| && Inside(s.threads[t]))
    && (forall t: nat :: t < |s.threads| && Inside(s.threads[t]) ==> s.lock)
    && (forall t: nat, u: nat ::
          t < |s.threads| && u < |s.threads| && Inside(s.threads[t]) && Inside(s.threads[u]) ==> t == u)
  }

  /** Where a thread inside the lock stands in the list. */
  ghost predicate Knows(list: seq<Block>, p: Phase)
  {
    && (p.Push? ==> |list| < LIMIT && p.b.size >= HEADER)
    && (p.Scan? ==> p.b.size >= HEADER && p.c <= |list| && (p.c > 0 ==> IsSmallest(list[..p.c], p.small)))
    && (p.Walk? ==> p.i <= |list| && forall k :: 0 <= k < p.i ==> list[k].size < p.size)
  }

  ghost predicate Inv(s: State)
  {
    && Disjoint(s) && Exclusive(s) && |s.list| <= LIMIT
    && forall t: nat :: t < |s.threads| ==> Knows(s.list, s.threads[t])
  }

  lemma ExclusiveStep(s: State, s': State, t: nat)
    requires Step(s, s', t) && Exclusive(s)
    ensures Exclusive(s')
  {
    OthersStay(s, s', t);
    InsideStep(s, s', t);
    hide Step, Inside;
    forall u: nat | u < |s'.threads| ensures Inside(s'.threads[u]) ==> s'.lock && (u != t ==> !Inside(s'.threads[t])) {}
    if s'.lock && !Inside(s'.threads[t]) {
      var u: nat :| u < |s.threads| && Inside(s.threads[u]);
      assert u < |s'.threads| && Inside(s'.threads[u]);
    }
  }

  /** How a step moves its thread into and out of the lock. */
  lemma InsideStep(s: State, s': State, t: nat)
    requires Step(s, s', t)
    ensures |s'.threads| == |s.threads|
    ensures Inside(s.threads[t]) ==> s'.lock == (s.lock && Inside(s'.threads[t]))
    ensures !Inside(s.threads[t]) ==>
              if Inside(s'.threads[t]) then !s.lock && s'.lock else s'.lock == s.lock && s'.list == s.list
  {
    hide At, Sum, Rounded, Total, Without, Remainder, Given;
  }

  /** What the moving thread knows of the list afterwards. */
  lemma KnowsStep(s: State, s': State, t: nat)
    requires Step(s, s', t) && |s.list| <= LIMIT && Knows(s.list, s.threads[t])
    ensures |s'.threads| == |s.threads| && |s'.list| <= LIMIT && Knows(s'.list, s'.threads[t])
  {
    hide At, Sum, Rounded, Total, IsSmallest, Given;
    if s.threads[t].Scan? && s.threads[t].c < |s.list| {
      SmallestStep(s.list, s.threads[t].c, s.threads[t].small);
    }
  }

  /** Every step keeps the invariant. */
  lemma StepInv(s: State, s': State, t: nat)
    requires Step(s, s', t) && Inv(s)
    ensures Inv(s')
  {
    ExclusiveStep(s, s', t);
    KnowsStep(s, s', t);
    OthersStay(s, s', t);
    InsideStep(s, s', t);
    hide Step, Total, Knows;
    forall x: nat ensures Total(s', x) <= 1 { TotalStep(s, s', t, x); }
    forall u: nat | u < |s'.threads| ensures Knows(s'.list, s'.threads[u]) {
      if u != t && s'.list != s.list { OutsideKnows(s'.list, s.threads[u]); }
    }
  }

  lemma OutsideKnows(list: seq<Block>, p: Phase)
    requires !Inside(p)
    ensures Knows(list, p)
  {}

  // ----- whole runs

  /** A schedule: thread who[i] makes the i-th step. */
  ghost predicate Run(states: seq<State>, who: seq<nat>)
  {
    && |states| == |who| + 1 && Init(states[0])
    && forall i: nat :: i < |who| ==> Step(states[i], states[i + 1], who[i])
  }

  lemma {:induction false} InitHeld(threads: seq<Phase>, x: nat)
    requires forall t :: 0 <= t < |threads| ==> threads[t] == Idle
    ensures HeldSum(threads, x) == 0
  {
    if |threads| > 0 { InitHeld(threads[1..], x); }
  }

  /** Every reachable state, under every interleaving of any number of threads. */
  lemma {:induction false} RunInv(states: seq<State>, who: seq<nat>, i: nat)
    requires Run(states, who) && i < |states|
    ensures Inv(states[i]) && |states[i].list| <= 16
  {
    hide Step;
    if i == 0 {
      forall x: nat ensures Total(states[0], x) <= 1 { InitHeld(states[0].threads, x); }
    } else {
      RunInv(states, who, i - 1);
      StepInv(states[i - 1], states[i], who[i - 1]);
    }
  }

  // ----- what the invariant means

  lemma SumTwo(s: seq<Block>, i: nat, j: nat, x: nat)
    requires i < j < |s|
    ensures At(s[i], x) + At(s[j], x) <= Sum(s, x)
  {
    hide At;
    SumWithout(s, j, x);
    SumWithout(Without(s, j), i, x);
  }

  lemma SumOne(s: seq<Block>, i: nat, x: nat)
    requires i < |s|
    ensures At(s[i], x) <= Sum(s, x)
  {
    SumWithout(s, i, x);
  }

  /** No two blocks share a byte: not two that callers own, not two on the list, not one of each. */
  lemma NoOverlap(s: State, x: nat)
    requires Inv(s)
    ensures forall i: nat, j: nat :: i < j < |s.live| ==> At(s.live[i], x) + At(s.live[j], x) <= 1
    ensures forall i: nat, j: nat :: i < j < |s.list| ==> At(s.list[i], x) + At(s.list[j], x) <= 1
    ensures forall i: nat, j: nat :: i < |s.list| && j < |s.live| ==> At(s.list[i], x) + At(s.live[j], x) <= 1
  {
    hide At, Sum, HeldSum;
    assert Total(s, x) <= 1;
    forall i: nat, j: nat | i < j < |s.live|
      ensures At(s.live[i], x) + At(s.live[j], x) <= 1
    {
      SumTwo(s.live, i, j, x);
    }
    forall i: nat, j: nat | i < j < |s.list|
      ensures At(s.list[i], x) + At(s.list[j], x) <= 1
    {
      SumTwo(s.list, i, j, x);
    }
    forall i: nat, j: nat | i < |s.list| && j < |s.live| ensures At(s.list[i], x) + At(s.live[j], x) <= 1 {
      SumOne(s.list, i, x);
      SumOne(s.live, j, x);
    }
  }

  /** Only the thread inside the lock changes the list, and nobody else is inside. */
  lemma OnlyHolderWrites(s: State, s': State, t: nat)
    requires Inv(s) && Step(s, s', t) && s'.list != s.list
    ensures s.lock && Inside(s.threads[t])
    ensures forall u: nat :: u < |s.threads| && u != t ==> !Inside(s.threads[u])
  {
    if !Inside(s.threads[t]) { EnterKeepsList(s, s', t); }
  }

  lemma EnterKeepsList(s: State, s': State, t: nat)
    requires Step(s, s', t) && !Inside(s.threads[t])
    ensures s'.list == s.list
  {
    hide At, Sum, Rounded, Total, Without, Remainder, Given;
  }

  /** Nobody ever waits: in every state every thread has a step to make. */
  lemma NeverBlocked(s: State, t: nat)
    requires Inv(s) && t < |s.threads|
    ensures exists s' :: Step(s, s', t)
  {
    hide At, Sum, Rounded, Total, Disjoint, Exclusive;
    var p := s.threads[t];
    assert Knows(s.list, p);
    match p
    case Idle => StepExists(s, Go(s, t, TryAlloc(0)), t);
    case TryAlloc(size) =>
      StepExists(s, if s.lock then Go(s, t, Mapping(size)) else Go(s, t, Walk(size, 0)).(lock := true), t);
    case Walk(size, i) => WalkGoesOn(s, t, size, i);
    case Scan(b, ret, c, small) => ScanGoesOn(s, t, b, ret, c, small);
    case Push(b, ret) => StepExists(s, Go(s, t, Release(Return(ret))).(list := [b] + s.list), t);
    case Release(after) =>
      var gone := if after.Return? then Finish(s, t, after.ret) else Go(s, t, Mapping(after.size));
      StepExists(s, gone.(lock := false), t);
    case Mapping(size) => StepExists(s, Go(s, t, Idle), t);
    case TryFree(b, ret) =>
      StepExists(s, if s.lock then Finish(s, t, ret) else Go(s, t, FreeInside(b, ret)).(lock := true), t);
  }

  lemma StepExists(s: State, s': State, t: nat)
    requires Step(s, s', t)
    ensures exists n :: Step(s, n, t)
  {}

  lemma WalkGoesOn(s: State, t: nat, size: nat, i: nat)
    requires t < |s.threads| && s.threads[t] == Walk(size, i)
    ensures exists s' :: Step(s, s', t)
  {
    hide At, Sum, Rounded, Total, Without;
    var next := if i >= |s.list| then Go(s, t, Release(NeedMap(size)))
                else if s.list[i].size < size then Go(s, t, Walk(size, i + 1))
                else Go(s, t, if Rounded(size) < s.list[i].size
                              then FreeInside(Remainder(s.list[i], size), Some(Given(s.list[i], size)))
                              else Release(Return(Some(Given(s.list[i], size))))).(list := Without(s.list, i));
    StepExists(s, next, t);
  }

  lemma ScanGoesOn(s: State, t: nat, b: Block, ret: Option<Block>, c: nat, small: nat)
    requires t < |s.threads| && s.threads[t] == Scan(b, ret, c, small) && Knows(s.list, s.threads[t])
    ensures exists s' :: Step(s, s', t)
  {
    hide At, Sum, Rounded, Total, Without;
    var small' := if c < |s.list| && (c == 0 || s.list[c].size < s.list[small].size) then c else small;
    var next := if c < |s.list| then Go(s, t, Scan(b, ret, c + 1, small'))
                else if c < LIMIT then Go(s, t, Push(b, ret))
                else if b.size <= s.list[small].size then Go(s, t, Release(Return(ret)))
                else Go(s, t, Push(b, ret)).(list := Without(s.list, small));
    StepExists(s, next, t);
  }

  // ----- a critical section is one atomic operation

  /** The list as the thread inside will leave it, by the sequential operations. */
  function Target(list: seq<Block>, p: Phase): seq<Block>
  {
    match p
    case Walk(size, _) => var k := FirstFit(list, size); if k < |list| then Taken(list, k, size) else list
    case Scan(b, _, _, _) => Freed(list, b)
    case Push(b, _) => [b] + list
    case _ => list
  }

  /** What the thread inside will go on to: return a block it found, return without one, or map. */
  function Answer(list: seq<Block>, p: Phase): After
  {
    match p
    case Walk(size, _) =>
      var k := FirstFit(list, size);
      if k < |list| then Return(Some(Given(list[k], size))) else NeedMap(size)
    case Scan(_, ret, _, _) => Return(ret)
    case Push(_, ret) => Return(ret)
    case Release(after) => after
    case _ => Return(None)
  }

  lemma WalkTarget(s: State, s': State, t: nat)
    requires Step(s, s', t) && Knows(s.list, s.threads[t]) && s.threads[t].Walk?
    ensures |s'.threads| == |s.threads|
    ensures Target(s'.list, s'.threads[t]) == Target(s.list, s.threads[t])
    ensures Answer(s'.list, s'.threads[t]) == Answer(s.list, s.threads[t])
  {
    hide At, Sum, Rounded, Total, Without, Smallest;
    var Walk(size, i) := s.threads[t];
    if i < |s.list| && s.list[i].size >= size { FirstFitUnique(s.list, size, i); }
  }

  lemma ScanTarget(s: State, s': State, t: nat)
    requires Step(s, s', t) && |s.list| <= LIMIT && Knows(s.list, s.threads[t]) &&
             (s.threads[t].Scan? || s.threads[t].Push?)
    ensures |s'.threads| == |s.threads|
    ensures Target(s'.list, s'.threads[t]) == Target(s.list, s.threads[t])
    ensures Answer(s'.list, s'.threads[t]) == Answer(s.list, s.threads[t])
  {
    hide At, Sum, Rounded, Total, Without, IsSmallest, FirstFit;
    if s.threads[t].Scan? && s.threads[t].c == LIMIT {
      assert s.list[..s.threads[t].c] == s.list;
      SmallestUnique(s.list, s.threads[t].small, Smallest(s.list));
    }
  }

  /** Between taking and releasing the lock, whatever the other threads do, the list and the
      answer become what the sequential operation makes of the list at entry. */
  lemma {:induction false} CriticalSection(states: seq<State>, who: seq<nat>, t: nat, i: nat, j: nat)
    requires Run(states, who) && i <= j < |states| && t < |states[i].threads|
    requires forall k: nat :: i <= k <= j ==> t < |states[k].threads| && Inside(states[k].threads[t])
    ensures Target(states[j].list, states[j].threads[t]) == Target(states[i].list, states[i].threads[t])
    ensures Answer(states[j].list, states[j].threads[t]) == Answer(states[i].list, states[i].threads[t])
  {
    hide Target, Answer, Step;
    if i < j {
      CriticalSection(states, who, t, i, j - 1);
      RunInv(states, who, j - 1);
      var s, s', u := states[j - 1], states[j], who[j - 1];
      assert t < |s.threads| && Inside(s.threads[t]);
      assert t < |s'.threads| && Inside(s'.threads[t]);
      SectionStep(s, s', t, u);
    }
  }

  lemma SectionStep(s: State, s': State, t: nat, u: nat)
    requires Inv(s) && Step(s, s', u) && t < |s.threads| && Inside(s.threads[t]) && t < |s'.threads| &&
             Inside(s'.threads[t])
    ensures Target(s'.list, s'.threads[t]) == Target(s.list, s.threads[t])
    ensures Answer(s'.list, s'.threads[t]) == Answer(s.list, s.threads[t])
  {
    hide Target, Answer, Knows;
    OthersStay(s, s', u);
    assert Knows(s.list, s.threads[t]);
    if u != t {
      assert !Inside(s.threads[u]);
      EnterKeepsList(s, s', u);
    } else if s.threads[t].Walk? {
      WalkTarget(s, s', t);
    } else if s.threads[t].Release? {
      ReleaseLeaves(s, s', t);
      assert false;
    } else {
      ScanTarget(s, s', t);
    }
  }

  lemma ReleaseLeaves(s: State, s': State, t: nat)
    requires Step(s, s', t) && s.threads[t].Release?
    ensures |s'.threads| == |s.threads| && !Inside(s'.threads[t]) && !s'.lock && s'.list == s.list
  {}

  /** Freeing, seen from outside: entry to release is one backtrace_free_locked. */
  lemma FreeIsAtomic(states: seq<State>, who: seq<nat>, t: nat, i: nat, j: nat)
    requires Run(states, who) && i <= j < |states| && t < |states[i].threads|
    requires forall k: nat :: i <= k <= j ==> t < |states[k].threads| && Inside(states[k].threads[t])
    requires states[i].threads[t].Scan? && states[j].threads[t].Release?
    ensures states[j].list == Freed(states[i].list, states[i].threads[t].b)
    ensures states[j].threads[t].after == Return(states[i].threads[t].ret)
  {
    CriticalSection(states, who, t, i, j);
  }

  /** Allocating, seen from outside: entry to release is one first-fit search and split. */
  lemma AllocIsAtomic(states: seq<State>, who: seq<nat>, t: nat, i: nat, j: nat)
    requires Run(states, who) && i <= j < |states| && t < |states[i].threads|
    requires forall k: nat :: i <= k <= j ==> t < |states[k].threads| && Inside(states[k].threads[t])
    requires states[i].threads[t].Walk? && states[j].threads[t].Release?
    ensures var list, size := states[i].list, states[i].threads[t].size;
            var k := FirstFit(list, size);
            if k < |list|
            then states[j].list == Taken(list, k, size) &&
              states[j].threads[t].after == Return(Some(Given(list[k], size)))
            else states[j].list == list && states[j].threads[t].after == NeedMap(size)
  {
    hide Step, FirstFit;
    CriticalSection(states, who, t, i, j);
  }
}
