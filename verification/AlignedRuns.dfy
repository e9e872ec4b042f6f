/** Alignment in the allocator: over every run in which mmap returns multiples of eight and callers free at
    such addresses, all blocks on the free list and all answers start at multiples of eight. */
module AlignedRuns {
  import opened FreeList
  import opened AllocatorRuns
  import opened Options

  predicate OnEight(b: Block) { b.addr % 8 == 0 }

  predicate AnswerOnEight(o: Option<Block>) { o.Some? ==> OnEight(o.value) }

  /** What a thread has in hand. */
  predicate HandOnEight(p: Phase)
  {
    match p
    case Scan(b, ret, _, _) => OnEight(b) && AnswerOnEight(ret)
    case Push(b, ret) => OnEight(b) && AnswerOnEight(ret)
    case TryFree(b, ret) => OnEight(b) && AnswerOnEight(ret)
    case Release(Return(ret)) => AnswerOnEight(ret)
    case _ => true
  }

  ghost predicate AllOnEight(s: State)
  {
    && (forall i :: 0 <= i < |s.list| ==> OnEight(s.list[i]))
    && (forall t :: 0 <= t < |s.threads| ==> HandOnEight(s.threads[t]))
  }

  /** A step in which a caller frees, or mmap answers, at a multiple of eight only. */
  ghost predicate PoliteStep(s: State, s': State, t: nat)
  {
    && Step(s, s', t)
    && (s.threads[t].Idle? && StartFree(s, s', t) ==> exists k: nat, b: Block :: FreePart(s, s', t, k, b) && OnEight(b))
    && (s.threads[t].Mapping? && s' != Go(s, t, Idle) ==>
          exists addr: nat, ask: nat ::
            Mapped(s, s', t, s.threads[t].size, Block(addr, ask)) && OnEight(Block(addr, ask)))
  }

  /** The rest behind what is given out starts on a multiple of eight, because what is given out is rounded. */
  lemma SplitOnEight(p: Block, size: nat)
    requires OnEight(p) && size <= p.size
    ensures OnEight(Given(p, size)) && (Rounded(size) < p.size ==> OnEight(Remainder(p, size)))
  {}

  lemma WithoutOnEight(list: seq<Block>, i: nat)
    requires i < |list| && forall k :: 0 <= k < |list| ==> OnEight(list[k])
    ensures forall k :: 0 <= k < |Without(list, i)| ==> OnEight(Without(list, i)[k])
  {}

  lemma StepOnEight(s: State, s': State, t: nat)
    requires PoliteStep(s, s', t) && AllOnEight(s)
    ensures AllOnEight(s')
  {
    OthersStay(s, s', t);
    MoverOnEight(s, s', t);
  }

  /** The list and the moving thread. */
  lemma MoverOnEight(s: State, s': State, t: nat)
    requires PoliteStep(s, s', t) && AllOnEight(s)
    ensures |s'.threads| == |s.threads| && HandOnEight(s'.threads[t])
    ensures forall i :: 0 <= i < |s'.list| ==> OnEight(s'.list[i])
  {
    hide Rounded, At, Total, OnEight, Given, Remainder, Without;
    assert HandOnEight(s.threads[t]);
    match s.threads[t]
    case Walk(size, i) =>
      if i < |s.list| && s.list[i].size >= size {
        SplitOnEight(s.list[i], size);
        WithoutOnEight(s.list, i);
      }
    case Scan(b, ret, c, small) => if c >= |s.list| && small < |s.list| { WithoutOnEight(s.list, small); }
    case Mapping(size) =>
      if s' != Go(s, t, Idle) {
        var addr: nat, ask: nat :| Mapped(s, s', t, size, Block(addr, ask)) && OnEight(Block(addr, ask));
        MapFits(size, ask);
        SplitOnEight(Block(addr, ask), size);
      }
    case _ =>
  }

  lemma MapFits(size: nat, ask: nat)
    requires Rounded(size) <= ask
    ensures size <= ask
  {}

  /** A run of such steps. */
  ghost predicate PoliteRun(states: seq<State>, who: seq<nat>)
  {
    Run(states, who) && forall i: nat :: i < |who| ==> PoliteStep(states[i], states[i + 1], who[i])
  }

  /** In every state of every such run. */
  lemma {:induction false} RunOnEight(states: seq<State>, who: seq<nat>, i: nat)
    requires PoliteRun(states, who) && i < |states|
    ensures AllOnEight(states[i])
  {
    hide PoliteStep, Step;
    if i > 0 {
      RunOnEight(states, who, i - 1);
      StepOnEight(states[i - 1], states[i], who[i - 1]);
    }
  }

  /** Step i + 1 hands block b to the caller. */
  ghost predicate HandsOut(s: State, s': State, t: nat, b: Block)
  {
    t < |s.threads| && !s.threads[t].Idle? && s'.live == s.live + [b]
  }

  /** So every block that an allocation hands out starts at a multiple of eight. */
  lemma AnswersOnEight(states: seq<State>, who: seq<nat>, i: nat, b: Block)
    requires PoliteRun(states, who) && i < |who| && HandsOut(states[i], states[i + 1], who[i], b)
    ensures b.addr % 8 == 0
  {
    RunOnEight(states, who, i);
    AnswerStep(states[i], states[i + 1], who[i], b);
  }

  lemma AnswerStep(s: State, s': State, t: nat, b: Block)
    requires PoliteStep(s, s', t) && AllOnEight(s) && HandsOut(s, s', t, b)
    ensures OnEight(b)
  {
    hide Rounded, At, Total, OnEight, Given, Remainder, Without;
    assert HandOnEight(s.threads[t]);
    assert s'.live[|s.live|] == b;
    if s.threads[t].Mapping? {
      var addr: nat, ask: nat :| Mapped(s, s', t, s.threads[t].size, Block(addr, ask)) && OnEight(Block(addr, ask));
    }
  }

  /** Rounding is what it rests on: of a block at 1000 (hex) with 64 bytes, a request for 13 leaves 48 bytes at
      1010. */
  lemma ThirteenOfSixtyFour()
    ensures Taken([Block(0x1000, 64)], 0, 13) == [Block(0x1010, 48)]
    ensures Given(Block(0x1000, 64), 13) == Block(0x1000, 16)
  {
    assert Without([Block(0x1000, 64)], 0) == [];
  }
}
