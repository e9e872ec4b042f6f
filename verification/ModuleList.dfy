/** The list of modules (backtrace_dwarf_add in threaded mode, and the readers in
    dwarf_fileline): nodes are appended with a compare-and-swap on the null pointer at the
    end, found by walking the list. Every step of every thread is one access to memory. */
module ModuleList {
  import opened Options

  type Node = nat

  /** The address of a pointer in the list: the list head, or the next field of a node. */
  datatype Place = Head | NextOf(n: Node)

  datatype Thread =
    | Idle
      /** about to load the pointer at pp */
    | Walking(node: Node, pp: Place)
      /** found null at pp when `len` nodes were in the list; about to compare and swap */
    | Swapping(node: Node, pp: Place, len: nat)
    | Appended(node: Node)
    | Reading(pp: Place, seen: seq<Node>)
    | ReadAll(seen: seq<Node>, len: nat)

  /** The memory; the order of the successful swaps; and the threads. */
  datatype State = State(head: Option<Node>, next: map<Node, Option<Node>>, order: seq<Node>, threads: seq<Thread>)

  predicate Readable(s: State, pp: Place) { pp.NextOf? ==> pp.n in s.next }

  function Load(s: State, pp: Place): Option<Node>
    requires Readable(s, pp)
  {
    if pp.Head? then s.head else s.next[pp.n]
  }

  function Store(s: State, pp: Place, n: Node): State
  {
    if pp.Head? then s.(head := Some(n)) else s.(next := s.next[pp.n := Some(n)])
  }

  ghost predicate Init(s: State)
  {
    s.head == None && s.next == map[] && s.order == [] && forall t :: 0 <= t < |s.threads| ==> s.threads[t] == Idle
  }

  /** One step of thread t. */
  ghost predicate Step(s: State, s': State, t: nat)
  {
    t < |s.threads| &&
    match s.threads[t]
    case Idle =>
      || (exists n :: n !in s.next &&
            s' == s.(next := s.next[n := None], threads := s.threads[t := Walking(n, Head)])) // next is null
      || s' == s.(threads := s.threads[t := Reading(Head, [])])
    case Walking(n, pp) =>
      Readable(s, pp) &&
      s' == s.(threads := s.threads[t :=
        match Load(s, pp)
        case None => Swapping(n, pp, |s.order|)
        case Some(p) => Walking(n, NextOf(p))])
    case Swapping(n, pp, _) =>
      Readable(s, pp) &&
      if Load(s, pp) == None
      then s' == Store(s, pp, n).(order := s.order + [n], threads := s.threads[t := Appended(n)])
      else s' == s.(threads := s.threads[t := Walking(n, Head)])
    case Appended(n) => s' == s.(threads := s.threads[t := Idle])
    case Reading(pp, seen) =>
      Readable(s, pp) &&
      (|| s' == s.(threads := s.threads[t :=
            match Load(s, pp)
            case None => ReadAll(seen, |s.order|)
            case Some(p) => Reading(NextOf(p), seen + [p])])
       || s' == s.(threads := s.threads[t := Idle])) // the pc was found
    case ReadAll(_, _) => s' == s.(threads := s.threads[t := Idle])
  }

  // ----- the invariant

  /** The place at the end of a list of nodes. */
  function End(nodes: seq<Node>): Place
  {
    if |nodes| == 0 then Head else NextOf(nodes[|nodes| - 1])
  }

  ghost predicate Distinct(nodes: seq<Node>)
  {
    forall i, j :: 0 <= i < j < |nodes| ==> nodes[i] != nodes[j]
  }

  /** The pointers spell `order` and end in null. */
  ghost predicate Linked(s: State)
  {
    && Distinct(s.order)
    && s.head == (if |s.order| == 0 then None else Some(s.order[0]))
    && (forall i :: 0 <= i < |s.order| ==> LinkAt(s, i))
  }

  ghost predicate LinkAt(s: State, i: nat)
    requires i < |s.order|
  {
    s.order[i] in s.next && s.next[s.order[i]] == if i + 1 < |s.order| then Some(s.order[i + 1]) else None
  }

  ghost predicate Holds(th: Thread, n: Node)
  {
    (th.Walking? && th.node == n) || (th.Swapping? && th.node == n)
  }

  /** A place in the published list. */
  ghost predicate Published(s: State, pp: Place)
  {
    pp.NextOf? ==> pp.n in s.order
  }

  ghost predicate ThreadOk(s: State, th: Thread)
  {
    match th
    case Idle => true
    case Walking(n, pp) => n in s.next && n !in s.order && s.next[n] == None && Published(s, pp)
    case Swapping(n, pp, len) =>
      n in s.next && n !in s.order && s.next[n] == None && len <= |s.order| && pp == End(s.order[..len])
    case Appended(n) => n in s.order
    case Reading(pp, seen) => seen <= s.order && pp == End(seen)
    case ReadAll(seen, len) => len <= |s.order| && seen == s.order[..len]
  }

  ghost predicate Inv(s: State)
  {
    && Linked(s)
    && (forall t :: 0 <= t < |s.threads| ==> ThreadOk(s, s.threads[t]))
    && (forall t, u, n :: 0 <= t < u < |s.threads| && Holds(s.threads[t], n) ==> !Holds(s.threads[u], n))
  }

  lemma InitInv(s: State)
    requires Init(s)
    ensures Inv(s)
  {}

  /** What a published place holds. */
  lemma LoadPublished(s: State, k: nat)
    requires Linked(s) && k <= |s.order|
    ensures Readable(s, End(s.order[..k]))
    ensures Load(s, End(s.order[..k])) == if k < |s.order| then Some(s.order[k]) else None
  {
    if k > 0 { assert s.order[..k][k - 1] == s.order[k - 1] && LinkAt(s, k - 1); }
  }

  lemma LinkedSame(s: State, s': State)
    requires Linked(s) && s'.head == s.head && s'.order == s.order
    requires forall n :: n in s.order && n in s.next ==> n in s'.next && s'.next[n] == s.next[n]
    ensures Linked(s') && forall n :: n in s.order ==> n in s.next
  {
    forall i | 0 <= i < |s.order|
      ensures LinkAt(s', i) && s.order[i] in s.next
    {
      assert LinkAt(s, i);
    }
  }

  /** The swap appends. */
  lemma AppendLinked(s: State, n: Node)
    requires Linked(s) && n in s.next && n !in s.order && s.next[n] == None
    ensures Linked(Store(s, End(s.order), n).(order := s.order + [n]))
  {
    var s' := Store(s, End(s.order), n).(order := s.order + [n]);
    var k := |s.order|;
    forall i | 0 <= i < |s'.order|
      ensures LinkAt(s', i)
    {
      if i < k {
        assert LinkAt(s, i);
        if i < k - 1 { assert s.order[i] != s.order[k - 1]; }
      }
    }
  }

  /** A place that was the end of the list holds null exactly while it still is. */
  lemma EndOfPrefix(s: State, len: nat)
    requires Linked(s) && len <= |s.order|
    ensures Readable(s, End(s.order[..len]))
    ensures Load(s, End(s.order[..len])) == None <==> len == |s.order|
    ensures len == |s.order| ==> End(s.order[..len]) == End(s.order)
  {
    LoadPublished(s, len);
    if len == |s.order| { assert s.order[..len] == s.order; }
  }

  lemma StepInv(s: State, s': State, t: nat)
    requires Inv(s) && Step(s, s', t)
    ensures Inv(s')
  {
    match s.threads[t]
    case Idle => StartInv(s, s', t);
    case Walking(n, pp) => WalkInv(s, s', t);
    case Swapping(n, pp, len) => SwapInv(s, s', t);
    case Appended(n) => KeepInv(s, s', t);
    case Reading(pp, seen) => ReadInv(s, s', t);
    case ReadAll(_, _) => KeepInv(s, s', t);
  }

  /** Steps that only change their own thread, to one that holds no node. */
  lemma KeepInv(s: State, s': State, t: nat)
    requires Inv(s) && t < |s.threads| == |s'.threads| && s' == s.(threads := s.threads[t := s'.threads[t]])
    requires ThreadOk(s, s'.threads[t])
    requires forall n :: Holds(s'.threads[t], n) ==> Holds(s.threads[t], n)
    ensures Inv(s')
  {
    forall u | 0 <= u < |s'.threads|
      ensures ThreadOk(s', s'.threads[u])
    {
      SameMemory(s, s', s'.threads[u]);
    }
    LinkedSame(s, s');
  }

  lemma SameMemory(s: State, s': State, th: Thread)
    requires ThreadOk(s, th) && s'.next == s.next && s'.order == s.order
    ensures ThreadOk(s', th)
  {}

  lemma StartInv(s: State, s': State, t: nat)
    requires Inv(s) && Step(s, s', t) && s.threads[t] == Idle
    ensures Inv(s')
  {
    if s' == s.(threads := s.threads[t := Reading(Head, [])]) {
      KeepInv(s, s', t);
    } else {
      var n :| n !in s.next && s' == s.(next := s.next[n := None], threads := s.threads[t := Walking(n, Head)]);
      LinkedSame(s, s);
      LinkedSame(s, s');
      forall u | 0 <= u < |s'.threads|
        ensures ThreadOk(s', s'.threads[u])
      {
        assert u != t ==> ThreadOk(s, s.threads[u]);
      }
      assert forall u :: 0 <= u < |s.threads| ==> ThreadOk(s, s.threads[u]) && !Holds(s.threads[u], n);
    }
  }

  lemma WalkInv(s: State, s': State, t: nat)
    requires Inv(s) && Step(s, s', t) && s.threads[t].Walking?
    ensures Inv(s')
  {
    var Walking(n, pp) := s.threads[t];
    var k := PlaceIndex(s, pp);
    LoadPublished(s, k);
    EndOfPrefix(s, k);
    KeepInv(s, s', t);
  }

  /** Every published place is the end of some prefix. */
  lemma PlaceIndex(s: State, pp: Place) returns (k: nat)
    requires Linked(s) && Published(s, pp)
    ensures k <= |s.order| && pp == End(s.order[..k])
  {
    if pp.Head? {
      k := 0;
    } else {
      var i :| 0 <= i < |s.order| && s.order[i] == pp.n;
      k := i + 1;
    }
  }

  lemma SwapInv(s: State, s': State, t: nat)
    requires Inv(s) && Step(s, s', t) && s.threads[t].Swapping?
    ensures Inv(s')
  {
    var Swapping(n, pp, len) := s.threads[t];
    EndOfPrefix(s, len);
    if Load(s, pp) == None {
      AppendLinked(s, n);
      LinkedSame(Store(s, pp, n).(order := s.order + [n]), s');
      forall u | 0 <= u < |s'.threads|
        ensures ThreadOk(s', s'.threads[u])
      {
        if u != t {
          NotHeld(s, t, u, n);
          AppendThread(s, s', n, s.threads[u]);
        }
      }
    } else {
      KeepInv(s, s', t);
    }
  }

  lemma NotHeld(s: State, t: nat, u: nat, n: Node)
    requires Inv(s) && t < |s.threads| && u < |s.threads| && t != u && Holds(s.threads[t], n)
    ensures !Holds(s.threads[u], n)
  {}

  /** Another thread is not disturbed by an append. */
  lemma AppendThread(s: State, s': State, n: Node, th: Thread)
    requires Linked(s) && ThreadOk(s, th) && !Holds(th, n)
    requires s'.order == s.order + [n] && n !in s.order && n in s.next
    requires s'.next == Store(s, End(s.order), n).next
    ensures ThreadOk(s', th)
  {
    match th
    case Swapping(_, _, len) => assert s'.order[..len] == s.order[..len];
    case ReadAll(_, len) => assert s'.order[..len] == s.order[..len];
    case Reading(_, seen) => assert s'.order[..|seen|] == s.order[..|seen|];
    case _ =>
  }

  lemma ReadInv(s: State, s': State, t: nat)
    requires Inv(s) && Step(s, s', t) && s.threads[t].Reading?
    ensures Inv(s')
  {
    var Reading(pp, seen) := s.threads[t];
    var k := |seen|;
    assert s.order[..k] == seen;
    LoadPublished(s, k);
    if k < |s.order| { assert s.order[..k + 1] == seen + [s.order[k]]; }
    KeepInv(s, s', t);
  }

  // ----- all runs

  ghost predicate Moves(s: State, s': State)
  {
    exists t: nat :: Step(s, s', t)
  }

  /** A run of any number of threads in any interleaving. */
  ghost predicate Run(run: seq<State>)
  {
    |run| > 0 && Init(run[0]) && forall i :: 0 <= i < |run| - 1 ==> Moves(run[i], run[i + 1])
  }

  lemma {:induction false} RunInv(run: seq<State>, i: nat)
    requires Run(run) && i < |run|
    ensures Inv(run[i])
  {
    if i == 0 {
      InitInv(run[0]);
    } else {
      RunInv(run, i - 1);
      assert Moves(run[i - 1], run[i - 1 + 1]);
      var t: nat :| Step(run[i - 1], run[i], t);
      StepInv(run[i - 1], run[i], t);
    }
  }

  /** The list grows only at its end and loses nothing. */
  lemma {:induction false} OnlyAppends(run: seq<State>, i: nat, j: nat)
    requires Run(run) && i <= j < |run|
    ensures run[i].order <= run[j].order
    decreases j - i
  {
    if i < j {
      OnlyAppends(run, i, j - 1);
      assert Moves(run[j - 1], run[j - 1 + 1]);
      var t: nat :| Step(run[j - 1], run[j], t);
      assert run[j - 1].order <= run[j].order;
    }
  }

  /** The k-th node met by following the pointers from the head. */
  function Follow(s: State, k: nat): Option<Node>
  {
    if k == 0 then s.head
    else
      var p := Follow(s, k - 1);
      if p.Some? && p.value in s.next then s.next[p.value] else None
  }

  /** In every state of every run the pointers visit the nodes in the order of their swaps,
      each once, and then reach null: there is no cycle. */
  lemma {:induction false} PointersSpellOrder(s: State, k: nat)
    requires Inv(s)
    ensures Follow(s, k) == if k < |s.order| then Some(s.order[k]) else None
    ensures Distinct(s.order)
  {
    if k > 0 {
      PointersSpellOrder(s, k - 1);
      if k - 1 < |s.order| { assert LinkAt(s, k - 1); }
    }
  }

  /** Once an append has returned, its node is in the list for good, at one place. */
  lemma AppendedStays(run: seq<State>, i: nat, j: nat, t: nat)
    requires Run(run) && i <= j < |run| && t < |run[i].threads| && run[i].threads[t].Appended?
    ensures run[i].threads[t].node in run[j].order && Distinct(run[j].order)
  {
    RunInv(run, i);
    RunInv(run, j);
    OnlyAppends(run, i, j);
    assert ThreadOk(run[i], run[i].threads[t]);
  }

  /** A reader has seen the first nodes of the list, in order and without repetition, in
      the list of this and of every later state; at the end it has seen all there were. */
  lemma ReaderSeesPrefix(run: seq<State>, i: nat, j: nat, t: nat)
    requires Run(run) && i <= j < |run| && t < |run[i].threads|
    ensures run[i].threads[t].Reading? ==> run[i].threads[t].seen <= run[j].order && Distinct(run[j].order)
    ensures run[i].threads[t].ReadAll? ==> run[i].threads[t].seen <= run[j].order && Distinct(run[j].order)
  {
    RunInv(run, i);
    RunInv(run, j);
    OnlyAppends(run, i, j);
    assert ThreadOk(run[i], run[i].threads[t]);
  }

  lemma ReaderSeesAll(s: State, s': State, t: nat)
    requires Inv(s) && Step(s, s', t) && s.threads[t].Reading? && s'.threads[t].ReadAll?
    ensures s'.threads[t].seen == s.order
  {
    var seen := s.threads[t].seen;
    assert s.order[..|seen|] == seen;
    LoadPublished(s, |seen|);
  }

  /** Lock freedom: a swap fails only because another node was appended since the load. */
  lemma FailedSwap(s: State, s': State, t: nat)
    requires Inv(s) && Step(s, s', t) && s.threads[t].Swapping?
    ensures s'.threads[t].Walking? <==> s.threads[t].len < |s.order|
  {
    EndOfPrefix(s, s.threads[t].len);
  }
}
