/** Filling in a compilation unit's line and function tables from several threads
    (dwarf_lookup_pc): a thread that finds no lines computes the tables and stores the
    four fields, `lines` last; a thread that finds lines then reads the other fields. Lines
    that could not be read are published as -1, and who finds that reads no further.
    Every step is one access to the shared unit, in any interleaving. */
module UnitPublication {

  /** What a thread computes for the unit, or stores if it could not read the lines. A pointer
      is named by the thread that allocated the block it points to. */
  datatype Contents = Contents(read: bool, count: nat, functions: seq<int>, functionCount: nat)

  datatype Pointer = Null | MinusOne | Of(owner: nat)

  datatype Unit = Unit(lines: Pointer, count: nat, functions: Pointer, functionCount: nat)

  datatype Phase =
    | Start
    | Storing(k: nat)  // k of the four stores are done
    | GotLines(lines: Pointer)
    | GotCount(lines: Pointer, count: nat)
    | GotFunctions(lines: Pointer, count: nat, functions: Pointer)
    | View(lines: Pointer, count: nat, functions: Pointer, functionCount: nat)

  datatype State = State(u: Unit, threads: seq<Phase>)

  /** The store of thread t that follows k earlier ones. */
  function Stored(u: Unit, c: Contents, t: nat, k: nat): Unit
  {
    if k == 0 then u.(count := c.count)
    else if k == 1 then u.(functions := Of(t))
    else if k == 2 then u.(functionCount := c.functionCount)
    else u.(lines := Published(c, t))
  }

  /** What thread t stores in `lines`. */
  function Published(c: Contents, t: nat): Pointer { if c.read then Of(t) else MinusOne }

  /** The next state when thread t makes its next access. */
  function Next(c: seq<Contents>, s: State, t: nat): State
    requires t < |s.threads| == |c|
  {
    match s.threads[t]
    case Start => s.(threads := s.threads[t := if s.u.lines == Null then Storing(0) else GotLines(s.u.lines)])
    case Storing(k) =>
      State(Stored(s.u, c[t], t, k), s.threads[t := if k < 3 then Storing(k + 1) else GotLines(Published(c[t], t))])
    case GotLines(l) => s.(threads := s.threads[t := if l.Of? then GotCount(l, s.u.count) else Start])
    case GotCount(l, n) => s.(threads := s.threads[t := GotFunctions(l, n, s.u.functions)])
    case GotFunctions(l, n, f) => s.(threads := s.threads[t := View(l, n, f, s.u.functionCount)])
    case View(_, _, _, _) => s.(threads := s.threads[t := Start])
  }

  /** A run is driven by a schedule: which thread moves at each step. */
  function Execute(c: seq<Contents>, schedule: seq<nat>): (s: State)
    requires forall i :: 0 <= i < |schedule| ==> schedule[i] < |c|
    ensures |s.threads| == |c|
    decreases |schedule|
  {
    if |schedule| == 0 then State(Unit(Null, 0, Null, 0), seq(|c|, _ => Start))
    else Next(c, Execute(c, schedule[..|schedule| - 1]), schedule[|schedule| - 1])
  }

  /** The other fields belong to the contents the lines belong to. */
  ghost predicate Consistent(c: seq<Contents>, v: Phase)
  {
    v.View? ==>
      && v.lines.Of? && v.lines.owner < |c| && c[v.lines.owner].read && v.functions.Of? && v.functions.owner < |c|
      && v.count == c[v.lines.owner].count
      && c[v.functions.owner].functions == c[v.lines.owner].functions
      && v.functionCount == c[v.lines.owner].functionCount
  }

  /** Threads a and b computed the same tables. */
  predicate Same(a: Contents, b: Contents)
  {
    a.count == b.count && a.functions == b.functions && a.functionCount == b.functionCount
  }

  /** Whoever could read the lines computed what everybody else stores. */
  ghost predicate AllSame(c: seq<Contents>)
  {
    forall a, b :: 0 <= a < |c| && 0 <= b < |c| && c[b].read ==> Same(c[a], c[b])
  }

  // ----- safety

  predicate Owned(c: seq<Contents>, p: Pointer) { p.Of? && p.owner < |c| }

  predicate Known(c: seq<Contents>, p: Pointer) { Owned(c, p) && c[p.owner].read }

  /** The first k fields, in the order they are stored, have the values of thread o. */
  ghost predicate Filled(c: seq<Contents>, u: Unit, o: nat, k: nat)
  {
    && o < |c|
    && (k >= 1 ==> u.count == c[o].count)
    && (k >= 2 ==> Owned(c, u.functions))
    && (k >= 3 ==> u.functionCount == c[o].functionCount)
  }

  /** What holds of a thread while thread o could read the lines. */
  ghost predicate PhaseOk(c: seq<Contents>, u: Unit, o: nat, p: Phase)
  {
    match p
    case Start => true
    case Storing(k) => k <= 3 && Filled(c, u, o, k)
    case GotLines(l) => (l.Of? ==> Known(c, l)) && Filled(c, u, o, 3)
    case GotCount(l, n) => Known(c, l) && Filled(c, u, o, 3) && n == c[o].count
    case GotFunctions(l, n, f) => Known(c, l) && Filled(c, u, o, 3) && n == c[o].count && Owned(c, f)
    case View(l, n, f, m) => Known(c, l) && o < |c| && n == c[o].count && Owned(c, f) && m == c[o].functionCount
  }

  ghost predicate Inv(c: seq<Contents>, s: State, o: nat)
  {
    && |s.threads| == |c|
    && (s.u.lines.Of? ==> Known(c, s.u.lines))
    && (s.u.lines != Null ==> Filled(c, s.u, o, 3))
    && forall t :: 0 <= t < |s.threads| ==> PhaseOk(c, s.u, o, s.threads[t])
  }

  /** A store of equal contents keeps what is already filled. */
  lemma StoreKeeps(c: seq<Contents>, u: Unit, o: nat, t: nat, k: nat)
    requires AllSame(c) && t < |c| && k <= 3 && Filled(c, u, o, k) && c[o].read
    ensures Filled(c, Stored(u, c[t], t, k), o, if k < 3 then k + 1 else 3)
    ensures forall j :: 0 <= j <= 3 && Filled(c, u, o, j) ==> Filled(c, Stored(u, c[t], t, k), o, j)
  {
    assert Same(c[t], c[o]);
  }

  lemma NextInv(c: seq<Contents>, s: State, o: nat, t: nat)
    requires AllSame(c) && Inv(c, s, o) && t < |c| && o < |c| && c[o].read
    ensures Inv(c, Next(c, s, t), o)
  {
    assert PhaseOk(c, s.u, o, s.threads[t]);
    var s' := Next(c, s, t);
    if s.threads[t].Storing? {
      StoreKeeps(c, s.u, o, t, s.threads[t].k);
    }
    forall v | 0 <= v < |s'.threads|
      ensures PhaseOk(c, s'.u, o, s'.threads[v])
    {
      if v != t { assert PhaseOk(c, s.u, o, s.threads[v]); }
    }
  }

  lemma {:induction false} RunInv(c: seq<Contents>, schedule: seq<nat>, o: nat)
    requires AllSame(c) && (forall i :: 0 <= i < |schedule| ==> schedule[i] < |c|) && o < |c| && c[o].read
    ensures Inv(c, Execute(c, schedule), o)
    decreases |schedule|
  {
    if |schedule| > 0 {
      var before := schedule[..|schedule| - 1];
      RunInv(c, before, o);
      NextInv(c, Execute(c, before), o, schedule[|schedule| - 1]);
    }
  }

  /** If nobody could read the lines, nobody gets to the other fields. */
  lemma {:induction false} NothingRead(c: seq<Contents>, schedule: seq<nat>)
    requires (forall i :: 0 <= i < |schedule| ==> schedule[i] < |c|) && forall t :: 0 <= t < |c| ==> !c[t].read
    ensures var s := Execute(c, schedule);
            !s.u.lines.Of? && forall t :: 0 <= t < |c| ==> Blind(s.threads[t])
    decreases |schedule|
  {
    if |schedule| > 0 {
      NothingRead(c, schedule[..|schedule| - 1]);
    }
  }

  predicate Blind(p: Phase) { p.Start? || p.Storing? || (p.GotLines? && !p.lines.Of?) }

  /** When whoever could read computed what all store, whoever sees the lines sees the rest. */
  lemma PublicationSafe(c: seq<Contents>, schedule: seq<nat>, t: nat)
    requires AllSame(c) && t < |c| && forall i :: 0 <= i < |schedule| ==> schedule[i] < |c|
    ensures Consistent(c, Execute(c, schedule).threads[t])
  {
    var s := Execute(c, schedule);
    if o :| 0 <= o < |c| && c[o].read {
      RunInv(c, schedule, o);
      assert PhaseOk(c, s.u, o, s.threads[t]);
      if s.threads[t].View? {
        assert Same(c[s.threads[t].functions.owner], c[o]) && Same(c[o], c[s.threads[t].lines.owner]);
      }
    } else {
      NothingRead(c, schedule);
      assert Blind(s.threads[t]);
    }
  }

  // ----- and only then

  lemma ExecuteStep(c: seq<Contents>, schedule: seq<nat>, t: nat)
    requires t < |c| && forall i :: 0 <= i < |schedule| ==> schedule[i] < |c|
    ensures Execute(c, schedule + [t]) == Next(c, Execute(c, schedule), t)
  {
    assert (schedule + [t])[..|schedule|] == schedule;
  }

  /** Thread a computes and publishes, all in a row. */
  lemma PublishInARow(c: seq<Contents>, q: seq<nat>, a: nat) returns (r: seq<nat>)
    requires a < |c| && (forall i :: 0 <= i < |q| ==> q[i] < |c|) && Execute(c, q).threads[a] == Storing(0)
    ensures forall i :: 0 <= i < |r| ==> r[i] < |c|
    ensures Execute(c, r).threads == Execute(c, q).threads[a := GotLines(Published(c[a], a))]
    ensures Execute(c, r).u == Unit(Published(c[a], a), c[a].count, Of(a), c[a].functionCount)
  {
    hide Execute;
    var q1 := q + [a];
    var q2 := q1 + [a];
    var q3 := q2 + [a];
    ExecuteStep(c, q, a);
    ExecuteStep(c, q1, a);
    ExecuteStep(c, q2, a);
    ExecuteStep(c, q3, a);
    r := q3 + [a];
  }

  /** Thread a, having seen lines, reads the other fields, all in a row. */
  lemma ReadInARow(c: seq<Contents>, q: seq<nat>, a: nat) returns (r: seq<nat>)
    requires a < |c| && (forall i :: 0 <= i < |q| ==> q[i] < |c|) && Execute(c, q).threads[a].GotLines?
    requires Execute(c, q).threads[a].lines.Of?
    ensures forall i :: 0 <= i < |r| ==> r[i] < |c|
    ensures var s := Execute(c, q);
            Execute(c, r).threads[a] == View(s.threads[a].lines, s.u.count, s.u.functions, s.u.functionCount)
  {
    hide Execute;
    var q1 := q + [a];
    var q2 := q1 + [a];
    ExecuteStep(c, q, a);
    ExecuteStep(c, q1, a);
    ExecuteStep(c, q2, a);
    r := q2 + [a];
  }

  lemma BothStart(c: seq<Contents>, a: nat, b: nat) returns (r: seq<nat>)
    requires a < |c| && b < |c| && a != b
    ensures forall i :: 0 <= i < |r| ==> r[i] < |c|
    ensures Execute(c, r).threads[a] == Storing(0) && Execute(c, r).threads[b] == Storing(0)
  {
    assert Execute(c, []) == State(Unit(Null, 0, Null, 0), seq(|c|, _ => Start));
    hide Execute;
    ExecuteStep(c, [], b);
    var one := [] + [b];
    ExecuteStep(c, one, a);
    r := one + [a];
  }

  /** A schedule in which thread b starts before a publishes and stores after it; a then
      reads the fields of b with its own lines. */
  lemma Clash(c: seq<Contents>, a: nat, b: nat) returns (r: seq<nat>)
    requires a < |c| && b < |c| && a != b && c[a].read
    ensures forall i :: 0 <= i < |r| ==> r[i] < |c|
    ensures Execute(c, r).threads[a] == View(Of(a), c[b].count, Of(b), c[b].functionCount)
  {
    hide Execute;
    var both := BothStart(c, a, b);
    var first := PublishInARow(c, both, a);
    var second := PublishInARow(c, first, b);
    r := ReadInARow(c, second, a);
  }

  /** All views in all interleavings are consistent exactly when the contents are equal, or
      nobody could read the lines. */
  lemma SafeIffSame(c: seq<Contents>)
    ensures AllSame(c) <==>
            forall schedule, t ::
              0 <= t < |c| && (forall i :: 0 <= i < |schedule| ==> schedule[i] < |c|) ==>
              Consistent(c, Execute(c, schedule).threads[t])
  {
    if AllSame(c) {
      forall schedule: seq<nat>, t | 0 <= t < |c| && forall i :: 0 <= i < |schedule| ==> schedule[i] < |c|
        ensures Consistent(c, Execute(c, schedule).threads[t])
      {
        PublicationSafe(c, schedule, t);
      }
    } else {
      var a, b :| 0 <= a < |c| && 0 <= b < |c| && c[b].read && !Same(c[a], c[b]);
      var r := Clash(c, b, a);
      assert !Consistent(c, Execute(c, r).threads[b]);
    }
  }
}
