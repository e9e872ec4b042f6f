/** The line table of a unit: collecting rows, sorting them stably by pc, and looking a pc
    up. */
module LineTable {
  import opened Words
  import opened Qsort
  import opened Search
  import opened PcLookup

  /** A row as emitted by the line number program, and as stored. */
  datatype Line = Line(pc: nat, filename: int, lineno: int, idx: nat)

  /** line_compare: by pc, then by the order of emission. */
  function CompareLines(a: Line, b: Line): int
  {
    if a.pc < b.pc then -1
    else if a.pc > b.pc then 1
    else if a.idx < b.idx then -1
    else if a.idx > b.idx then 1
    else 0
  }

  lemma CompareLinesIsPreorder()
    ensures TotalPreorder(CompareLines)
  {}

  // ----- collecting rows

  /** Every row carries its position. */
  ghost predicate Numbered(rows: seq<Line>)
  {
    forall i :: 0 <= i < |rows| ==> rows[i].idx == i && rows[i].pc <= TOP
  }

  /** The test of add_line for a row that need not be added. */
  predicate Ignored(rows: seq<Line>, pc: nat, filename: int, lineno: int)
  {
    |rows| > 0 && var ln := rows[|rows| - 1]; pc == ln.pc && filename == ln.filename && lineno == ln.lineno
  }

  class LineVector {
    var rows: seq<Line>

    constructor ()
      ensures rows == []
    {
      rows := [];
    }

    /** add_line. The pc is moved by the module's base address when it is stored, but the
        test for a repeated row compares it as it came. */
    method AddLine(pc: nat, filename: int, lineno: int, base: nat)
      requires pc < TWO64 && base < TWO64 && Numbered(rows)
      modifies this
      ensures Numbered(rows)
      ensures rows == if Ignored(old(rows), pc, filename, lineno) then old(rows)
                      else old(rows) + [Line((pc + base) % TWO64, filename, lineno, |old(rows)|)]
    {
      if |rows| > 0 {
        var ln := rows[|rows| - 1];
        if pc == ln.pc && filename == ln.filename && lineno == ln.lineno {
          return;
        }
      }
      rows := rows + [Line((pc + base) % TWO64, filename, lineno, |rows|)];
    }
  }

  /** An ignored row repeats the mapping that was stored last if and only if the module is
      not moved; otherwise a different row is lost. */
  lemma IgnoredIsRepeat(rows: seq<Line>, pc: nat, filename: int, lineno: int, base: nat)
    requires Numbered(rows) && pc < TWO64 && base < TWO64 && Ignored(rows, pc, filename, lineno)
    ensures var ln := rows[|rows| - 1];
            ((pc + base) % TWO64, filename, lineno) == (ln.pc, ln.filename, ln.lineno) <==> base == 0
  {}

  /** A row as the line number program emits it. */
  datatype Row = Row(pc: nat, filename: int, lineno: int)

  /** The rows as they should be stored, and as add_line stores them. */
  function Moved(emitted: seq<Row>, base: nat): (rows: seq<Line>)
    ensures |rows| == |emitted|
  {
    if |emitted| == 0 then []
    else
      var r := emitted[|emitted| - 1];
      Moved(emitted[..|emitted| - 1], base) + [Line((r.pc + base) % TWO64, r.filename, r.lineno, |emitted| - 1)]
  }

  function Collected(emitted: seq<Row>, base: nat): seq<Line>
  {
    if |emitted| == 0 then []
    else
      var rows, r := Collected(emitted[..|emitted| - 1], base), emitted[|emitted| - 1];
      if Ignored(rows, r.pc, r.filename, r.lineno) then rows
      else rows + [Line((r.pc + base) % TWO64, r.filename, r.lineno, |rows|)]
  }

  /** A row that is lost. In a module moved by 0x10 the second row is taken for a repetition of the
      first, so the address 0x30 is looked up in the third and gets line 2 instead of line 1. */
  lemma RowIsLost()
    ensures var emitted := [Row(0x10, 7, 1), Row(0x20, 7, 1), Row(0x15, 7, 2)];
            && LastAtOrBelow(Moved(emitted, 0x10), 0x30, Line(0x30, 7, 1, 1))
            && LastAtOrBelow(Collected(emitted, 0x10), 0x30, Line(0x25, 7, 2, 1))
  {
    hide Moved, Collected;
    ThreeRows([Row(0x10, 7, 1), Row(0x20, 7, 1), Row(0x15, 7, 2)]);
  }

  lemma ThreeRows(e: seq<Row>)
    requires e == [Row(0x10, 7, 1), Row(0x20, 7, 1), Row(0x15, 7, 2)]
    ensures Moved(e, 0x10) == [Line(0x20, 7, 1, 0), Line(0x30, 7, 1, 1), Line(0x25, 7, 2, 2)]
    ensures Collected(e, 0x10) == [Line(0x20, 7, 1, 0), Line(0x25, 7, 2, 1)]
  {
    assert e[..2][..1] == e[..1] && e[..1][..0] == [];
    assert Moved(e[..1], 0x10) == [Line(0x20, 7, 1, 0)] == Collected(e[..1], 0x10);
    assert Moved(e[..2], 0x10) == [Line(0x20, 7, 1, 0), Line(0x30, 7, 1, 1)];
    assert Collected(e[..2], 0x10) == [Line(0x20, 7, 1, 0)];
  }

  // ----- the stable sort

  /** The reference: insert each row behind all rows with the same or a smaller pc. */
  function Insert(s: seq<Line>, x: Line): (r: seq<Line>)
    ensures |r| == |s| + 1 && multiset(r) == multiset(s) + multiset{x}
  {
    if |s| > 0 && s[|s| - 1].pc > x.pc then
      var r := Insert(s[..|s| - 1], x) + [s[|s| - 1]];
      assert s == s[..|s| - 1] + [s[|s| - 1]];
      r
    else s + [x]
  }

  function StableSort(rows: seq<Line>): (r: seq<Line>)
    ensures |r| == |rows| && multiset(r) == multiset(rows)
  {
    if |rows| == 0 then []
    else
      assert rows == rows[..|rows| - 1] + [rows[|rows| - 1]];
      Insert(StableSort(rows[..|rows| - 1]), rows[|rows| - 1])
  }

  /** In strictly ascending order of pc and emission. */
  ghost predicate Ascending(s: seq<Line>)
  {
    forall i, j :: 0 <= i < j < |s| ==> CompareLines(s[i], s[j]) < 0
  }

  lemma StandsBefore(s: seq<Line>, n: nat, y: Line)
    requires Ascending(s) && n < |s| && y in s[..n]
    ensures CompareLines(y, s[n]) < 0 && y in s
  {
    var j :| 0 <= j < n && s[..n][j] == y;
    assert s[j] == y;
  }

  lemma {:induction false} InsertMembers(s: seq<Line>, x: Line, k: nat)
    requires k < |s| + 1
    ensures Insert(s, x)[k] == x || Insert(s, x)[k] in s
  {
    if |s| > 0 && s[|s| - 1].pc > x.pc && k < |s| { InsertMembers(s[..|s| - 1], x, k); }
  }

  lemma {:induction false} InsertAscending(s: seq<Line>, x: Line)
    requires Ascending(s) && forall k :: 0 <= k < |s| ==> s[k].idx < x.idx
    ensures Ascending(Insert(s, x))
  {
    if |s| > 0 && s[|s| - 1].pc > x.pc {
      var n := |s| - 1;
      InsertAscending(s[..n], x);
      var r := Insert(s[..n], x);
      forall k | 0 <= k < |r|
        ensures CompareLines(r[k], s[n]) < 0
      {
        InsertMembers(s[..n], x, k);
        if r[k] != x { StandsBefore(s, n, r[k]); }
      }
      AscendingSnoc(r, s[n]);
    } else {
      forall k | 0 <= k < |s|
        ensures CompareLines(s[k], x) < 0
      {
        if k < |s| - 1 { assert CompareLines(s[k], s[|s| - 1]) < 0; }
      }
      AscendingSnoc(s, x);
    }
  }

  lemma AscendingSnoc(s: seq<Line>, x: Line)
    requires Ascending(s) && forall k :: 0 <= k < |s| ==> CompareLines(s[k], x) < 0
    ensures Ascending(s + [x])
  {
    hide CompareLines;
  }

  lemma {:induction false} StableSortAscending(rows: seq<Line>)
    requires Numbered(rows)
    ensures Ascending(StableSort(rows))
  {
    if |rows| > 0 {
      var n := |rows| - 1;
      StableSortAscending(rows[..n]);
      var s := StableSort(rows[..n]);
      forall k | 0 <= k < |s|
        ensures s[k].idx < rows[n].idx
      {
        assert s[k] in multiset(rows[..n]);
        var j :| 0 <= j < n && rows[..n][j] == s[k];
      }
      InsertAscending(s, rows[n]);
    }
  }

  /** Strictly ascending sequences of the same rows are equal. */
  lemma {:induction false} AscendingUnique(s: seq<Line>, t: seq<Line>)
    requires Ascending(s) && Ascending(t) && multiset(s) == multiset(t)
    ensures s == t
  {
    hide Ascending;
    assert |multiset(s)| == |s| && |multiset(t)| == |t|;
    if |s| > 0 {
      var n := |s| - 1;
      LastIsGreatest(s, t);
      WithoutLast(s);
      WithoutLast(t);
      Cancel(multiset(s[..n]), multiset(t[..n]), s[n]);
      AscendingUnique(s[..n], t[..n]);
      assert s == s[..n] + [s[n]] && t == t[..n] + [t[n]];
    }
  }

  lemma WithoutLast(s: seq<Line>)
    requires |s| > 0 && Ascending(s)
    ensures Ascending(s[..|s| - 1])
    ensures multiset(s) == multiset(s[..|s| - 1]) + multiset{s[|s| - 1]}
  {
    assert s == s[..|s| - 1] + [s[|s| - 1]];
  }

  lemma Cancel(a: multiset<Line>, b: multiset<Line>, x: Line)
    requires a + multiset{x} == b + multiset{x}
    ensures a == b
  {
    assert a == a + multiset{x} - multiset{x};
    assert b == b + multiset{x} - multiset{x};
  }

  lemma LastIsGreatest(s: seq<Line>, t: seq<Line>)
    requires |s| > 0 && Ascending(s) && Ascending(t) && multiset(s) == multiset(t)
    ensures |t| == |s| && s[|s| - 1] == t[|t| - 1]
  {
    assert |multiset(s)| == |s| && |multiset(t)| == |t|;
    var a, b := s[|s| - 1], t[|t| - 1];
    assert a in multiset(t) && b in multiset(s);
    var i :| 0 <= i < |t| && t[i] == a;
    var j :| 0 <= j < |s| && s[j] == b;
  }

  /** A numbered vector of rows sorted by line_compare is its stable sort by pc. */
  lemma SortedIsStable(rows: seq<Line>, s: seq<Line>)
    requires Numbered(rows) && multiset(s) == multiset(rows) && Sorted(CompareLines, s, 0, |s|)
    ensures s == StableSort(rows)
  {
    StableSortAscending(rows);
    forall i, j | 0 <= i < j < |s|
      ensures CompareLines(s[i], s[j]) < 0
    {
      if s[i].idx == s[j].idx { NoRepeat(rows, s, i, j); }
    }
    AscendingUnique(s, StableSort(rows));
  }

  lemma NoRepeat(rows: seq<Line>, s: seq<Line>, i: nat, j: nat)
    requires Numbered(rows) && multiset(s) == multiset(rows) && i < j < |s|
    ensures s[i].idx != s[j].idx
  {
    assert s[i] in multiset(rows) && s[j] in multiset(rows);
    var k :| 0 <= k < |rows| && rows[k] == s[i];
    var m :| 0 <= m < |rows| && rows[m] == s[j];
    Once(rows, k);
    Twice(s, i, j);
  }

  lemma Once(rows: seq<Line>, k: nat)
    requires Numbered(rows) && k < |rows|
    ensures multiset(rows)[rows[k]] == 1
  {
    var x := rows[k];
    assert rows == rows[..k] + [x] + rows[k + 1..];
    assert x !in rows[..k] && x !in rows[k + 1..];
  }

  lemma Twice(s: seq<Line>, i: nat, j: nat)
    requires i < j < |s|
    ensures s[i] == s[j] ==> multiset(s)[s[i]] >= 2
  {
    assert s == s[..i] + [s[i]] + s[i + 1..j] + [s[j]] + s[j + 1..];
  }

  // ----- the table and its search

  /** n rows and the sentinel. */
  ghost predicate IsLineTable(t: seq<Line>, rows: seq<Line>)
  {
    && Numbered(rows)
    && |t| == |rows| + 1 && t[..|rows|] == StableSort(rows)
    && t[|rows|].pc == TOP
  }

  /** The end of read_line_info: append the sentinel and sort the rows before it. */
  method BuildLines(rows: seq<Line>) returns (table: seq<Line>)
    requires Numbered(rows)
    ensures IsLineTable(table, rows)
  {
    hide Numbered, IsLineTable, Permuted, Sorted, TotalPreorder;
    var n := |rows|;
    var a := new Line[n + 1](i => if 0 <= i < n then rows[i] else Line(TOP, 0, 0, 0));
    CompareLinesIsPreorder();
    ghost var s := a[..];
    ghost var depth := Sort(a, 0, n, CompareLines);
    table := a[..];
    LinesBuilt(rows, s, table);
  }

  lemma LinesBuilt(rows: seq<Line>, s: seq<Line>, t: seq<Line>)
    requires Numbered(rows) && |s| == |rows| + 1 && s[|rows|].pc == TOP
    requires forall i :: 0 <= i < |rows| ==> s[i] == rows[i]
    requires Permuted(s, t, 0, |rows|) && Sorted(CompareLines, t, 0, |rows|)
    ensures IsLineTable(t, rows)
  {
    var n := |rows|;
    assert s[0..n] == rows && t[0..n] == t[..n];
    PermutedOutside(s, t, 0, n, n);
    SortedIsStable(rows, t[..n]);
  }

  /** line_search. */
  function LineSide(t: seq<Line>, pc: nat, i: nat): int
  {
    if i + 1 >= |t| then 0
    else if pc < t[i].pc then -1
    else if pc >= t[i + 1].pc then 1
    else 0
  }

  /** The rows of the table, as emitted. */
  lemma TableRows(t: seq<Line>, rows: seq<Line>)
    requires IsLineTable(t, rows)
    ensures Ascending(t[..|rows|])
    ensures forall i :: 0 <= i < |rows| ==> t[i] in rows
    ensures forall r :: r in rows ==> r in t[..|rows|]
  {
    StableSortAscending(rows);
    var s := t[..|rows|];
    assert multiset(s) == multiset(rows);
    forall i | 0 <= i < |rows|
      ensures t[i] in rows
    {
      assert s[i] in multiset(rows);
    }
    forall r | r in rows
      ensures r in s
    {
      assert r in multiset(s);
    }
  }

  lemma PcSorted(t: seq<Line>, rows: seq<Line>, i: nat, j: nat)
    requires IsLineTable(t, rows) && i <= j <= |rows|
    ensures t[i].pc <= t[j].pc
  {
    TableRows(t, rows);
    var s := t[..|rows|];
    if i < j < |rows| {
      assert CompareLines(s[i], s[j]) < 0;
    }
  }

  lemma LineSideMonotone(t: seq<Line>, rows: seq<Line>, pc: nat)
    requires IsLineTable(t, rows)
    ensures Monotone(|rows|, (i: nat) => LineSide(t, pc, i))
  {
    forall i, j | 0 <= i <= j < |rows|
      ensures LineSide(t, pc, j) > 0 ==> LineSide(t, pc, i) > 0
      ensures LineSide(t, pc, i) < 0 ==> LineSide(t, pc, j) < 0
    {
      PcSorted(t, rows, i, j);
      PcSorted(t, rows, i + 1, j + 1);
      PcSorted(t, rows, i, i + 1);
    }
  }

  lemma NoLineZero(t: seq<Line>, n: nat, pc: nat)
    requires |t| == n + 1 && t[n].pc == TOP && pc < TOP && forall i: nat :: i < n ==> LineSide(t, pc, i) != 0
    ensures forall i :: 0 <= i < n ==> t[i].pc > pc
  {
    var i := n;
    while i > 0
      invariant 0 <= i <= n && forall k :: i <= k < n ==> t[k].pc > pc
    {
      i := i - 1;
      assert LineSide(t, pc, i) != 0;
      assert t[i + 1].pc > pc;
    }
  }

  /** The last emitted of the rows with the greatest pc that is not above the query. */
  ghost predicate LastAtOrBelow(rows: seq<Line>, pc: nat, r: Line)
  {
    r in rows && r.pc <= pc && forall q :: q in rows && q.pc <= pc ==> CompareLines(q, r) <= 0
  }

  /** The search for the line of a pc; the sentinel makes the greatest address special. */
  method FindLine(t: seq<Line>, ghost rows: seq<Line>, pc: nat) returns (found: bool, ln: Line)
    requires IsLineTable(t, rows) && pc < TOP
    ensures found <==> exists r :: r in rows && r.pc <= pc
    ensures found ==> LastAtOrBelow(rows, pc, ln)
  {
    ln := t[|t| - 1];
    LineSideMonotone(t, rows, pc);
    TableRows(t, rows);
    var side := (i: nat) => LineSide(t, pc, i);
    var at;
    found, at := BinarySearch(|t| - 1, side);
    if found {
      ln := t[at];
      RowsUpTo(t, rows, pc, at);
    } else {
      assert forall i: nat :: i < |rows| ==> side(i) == LineSide(t, pc, i);
      NoLineZero(t, |rows|, pc);
    }
  }

  /** Rows behind the match are above the query, and those before it come earlier. */
  lemma RowAgainst(t: seq<Line>, rows: seq<Line>, pc: nat, at: nat, k: nat)
    requires IsLineTable(t, rows) && at < |rows| && k < |rows| && LineSide(t, pc, at) == 0
    ensures k > at ==> t[k].pc > pc
    ensures k <= at ==> CompareLines(t[k], t[at]) <= 0
  {
    TableRows(t, rows);
    var s := t[..|rows|];
    if k > at {
      PcSorted(t, rows, at + 1, k);
    } else if k < at {
      assert CompareLines(s[k], s[at]) < 0;
    }
  }

  lemma RowsUpTo(t: seq<Line>, rows: seq<Line>, pc: nat, at: nat)
    requires IsLineTable(t, rows) && at < |rows| && LineSide(t, pc, at) == 0
    ensures LastAtOrBelow(rows, pc, t[at])
  {
    hide CompareLines, LineSide;
    TableRows(t, rows);
    RowAgainst(t, rows, pc, at, at);
    AtOrBelow(t, pc, at);
    forall q | q in rows && q.pc <= pc
      ensures CompareLines(q, t[at]) <= 0
    {
      var k :| 0 <= k < |rows| && t[..|rows|][k] == q;
      RowAgainst(t, rows, pc, at, k);
    }
  }

  lemma AtOrBelow(t: seq<Line>, pc: nat, at: nat)
    requires at + 1 < |t| && LineSide(t, pc, at) == 0
    ensures t[at].pc <= pc
  {}
}
