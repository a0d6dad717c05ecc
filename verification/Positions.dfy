/** Rows by the positions they carry, which may leave gaps. */
module Positions {
  import opened Hashing
  import opened Canon
  import opened Events
  import opened Verify

  /** The highest position, 0 if there is none. */
  function HeadPos(rows: seq<AuditEvent>): u64 {
    if rows == [] then 0 else rows[|rows| - 1].seqNo
  }

  /** Positions from 1 on that only go up, as one ingester gives them out. */
  predicate Rising(rows: seq<AuditEvent>) {
    && (rows != [] ==> rows[0].seqNo >= 1)
    && (forall i, j :: 0 <= i < j < |rows| ==> rows[i].seqNo < rows[j].seqNo)
  }

  ghost predicate Holds(rows: seq<AuditEvent>, n: int) {
    exists e :: e in rows && e.seqNo == n
  }

  /** No gap from one position to another. */
  ghost predicate Complete(rows: seq<AuditEvent>, from: int, to: int) {
    forall n :: from <= n <= to ==> Holds(rows, n)
  }

  /** The rows within two positions, in order. */
  function Between(rows: seq<AuditEvent>, from: int, to: int): seq<AuditEvent> {
    if rows == [] then []
    else
      var last := rows[|rows| - 1];
      Between(rows[..|rows| - 1], from, to) + if from <= last.seqNo <= to then [last] else []
  }

  lemma {:induction false} BetweenAre(rows: seq<AuditEvent>, from: int, to: int)
    ensures forall e :: e in Between(rows, from, to) <==> e in rows && from <= e.seqNo <= to
    ensures Rising(rows) ==> forall i, j :: 0 <= i < j < |Between(rows, from, to)| ==>
              Between(rows, from, to)[i].seqNo < Between(rows, from, to)[j].seqNo
  {
    if rows != [] {
      var t, last := rows[..|rows| - 1], rows[|rows| - 1];
      assert rows == t + [last];
      BetweenAre(t, from, to);
      if Rising(rows) {
        forall e | e in t
          ensures e.seqNo < last.seqNo
        {
          var i :| 0 <= i < |t| && t[i] == e;
          assert rows[i].seqNo < rows[|rows| - 1].seqNo;
        }
        assert Rising(t) by { RisingBefore(rows); }
      }
    }
  }

  lemma RisingBefore(rows: seq<AuditEvent>)
    requires Rising(rows) && rows != []
    ensures Rising(rows[..|rows| - 1])
  {
  }

  /** Rising numbers within a range leave it room above and below. */
  lemma {:induction false} Spread(b: seq<AuditEvent>, from: int, i: nat)
    requires i < |b| && (forall e | e in b :: from <= e.seqNo)
    requires forall i, j :: 0 <= i < j < |b| ==> b[i].seqNo < b[j].seqNo
    ensures b[i].seqNo >= from + i
  {
    if i > 0 {
      Spread(b, from, i - 1);
      assert b[i - 1].seqNo < b[i].seqNo;
    }
  }

  lemma {:induction false} SpreadDown(b: seq<AuditEvent>, to: int, i: nat)
    requires i < |b| && (forall e | e in b :: e.seqNo <= to)
    requires forall i, j :: 0 <= i < j < |b| ==> b[i].seqNo < b[j].seqNo
    ensures b[i].seqNo <= to - (|b| - 1 - i)
    decreases |b| - i
  {
    if i < |b| - 1 {
      SpreadDown(b, to, i + 1);
      assert b[i].seqNo < b[i + 1].seqNo;
    }
  }

  /** Counting rows finds a gap: a range read from rising rows has as many rows as
      positions exactly if no position of it is missing, and never more. */
  lemma CountIff(rows: seq<AuditEvent>, from: int, to: int)
    requires Rising(rows) && from <= to + 1
    ensures |Between(rows, from, to)| <= to - from + 1
    ensures |Between(rows, from, to)| == to - from + 1 <==> Complete(rows, from, to)
    ensures Complete(rows, from, to) ==>
              forall i :: 0 <= i < |Between(rows, from, to)| ==> Between(rows, from, to)[i].seqNo == from + i
  {
    hide Rising, Between;
    var b := Between(rows, from, to);
    BetweenAre(rows, from, to);
    if b != [] {
      Spread(b, from, |b| - 1);
    }
    if |b| == to - from + 1 {
      forall n | from <= n <= to
        ensures Holds(rows, n)
      {
        Spread(b, from, n - from);
        SpreadDown(b, to, n - from);
        assert b[n - from] in b;
      }
    }
    if Complete(rows, from, to) {
      if from <= to {
        InPlace(rows, from, to, to - from);
      }
      forall i | 0 <= i < |b|
        ensures b[i].seqNo == from + i
      {
        InPlace(rows, from, to, i);
      }
    }
  }

  lemma {:induction false} InPlace(rows: seq<AuditEvent>, from: int, to: int, i: nat)
    requires Rising(rows) && Complete(rows, from, to) && from + i <= to
    ensures i < |Between(rows, from, to)| && Between(rows, from, to)[i].seqNo == from + i
  {
    hide Rising, Between;
    var b := Between(rows, from, to);
    BetweenAre(rows, from, to);
    assert Holds(rows, from + i);
    var e :| e in rows && e.seqNo == from + i;
    assert e in b;
    var k :| 0 <= k < |b| && b[k] == e;
    if i > 0 {
      InPlace(rows, from, to, i - 1);
      assert k > i - 1;
    }
    Spread(b, from, i);
    assert b[i].seqNo <= b[k].seqNo;
  }

  /** Of rows that do not rise, counting says less: a repeated position makes up for a
      missing one. */
  lemma DuplicateHidesGap(a: AuditEvent, b: AuditEvent, c: AuditEvent)
    requires a.seqNo == b.seqNo && c.seqNo == a.seqNo + 2
    ensures |Between([a, b, c], a.seqNo, c.seqNo)| == c.seqNo - a.seqNo + 1
    ensures !Complete([a, b, c], a.seqNo, c.seqNo)
  {
    assert [a, b, c][..2] == [a, b] && [a, b][..1] == [a] && [a][..0] == [];
    assert Between([a], a.seqNo, c.seqNo) == Between([], a.seqNo, c.seqNo) + [a];
    assert !Holds([a, b, c], a.seqNo + 1);
  }

  /** Later rows change nothing at or below the head. */
  lemma {:induction false} BetweenGrows(rows: seq<AuditEvent>, more: seq<AuditEvent>, from: int, to: int)
    requires Rising(rows + more) && to <= HeadPos(rows)
    ensures Between(rows + more, from, to) == Between(rows, from, to)
    decreases |more|
  {
    hide Rising;
    if more == [] {
      assert rows + more == rows;
    } else {
      var n := |more| - 1;
      assert (rows + more)[..|rows| + n] == rows + more[..n];
      RisingBefore(rows + more);
      BetweenGrows(rows, more[..n], from, to);
      LastAbove(rows, more);
    }
  }

  lemma LastAbove(rows: seq<AuditEvent>, more: seq<AuditEvent>)
    requires Rising(rows + more) && more != []
    ensures HeadPos(rows) < more[|more| - 1].seqNo == HeadPos(rows + more)
  {
    var all := rows + more;
    var k := if rows == [] then 0 else |rows| - 1;
    assert k < |all| - 1 ==> all[k].seqNo < all[|all| - 1].seqNo;
  }

  /** A gap below the head is there for good. */
  lemma GapStays(rows: seq<AuditEvent>, more: seq<AuditEvent>, n: int)
    requires Rising(rows + more) && n <= HeadPos(rows)
    ensures Holds(rows + more, n) <==> Holds(rows, n)
    ensures Rising(rows) && HeadPos(rows) <= HeadPos(rows + more)
  {
    hide Rising;
    RisingPrefix(rows, more);
    BetweenGrows(rows, more, n, n);
    BetweenAre(rows, n, n);
    BetweenAre(rows + more, n, n);
    if Holds(rows, n) {
      assert exists e :: e in Between(rows, n, n);
    }
    if e :| e in rows + more && e.seqNo == n {
      assert e in Between(rows + more, n, n);
    }
    if more != [] {
      LastAbove(rows, more);
    } else {
      assert rows + more == rows;
    }
  }

  lemma RisingPrefix(rows: seq<AuditEvent>, more: seq<AuditEvent>)
    requires Rising(rows + more)
    ensures Rising(rows)
  {
    assert forall i :: 0 <= i < |rows| ==> (rows + more)[i] == rows[i];
  }

  /** Rows that sit at positions 1, 2, 3 and so on. */
  lemma InOrder(rows: seq<AuditEvent>, from: int, to: int)
    requires (forall i :: 0 <= i < |rows| ==> rows[i].seqNo == i + 1) && 1 <= from <= to + 1 && to <= |rows|
    ensures Rising(rows) && HeadPos(rows) == |rows| && Complete(rows, from, to)
    ensures Between(rows, from, to) == rows[from - 1..to]
  {
    hide Between, Rising;
    assert Rising(rows) by { OnesRise(rows); }
    forall n | from <= n <= to
      ensures Holds(rows, n)
    {
      assert rows[n - 1] in rows;
    }
    CountIff(rows, from, to);
    BetweenAre(rows, from, to);
    var b := Between(rows, from, to);
    forall i | 0 <= i < |b|
      ensures b[i] == rows[from - 1..to][i]
    {
      assert b[i] in b && b[i].seqNo == from + i;
    }
  }

  lemma OnesRise(rows: seq<AuditEvent>)
    requires forall i :: 0 <= i < |rows| ==> rows[i].seqNo == i + 1
    ensures Rising(rows)
  {
  }
}
