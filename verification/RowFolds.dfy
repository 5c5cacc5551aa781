/** What a loop over join rows keeps of one column: its first value, its last value
    or the set of its values. A `pick` reads the column from the rows it concerns. */
module RowFolds {
  import opened Basics

  /** First-wins: `entry(..).or_insert_with(..)` and `a = a.or(b)`. */
  function FirstSome<R, T>(rows: seq<R>, pick: R -> Option<T>): Option<T> {
    var n := |rows|;
    if n == 0 then None else FirstSome(rows[..n - 1], pick).Or(pick(rows[n - 1]))
  }

  /** Last-wins: `insert(key, ..)`. */
  function LastSome<R, T>(rows: seq<R>, pick: R -> Option<T>): Option<T> {
    var n := |rows|;
    if n == 0 then None else pick(rows[n - 1]).Or(LastSome(rows[..n - 1], pick))
  }

  function AsSet<T(==)>(o: Option<T>): set<T> {
    if o.Some? then {o.value} else {}
  }

  /** Every value the column takes. */
  function Picks<R, T(==)>(rows: seq<R>, pick: R -> Option<T>): set<T> {
    var n := |rows|;
    if n == 0 then {} else Picks(rows[..n - 1], pick) + AsSet(pick(rows[n - 1]))
  }

  /** How many rows have a value. */
  function Tally<R, T(==)>(rows: seq<R>, pick: R -> Option<T>): nat {
    var n := |rows|;
    if n == 0 then 0 else Tally(rows[..n - 1], pick) + |AsSet(pick(rows[n - 1]))|
  }

  /** No value occurs in two rows. */
  ghost predicate Unrepeated<R, T>(rows: seq<R>, pick: R -> Option<T>) {
    forall i, j :: 0 <= i < j < |rows| && pick(rows[i]).Some? ==> pick(rows[i]) != pick(rows[j])
  }

  /** The column takes at most one value. */
  ghost predicate OneValue<R(!new), T>(rows: seq<R>, pick: R -> Option<T>) {
    forall r, s :: r in rows && s in rows && pick(r).Some? && pick(s).Some? ==> pick(r) == pick(s)
  }

  ghost predicate SameElements<R(!new)>(rows: seq<R>, others: seq<R>) {
    forall r :: r in rows <==> r in others
  }

  lemma Snoc<R, T>(rows: seq<R>, row: R, pick: R -> Option<T>)
    ensures FirstSome(rows + [row], pick) == FirstSome(rows, pick).Or(pick(row))
    ensures LastSome(rows + [row], pick) == pick(row).Or(LastSome(rows, pick))
    ensures Picks(rows + [row], pick) == Picks(rows, pick) + AsSet(pick(row))
  {
    assert (rows + [row])[..|rows|] == rows;
  }

  /** First-wins: a row's value is kept when no row before it has one. */
  lemma {:induction false} FirstSomeAt<R, T>(front: seq<R>, row: R, back: seq<R>, pick: R -> Option<T>)
    requires pick(row).Some? && forall r :: r in front ==> pick(r).None?
    ensures FirstSome(front + [row] + back, pick) == pick(row)
  {
    var n := |back|;
    if n == 0 {
      assert front + [row] + back == front + [row];
      Snoc(front, row, pick);
      NothingPicked(front, pick);
    } else {
      assert front + [row] + back == front + [row] + back[..n - 1] + [back[n - 1]];
      FirstSomeAt(front, row, back[..n - 1], pick);
      Snoc(front + [row] + back[..n - 1], back[n - 1], pick);
    }
  }

  /** Last-wins: a row's value is kept when no row after it has one. */
  lemma {:induction false} LastSomeAt<R, T>(front: seq<R>, row: R, back: seq<R>, pick: R -> Option<T>)
    requires pick(row).Some? && forall r :: r in back ==> pick(r).None?
    ensures LastSome(front + [row] + back, pick) == pick(row)
  {
    var n := |back|;
    if n == 0 {
      assert front + [row] + back == front + [row];
      Snoc(front, row, pick);
    } else {
      assert front + [row] + back == front + [row] + back[..n - 1] + [back[n - 1]];
      LastSomeAt(front, row, back[..n - 1], pick);
      Snoc(front + [row] + back[..n - 1], back[n - 1], pick);
    }
  }

  /** A value some row holds is seen by every fold. */
  lemma {:induction false} Seen<R, T>(rows: seq<R>, pick: R -> Option<T>, row: R)
    requires row in rows && pick(row).Some?
    ensures FirstSome(rows, pick).Some? && LastSome(rows, pick).Some?
    ensures pick(row).value in Picks(rows, pick)
  {
    var n := |rows|;
    if rows[n - 1] != row {
      assert row in rows[..n - 1] by { assert rows == rows[..n - 1] + [rows[n - 1]]; }
      Seen(rows[..n - 1], pick, row);
    }
  }

  /** A picked value comes from a row. */
  lemma {:induction false} PickedFrom<R, T>(rows: seq<R>, pick: R -> Option<T>, v: T) returns (row: R)
    requires v in Picks(rows, pick)
    ensures row in rows && pick(row) == Some(v)
  {
    var n := |rows|;
    row := rows[n - 1];
    if pick(row) != Some(v) { row := PickedFrom(rows[..n - 1], pick, v); }
  }

  lemma {:induction false} FirstFrom<R, T>(rows: seq<R>, pick: R -> Option<T>) returns (row: R)
    requires FirstSome(rows, pick).Some?
    ensures row in rows && pick(row) == FirstSome(rows, pick)
  {
    var n := |rows|;
    if FirstSome(rows[..n - 1], pick).Some? { row := FirstFrom(rows[..n - 1], pick); } else { row := rows[n - 1]; }
  }

  lemma {:induction false} LastFrom<R, T>(rows: seq<R>, pick: R -> Option<T>) returns (row: R)
    requires LastSome(rows, pick).Some?
    ensures row in rows && pick(row) == LastSome(rows, pick)
  {
    var n := |rows|;
    row := rows[n - 1];
    if pick(row).None? { row := LastFrom(rows[..n - 1], pick); }
  }

  /** No row holds a value: nothing is kept. */
  lemma {:induction false} NothingPicked<R, T>(rows: seq<R>, pick: R -> Option<T>)
    requires forall r :: r in rows ==> pick(r).None?
    ensures FirstSome(rows, pick).None? && LastSome(rows, pick).None? && Picks(rows, pick) == {}
  {
    var n := |rows|;
    if n > 0 {
      assert rows[n - 1] in rows;
      NothingPicked(rows[..n - 1], pick);
    }
  }

  /** A column with one value has it wherever the fold looks. */
  lemma OnlyValue<R(!new), T>(rows: seq<R>, pick: R -> Option<T>, row: R)
    requires OneValue(rows, pick) && row in rows && pick(row).Some?
    ensures FirstSome(rows, pick) == LastSome(rows, pick) == pick(row)
  {
    Seen(rows, pick, row);
    var first := FirstFrom(rows, pick);
    var last := LastFrom(rows, pick);
  }

  /** First-wins and last-wins agree on a column with one value. */
  lemma FirstIsLast<R(!new), T>(rows: seq<R>, pick: R -> Option<T>)
    requires OneValue(rows, pick)
    ensures FirstSome(rows, pick) == LastSome(rows, pick)
  {
    if FirstSome(rows, pick).Some? {
      var first := FirstFrom(rows, pick);
      OnlyValue(rows, pick, first);
    } else if LastSome(rows, pick).Some? {
      var last := LastFrom(rows, pick);
      OnlyValue(rows, pick, last);
    }
  }

  /** Rows in any order and multiplicity give the same value. */
  lemma OrderIrrelevant<R(!new), T>(rows: seq<R>, others: seq<R>, pick: R -> Option<T>)
    requires OneValue(rows, pick) && SameElements(rows, others)
    ensures FirstSome(rows, pick) == FirstSome(others, pick)
    ensures LastSome(rows, pick) == LastSome(others, pick)
  {
    assert OneValue(others, pick);
    FirstIsLast(rows, pick);
    FirstIsLast(others, pick);
    if FirstSome(rows, pick).Some? {
      var row := FirstFrom(rows, pick);
      OnlyValue(others, pick, row);
    } else if FirstSome(others, pick).Some? {
      var row := FirstFrom(others, pick);
      OnlyValue(rows, pick, row);
    }
  }

  lemma SamePicks<R(!new), T(!new)>(rows: seq<R>, others: seq<R>, pick: R -> Option<T>)
    requires SameElements(rows, others)
    ensures Picks(rows, pick) == Picks(others, pick)
  {
    forall v ensures v in Picks(rows, pick) <==> v in Picks(others, pick) {
      if v in Picks(rows, pick) { var r := PickedFrom(rows, pick, v); Seen(others, pick, r); }
      if v in Picks(others, pick) { var r := PickedFrom(others, pick, v); Seen(rows, pick, r); }
    }
  }

  /** Columns that read the same from every row fold to the same value. */
  lemma {:induction false} SamePick<R, T>(rows: seq<R>, p: R -> Option<T>, q: R -> Option<T>)
    requires forall r :: r in rows ==> p(r) == q(r)
    ensures FirstSome(rows, p) == FirstSome(rows, q)
    ensures LastSome(rows, p) == LastSome(rows, q)
    ensures Picks(rows, p) == Picks(rows, q)
    ensures Tally(rows, p) == Tally(rows, q)
  {
    var n := |rows|;
    if n > 0 {
      assert rows[n - 1] in rows;
      SamePick(rows[..n - 1], p, q);
    }
  }

  /** A row put in front decides a first-wins column; one put behind, a last-wins column. */
  lemma {:induction false} Decides<R, T>(row: R, rows: seq<R>, pick: R -> Option<T>)
    requires pick(row).Some?
    ensures FirstSome([row] + rows, pick) == pick(row)
    ensures LastSome(rows + [row], pick) == pick(row)
  {
    Snoc(rows, row, pick);
    var n := |rows|;
    if n > 0 {
      Decides(row, rows[..n - 1], pick);
      assert ([row] + rows)[..n] == [row] + rows[..n - 1];
    } else {
      assert ([row] + rows)[..0] == [];
    }
  }

  lemma RepeatedInFront<R(!new)>(row: R, rows: seq<R>)
    requires row in rows
    ensures SameElements(rows, [row] + rows)
  {
  }

  lemma TallySnoc<R, T>(rows: seq<R>, row: R, pick: R -> Option<T>)
    ensures Tally(rows + [row], pick) == Tally(rows, pick) + if pick(row).Some? then 1 else 0
  {
    assert (rows + [row])[..|rows|] == rows;
  }

  /** Counting rows counts values exactly when no value is repeated. */
  lemma {:induction false} TallyExactly<R, T>(rows: seq<R>, pick: R -> Option<T>)
    ensures |Picks(rows, pick)| <= Tally(rows, pick)
    ensures |Picks(rows, pick)| == Tally(rows, pick) <==> Unrepeated(rows, pick)
  {
    var n := |rows|;
    if n > 0 {
      var front, last := rows[..n - 1], rows[n - 1];
      TallyExactly(front, pick);
      assert forall i :: 0 <= i < n - 1 ==> front[i] == rows[i];
      if pick(last).Some? {
        if pick(last).value in Picks(front, pick) {
          var r := PickedFrom(front, pick, pick(last).value);
          var i :| 0 <= i < n - 1 && front[i] == r;
          assert Picks(rows, pick) == Picks(front, pick);
          assert pick(rows[i]) == pick(rows[n - 1]);
        } else {
          forall i | 0 <= i < n - 1 && pick(rows[i]).Some? ensures pick(rows[i]) != pick(last) {
            Seen(front, pick, front[i]);
          }
        }
      }
    }
  }
}
