/** `buildFingerprintGroups` in components/monitor/monitor-change-timeline.tsx: runs become groups. */
module ChangeTimeline {

  /** An absent fingerprint is the empty one: both are falsy and never grouped. */
  datatype Change<+C> = Change(fingerprint: string, content: C)

  datatype Row<+C> =
    | Single(change: Change<C>)
    | Group(fingerprint: string, changes: seq<Change<C>>)

  function ChangesOf<C>(row: Row<C>): seq<Change<C>> {
    match row
    case Single(change) => [change]
    case Group(_, changes) => changes
  }

  function Flatten<C>(rows: seq<Row<C>>): seq<Change<C>> {
    if rows == [] then [] else ChangesOf(rows[0]) + Flatten(rows[1..])
  }

  /** The fingerprint all changes of a row share. */
  function Print<C>(row: Row<C>): string {
    match row
    case Single(change) => change.fingerprint
    case Group(fingerprint, _) => fingerprint
  }

  ghost predicate WellFormed<C>(row: Row<C>) {
    row.Group? ==>
      && row.fingerprint != "" && |row.changes| >= 2
      && forall i | 0 <= i < |row.changes| :: row.changes[i].fingerprint == row.fingerprint
  }

  /** Well-formed rows, and no two neighbours with one non-empty fingerprint. */
  ghost predicate Canonical<C>(rows: seq<Row<C>>) {
    && (forall k | 0 <= k < |rows| :: WellFormed(rows[k]))
    && (forall k | 0 <= k < |rows| - 1 :: Print(rows[k]) == Print(rows[k + 1]) ==> Print(rows[k]) == "")
  }

  lemma {:induction false} FlattenSnoc<C>(rows: seq<Row<C>>, row: Row<C>)
    ensures Flatten(rows + [row]) == Flatten(rows) + ChangesOf(row)
  {
    if rows == [] {
      assert rows + [row] == [row];
    } else {
      assert (rows + [row])[1..] == rows[1..] + [row];
      FlattenSnoc(rows[1..], row);
    }
  }

  /** The end of the run that starts at i. */
  method RunEnd<C>(changes: seq<Change<C>>, i: nat) returns (j: nat)
    requires i < |changes|
    ensures i < j <= |changes|
    ensures forall k | i <= k < j :: changes[k].fingerprint == changes[i].fingerprint
    ensures j < |changes| ==> changes[j].fingerprint != changes[i].fingerprint
  {
    j := i + 1;
    while j < |changes| && changes[j].fingerprint == changes[i].fingerprint
      invariant i < j <= |changes|
      invariant forall k | i <= k < j :: changes[k].fingerprint == changes[i].fingerprint
    {
      j := j + 1;
    }
  }

  /** The row that starts at i, and where the next one starts. */
  method NextRow<C>(changes: seq<Change<C>>, i: nat) returns (row: Row<C>, next: nat)
    requires i < |changes|
    ensures i < next <= |changes| && ChangesOf(row) == changes[i..next]
    ensures WellFormed(row) && Print(row) == changes[i].fingerprint
    ensures next < |changes| && changes[next].fingerprint == changes[i].fingerprint ==> changes[i].fingerprint == ""
  {
    if changes[i].fingerprint == "" {
      return Single(changes[i]), i + 1;
    }
    next := RunEnd(changes, i);
    if next - i == 1 {
      row := Single(changes[i]);
    } else {
      row := Group(changes[i].fingerprint, changes[i..next]);
    }
  }

  lemma CanonicalSnoc<C>(rows: seq<Row<C>>, row: Row<C>)
    requires Canonical(rows) && WellFormed(row)
    requires rows != [] && Print(rows[|rows| - 1]) == Print(row) ==> Print(row) == ""
    ensures Canonical(rows + [row])
  {
    var all := rows + [row];
    forall k | 0 <= k < |all| ensures WellFormed(all[k]) {
      assert k < |rows| ==> WellFormed(rows[k]);
    }
    forall k | 0 <= k < |all| - 1 ensures Print(all[k]) == Print(all[k + 1]) ==> Print(all[k]) == "" {
      if k < |rows| - 1 {
        assert Print(rows[k]) == Print(rows[k + 1]) ==> Print(rows[k]) == "";
      }
    }
  }

  /** The last row cannot take the change at i as well. */
  ghost predicate EndsRun<C>(changes: seq<Change<C>>, rows: seq<Row<C>>, i: nat) {
    rows != [] && i < |changes| && Print(rows[|rows| - 1]) == changes[i].fingerprint ==> changes[i].fingerprint == ""
  }

  lemma RowsExtend<C>(changes: seq<Change<C>>, rows: seq<Row<C>>, i: nat, row: Row<C>, next: nat)
    requires i < next <= |changes| && ChangesOf(row) == changes[i..next]
    requires WellFormed(row) && Print(row) == changes[i].fingerprint
    requires next < |changes| && changes[next].fingerprint == changes[i].fingerprint ==> changes[i].fingerprint == ""
    requires Canonical(rows) && Flatten(rows) == changes[..i] && EndsRun(changes, rows, i)
    ensures Canonical(rows + [row]) && Flatten(rows + [row]) == changes[..next] && EndsRun(changes, rows + [row], next)
  {
    FlattenSnoc(rows, row);
    CanonicalSnoc(rows, row);
    assert changes[..next] == changes[..i] + changes[i..next];
  }

  /** The rows are canonical and flatten back to the input. */
  method BuildFingerprintGroups<C>(changes: seq<Change<C>>) returns (out: seq<Row<C>>)
    ensures Canonical(out) && Flatten(out) == changes
  {
    out := [];
    var i := 0;
    while i < |changes|
      invariant i <= |changes|
      invariant Canonical(out) && Flatten(out) == changes[..i]
      invariant EndsRun(changes, out, i)
    {
      var row, next := NextRow(changes, i);
      RowsExtend(changes, out, i, row, next);
      out := out + [row];
      i := next;
    }
    assert changes[..|changes|] == changes;
  }

  /** The first row takes exactly the first run, or the first change when it has no fingerprint. */
  lemma FirstRow<C>(rows: seq<Row<C>>)
    requires Canonical(rows) && rows != []
    ensures var changes, n := Flatten(rows), |ChangesOf(rows[0])|;
      && 0 < n <= |changes| && changes[..n] == ChangesOf(rows[0])
      && changes[0].fingerprint == Print(rows[0])
      && (Print(rows[0]) == "" ==> n == 1)
      && (forall k | 0 <= k < n :: changes[k].fingerprint == Print(rows[0]))
      && (Print(rows[0]) != "" && n < |changes| ==> changes[n].fingerprint != Print(rows[0]))
      && (rows[0].Single? <==> n == 1)
      && Flatten(rows[1..]) == changes[n..]
      && Canonical(rows[1..])
  {
    assert WellFormed(rows[0]);
    if |rows| > 1 {
      assert WellFormed(rows[1]);
      assert Flatten(rows[1..]) == ChangesOf(rows[1]) + Flatten(rows[1..][1..]);
      assert ChangesOf(rows[1])[0].fingerprint == Print(rows[1]);
    }
    forall k | 0 <= k < |rows[1..]| ensures WellFormed(rows[1..][k]) {
      assert WellFormed(rows[k + 1]);
    }
    forall k | 0 <= k < |rows[1..]| - 1
      ensures Print(rows[1..][k]) == Print(rows[1..][k + 1]) ==> Print(rows[1..][k]) == ""
    {
      assert rows[1..][k] == rows[k + 1] && rows[1..][k + 1] == rows[(k + 1) + 1];
    }
  }

  /** There is only one canonical grouping of a list of changes. */
  lemma {:induction false} CanonicalIsUnique<C>(p: seq<Row<C>>, q: seq<Row<C>>)
    requires Canonical(p) && Canonical(q) && Flatten(p) == Flatten(q)
    ensures p == q
  {
    if p == [] {
      if q != [] {
        FirstRow(q);
      }
    } else if q == [] {
      FirstRow(p);
    } else {
      FirstRow(p);
      FirstRow(q);
      assert |ChangesOf(p[0])| == |ChangesOf(q[0])|;
      assert p[0] == q[0];
      CanonicalIsUnique(p[1..], q[1..]);
      assert p == [p[0]] + p[1..] && q == [q[0]] + q[1..];
    }
  }
}
