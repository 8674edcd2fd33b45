/** The value-level meaning of `sfdc.util.insertCommand`: what the list of
    test-command rows looks like after one insertion, with the properties the
    patcher is meant to have proved about it. */
module CommandRows {
  import opened Wrappers

  /** The command name of the cleanup row the patcher appends. */
  const CLEANUP := "removeCommands"

  /** One row of the host's command list as a value: a Selenium `Command`
      record `{command, target, value, index}`; `None` is `undefined`. */
  datatype Row = Row(command: string, target: Option<string>, value: Option<string>, index: int)

  /** The renumbering of one row: rows numbered after the pivot move up by one. */
  function Bump(r: Row, pivot: int): Row
  {
    if r.index > pivot then r.(index := r.index + 1) else r
  }

  /** Every row passed through `Bump`, positions unchanged. */
  function Renumber(rows: seq<Row>, pivot: int): (r: seq<Row>)
    ensures |r| == |rows|
    ensures forall i :: 0 <= i < |rows| ==> r[i] == Bump(rows[i], pivot)
  {
    seq(|rows|, i requires 0 <= i < |rows| => Bump(rows[i], pivot))
  }

  /** The new row, placed right after the cursor. */
  function NewRow(rows: seq<Row>, cur: nat, command: string, target: Option<string>, value: Option<string>): Row
    requires cur < |rows|
  {
    Row(command, target, value, rows[cur].index + 1)
  }

  /** The renumbered rows with the new row spliced in after the cursor. */
  function Spliced(rows: seq<Row>, cur: nat, command: string, target: Option<string>, value: Option<string>): seq<Row>
    requires cur < |rows|
  {
    var bumped := Renumber(rows, rows[cur].index);
    bumped[..cur + 1] + [NewRow(rows, cur, command, target, value)] + bumped[cur + 1..]
  }

  /** The list `insertCommand` hands to `setCommands`, as the code is written:
      the cleanup row, when added, is numbered after the (possibly already
      renumbered) original last row. */
  function Insert(rows: seq<Row>, cur: nat, command: string, target: Option<string>, value: Option<string>): seq<Row>
    requires cur < |rows|
  {
    var spliced := Spliced(rows, cur, command, target, value);
    var lastRow := Bump(rows[|rows| - 1], rows[cur].index);
    if rows[|rows| - 1].command != CLEANUP then spliced + [Row(CLEANUP, None, None, lastRow.index + 1)]
    else spliced
  }

  /** `Spliced` unfolded, for proofs about the heap model. */
  lemma SplicedShape(rows: seq<Row>, cur: nat, command: string, target: Option<string>, value: Option<string>)
    requires cur < |rows|
    ensures Spliced(rows, cur, command, target, value) ==
      Renumber(rows, rows[cur].index)[..cur + 1] + [NewRow(rows, cur, command, target, value)]
        + Renumber(rows, rows[cur].index)[cur + 1..]
  {
  }

  /** The two shapes of `Insert`'s result, for proofs about the heap model. */
  lemma InsertShape(rows: seq<Row>, cur: nat, command: string, target: Option<string>, value: Option<string>)
    requires cur < |rows|
    ensures rows[|rows| - 1].command != CLEANUP ==>
      Insert(rows, cur, command, target, value) == Spliced(rows, cur, command, target, value)
        + [Row(CLEANUP, None, None, Bump(rows[|rows| - 1], rows[cur].index).index + 1)]
    ensures rows[|rows| - 1].command == CLEANUP ==>
      Insert(rows, cur, command, target, value) == Spliced(rows, cur, command, target, value)
  {
  }

  /** The cleanup numbering evidently intended: after the last row of the
      spliced list, so that a dense numbering stays dense. */
  function InsertIntended(rows: seq<Row>, cur: nat, command: string, target: Option<string>, value: Option<string>): seq<Row>
    requires cur < |rows|
  {
    var spliced := Spliced(rows, cur, command, target, value);
    if rows[|rows| - 1].command != CLEANUP then spliced + [Row(CLEANUP, None, None, spliced[|spliced| - 1].index + 1)]
    else spliced
  }

  /** Rows numbered by position, as the host numbers a freshly loaded test. */
  ghost predicate Dense(rows: seq<Row>)
  {
    forall i :: 0 <= i < |rows| ==> rows[i].index == i
  }

  /** How many rows of the list are cleanup rows. */
  function CleanupCount(rows: seq<Row>): nat
  {
    CleanupsBelow(rows, |rows|)
  }

  /** How many of the first `n` rows are cleanup rows. */
  function CleanupsBelow(rows: seq<Row>, n: nat): nat
    requires n <= |rows|
  {
    if n == 0 then 0
    else CleanupsBelow(rows, n - 1) + (if rows[n - 1].command == CLEANUP then 1 else 0)
  }

  /** The length grows by one when the list already ends in a cleanup row,
      and by two otherwise. */
  lemma InsertLength(rows: seq<Row>, cur: nat, command: string, target: Option<string>, value: Option<string>)
    requires cur < |rows|
    ensures |Insert(rows, cur, command, target, value)| ==
            |rows| + (if rows[|rows| - 1].command == CLEANUP then 1 else 2)
  {
  }

  /** The rows up to the cursor keep their position, the new row comes next
      carrying the given command, target and value numbered one past the
      current row, and every original row keeps its relative order; an
      original row's number moves up by one exactly when it is greater than
      the current row's, and nothing else about the row changes. */
  lemma InsertPlacement(rows: seq<Row>, cur: nat, command: string, target: Option<string>, value: Option<string>)
    requires cur < |rows|
    ensures var r := Insert(rows, cur, command, target, value);
      && r[cur + 1] == Row(command, target, value, rows[cur].index + 1)
      && (forall j :: 0 <= j <= cur ==> r[j] == Bump(rows[j], rows[cur].index))
      && (forall j :: cur < j < |rows| ==> r[j + 1] == Bump(rows[j], rows[cur].index))
      && r[..cur + 1] + r[cur + 2..|rows| + 1] == Renumber(rows, rows[cur].index)
  {
    var r := Insert(rows, cur, command, target, value);
    var bumped := Renumber(rows, rows[cur].index);
    assert r[..|rows| + 1] == Spliced(rows, cur, command, target, value);
    assert r[..cur + 1] == bumped[..cur + 1];
    assert r[cur + 2..|rows| + 1] == bumped[cur + 1..];
    assert bumped == bumped[..cur + 1] + bumped[cur + 1..];
  }

  /** The renumbering as a property of each row: greater numbers move up by
      exactly one, the others stay. */
  lemma BumpIndex(r: Row, pivot: int)
    ensures Bump(r, pivot).index == if r.index > pivot then r.index + 1 else r.index
    ensures Bump(r, pivot).(index := r.index) == r
  {
  }

  /** When a cleanup row is appended it is last, it is a `removeCommands`
      row without target or value, and it is numbered one past the original
      last row as renumbered; when the list already ends in one nothing is
      appended and the list ends in the renumbered original last row, unless
      the cursor is on that row and the new row lands after it. */
  lemma InsertTail(rows: seq<Row>, cur: nat, command: string, target: Option<string>, value: Option<string>)
    requires cur < |rows|
    ensures var r := Insert(rows, cur, command, target, value);
      var lastRow := rows[|rows| - 1];
      if lastRow.command != CLEANUP then
        r[|r| - 1] == Row(CLEANUP, None, None, Bump(lastRow, rows[cur].index).index + 1)
      else if cur < |rows| - 1 then
        r[|r| - 1] == Bump(lastRow, rows[cur].index)
      else
        r[|r| - 1] == NewRow(rows, cur, command, target, value)
  {
  }

  /** The cleanup rows of a concatenation add up. */
  lemma CleanupCountAppend(xs: seq<Row>, ys: seq<Row>)
    ensures CleanupCount(xs + ys) == CleanupCount(xs) + CleanupCount(ys)
  {
    CleanupsBelowPrefix(xs, ys, |xs|);
    CleanupsBelowAppend(xs, ys, |ys|);
  }

  /** Counting within the first list of a concatenation sees only that list. */
  lemma {:induction false} CleanupsBelowPrefix(xs: seq<Row>, ys: seq<Row>, n: nat)
    requires n <= |xs|
    ensures CleanupsBelow(xs + ys, n) == CleanupsBelow(xs, n)
  {
    if n > 0 {
      assert (xs + ys)[n - 1] == xs[n - 1];
      CleanupsBelowPrefix(xs, ys, n - 1);
    }
  }

  /** Counting past the first list of a concatenation adds the second's count. */
  lemma {:induction false} CleanupsBelowAppend(xs: seq<Row>, ys: seq<Row>, k: nat)
    requires k <= |ys| && CleanupsBelow(xs + ys, |xs|) == CleanupCount(xs)
    ensures CleanupsBelow(xs + ys, |xs| + k) == CleanupCount(xs) + CleanupsBelow(ys, k)
  {
    if k > 0 {
      assert (xs + ys)[|xs| + k - 1] == ys[k - 1];
      CleanupsBelowAppend(xs, ys, k - 1);
    }
  }

  /** Renumbering does not touch command names, so the cleanup rows stay. */
  lemma CleanupCountRenumber(rows: seq<Row>, pivot: int)
    ensures CleanupCount(Renumber(rows, pivot)) == CleanupCount(rows)
  {
    CleanupsBelowRenumber(rows, pivot, |rows|);
  }

  /** `CleanupCountRenumber` for the first `n` rows. */
  lemma {:induction false} CleanupsBelowRenumber(rows: seq<Row>, pivot: int, n: nat)
    requires n <= |rows|
    ensures CleanupsBelow(Renumber(rows, pivot), n) == CleanupsBelow(rows, n)
  {
    if n > 0 {
      CleanupsBelowRenumber(rows, pivot, n - 1);
    }
  }

  /** The number of cleanup rows grows by one for an appended cleanup row
      and by one more if the inserted command is itself `removeCommands`. */
  lemma InsertCleanupCount(rows: seq<Row>, cur: nat, command: string, target: Option<string>, value: Option<string>)
    requires cur < |rows|
    ensures CleanupCount(Insert(rows, cur, command, target, value)) ==
            CleanupCount(rows) + (if rows[|rows| - 1].command != CLEANUP then 1 else 0)
                               + (if command == CLEANUP then 1 else 0)
  {
    SplicedCleanupCount(rows, cur, command, target, value);
    InsertShape(rows, cur, command, target, value);
    if rows[|rows| - 1].command != CLEANUP {
      var clean := Row(CLEANUP, None, None, Bump(rows[|rows| - 1], rows[cur].index).index + 1);
      CleanupCountAppend(Spliced(rows, cur, command, target, value), [clean]);
      CleanupCountSingle(clean);
    }
  }

  /** Splicing in the new row adds one cleanup row if the new row is one. */
  lemma SplicedCleanupCount(rows: seq<Row>, cur: nat, command: string, target: Option<string>, value: Option<string>)
    requires cur < |rows|
    ensures CleanupCount(Spliced(rows, cur, command, target, value)) ==
            CleanupCount(rows) + (if command == CLEANUP then 1 else 0)
  {
    var bumped := Renumber(rows, rows[cur].index);
    var nr := NewRow(rows, cur, command, target, value);
    SplicedShape(rows, cur, command, target, value);
    CleanupCountRenumber(rows, rows[cur].index);
    CleanupCountInsertAt(bumped, cur + 1, nr);
    assert nr.command == command;
  }

  /** One row spliced into a list adds one cleanup row if it is one. */
  lemma CleanupCountInsertAt(xs: seq<Row>, k: nat, x: Row)
    requires k <= |xs|
    ensures CleanupCount(xs[..k] + [x] + xs[k..]) == CleanupCount(xs) + (if x.command == CLEANUP then 1 else 0)
  {
    assert xs == xs[..k] + xs[k..];
    CleanupCountAppend(xs[..k], xs[k..]);
    CleanupCountAppend(xs[..k], [x]);
    CleanupCountAppend(xs[..k] + [x], xs[k..]);
    CleanupCountSingle(x);
  }

  /** A one-row list counts its row if it is a cleanup row. */
  lemma CleanupCountSingle(r: Row)
    ensures CleanupCount([r]) == if r.command == CLEANUP then 1 else 0
  {
    assert CleanupsBelow([r], 0) == 0;
  }

  /** A patched list: it ends in its one and only cleanup row. */
  ghost predicate Patched(rows: seq<Row>)
  {
    |rows| > 0 && rows[|rows| - 1].command == CLEANUP && CleanupCount(rows) == 1
  }

  /** The first insertion into a list without cleanup rows patches it, and
      a further insertion (of an ordinary command, with the cursor before the
      cleanup row) keeps it patched: repeated inserts never pile up two
      trailing cleanup rows. */
  lemma InsertPatches(rows: seq<Row>, cur: nat, command: string, target: Option<string>, value: Option<string>)
    requires cur < |rows| && command != CLEANUP
    requires CleanupCount(rows) == 0 || (Patched(rows) && cur < |rows| - 1)
    ensures Patched(Insert(rows, cur, command, target, value))
  {
    var r := Insert(rows, cur, command, target, value);
    InsertCleanupCount(rows, cur, command, target, value);
    InsertTail(rows, cur, command, target, value);
    InsertLength(rows, cur, command, target, value);
    assert CleanupCount(r) == 1 by {
      if CleanupCount(rows) != 0 {
        assert rows[|rows| - 1].command == CLEANUP;
      } else if rows[|rows| - 1].command == CLEANUP {
        CleanupCountLast(rows);
      }
    }
    assert r[|r| - 1].command == CLEANUP by {
      if CleanupCount(rows) == 0 && rows[|rows| - 1].command == CLEANUP {
        CleanupCountLast(rows);
      }
    }
  }

  /** A list that ends in a cleanup row has at least one. */
  lemma CleanupCountLast(rows: seq<Row>)
    requires |rows| > 0 && rows[|rows| - 1].command == CLEANUP
    ensures CleanupCount(rows) >= 1
  {
  }

  /** As written, the patcher keeps a dense numbering dense except when the
      cursor is on the last row and that row is not a cleanup row: then the
      cleanup row gets the same number as the inserted row. */
  lemma InsertDense(rows: seq<Row>, cur: nat, command: string, target: Option<string>, value: Option<string>)
    requires cur < |rows| && Dense(rows)
    ensures Dense(Insert(rows, cur, command, target, value)) <==>
            !(cur == |rows| - 1 && rows[cur].command != CLEANUP)
  {
    InsertPlacement(rows, cur, command, target, value);
    InsertTail(rows, cur, command, target, value);
    InsertLength(rows, cur, command, target, value);
    DenseAfterInsert(rows, Insert(rows, cur, command, target, value), cur);
  }

  /** The numbering argument of `InsertDense`, from the placement facts alone. */
  lemma DenseAfterInsert(rows: seq<Row>, r: seq<Row>, cur: nat)
    requires cur < |rows| && Dense(rows)
    requires |r| == |rows| + (if rows[|rows| - 1].command == CLEANUP then 1 else 2)
    requires r[cur + 1].index == rows[cur].index + 1
    requires forall j :: 0 <= j <= cur ==> r[j] == Bump(rows[j], rows[cur].index)
    requires forall j :: cur < j < |rows| ==> r[j + 1] == Bump(rows[j], rows[cur].index)
    requires rows[|rows| - 1].command != CLEANUP ==>
      r[|r| - 1].index == Bump(rows[|rows| - 1], rows[cur].index).index + 1
    ensures Dense(r) <==> !(cur == |rows| - 1 && rows[cur].command != CLEANUP)
  {
    var n := |rows|;
    if cur == n - 1 && rows[cur].command != CLEANUP {
      assert r[n + 1].index == n;
    } else {
      forall i | 0 <= i < |r| ensures r[i].index == i {
        if i <= cur {
          assert r[i] == Bump(rows[i], rows[cur].index);
        } else if cur + 1 < i <= n {
          assert r[i] == Bump(rows[i - 1], rows[cur].index);
        }
      }
    }
  }

  /** The smallest list on which the numbering collides: one `open` row with
      the cursor on it. */
  lemma InsertCollisionExample()
    ensures var r := Insert([Row("open", Some("/"), None, 0)], 0, "pause", Some("5000"), None);
      r == [Row("open", Some("/"), None, 0), Row("pause", Some("5000"), None, 1), Row(CLEANUP, None, None, 1)]
  {
  }

  /** With the intended numbering a dense list always stays dense. */
  lemma InsertIntendedDense(rows: seq<Row>, cur: nat, command: string, target: Option<string>, value: Option<string>)
    requires cur < |rows| && Dense(rows)
    ensures Dense(InsertIntended(rows, cur, command, target, value))
  {
    var r := InsertIntended(rows, cur, command, target, value);
    var s := Spliced(rows, cur, command, target, value);
    var bumped := Renumber(rows, rows[cur].index);
    assert |s| == |rows| + 1;
    forall i | 0 <= i < |s| ensures s[i].index == i {
      if i <= cur {
        assert s[i] == bumped[i];
      } else if i > cur + 1 {
        assert s[i] == bumped[i - 1];
      }
    }
    assert r[..|s|] == s;
  }

  /** The intended numbering differs from the written one only in the
      cleanup row's number. */
  lemma InsertIntendedAgrees(rows: seq<Row>, cur: nat, command: string, target: Option<string>, value: Option<string>)
    requires cur < |rows|
    ensures var r := Insert(rows, cur, command, target, value);
      var q := InsertIntended(rows, cur, command, target, value);
      |q| == |r| && q[..|rows| + 1] == r[..|rows| + 1]
      && q[|q| - 1].command == r[|r| - 1].command
  {
    var s := Spliced(rows, cur, command, target, value);
    SplicedShape(rows, cur, command, target, value);
    InsertShape(rows, cur, command, target, value);
    assert |s| == |rows| + 1;
    if rows[|rows| - 1].command != CLEANUP {
      assert Insert(rows, cur, command, target, value)[..|s|] == s;
      assert InsertIntended(rows, cur, command, target, value)[..|s|] == s;
    }
  }

  /** Three rows with the cursor on the second: `pause` lands third, the
      last row moves up to 3 and the cleanup row is numbered 4. The original
      three row objects, which a restore hands back, now carry the numbers
      0, 1 and 3. */
  lemma InsertScenario()
    ensures var rows := [Row("open", None, None, 0), Row("click", None, None, 1), Row("assert", None, None, 2)];
      && Insert(rows, 1, "pause", None, Some("5000")) ==
           [Row("open", None, None, 0), Row("click", None, None, 1), Row("pause", None, Some("5000"), 2),
            Row("assert", None, None, 3), Row(CLEANUP, None, None, 4)]
      && Renumber(rows, rows[1].index) ==
           [Row("open", None, None, 0), Row("click", None, None, 1), Row("assert", None, None, 3)]
  {
  }
}
