/** The timer skip list of src/timer.c: rt_timer_start, rt_timer_stop and rt_timer_check.

    A timer list is a number of rows. The last row has all active timers; each other row has some of
    those of the row below it. Ticks are 32-bit numbers that wrap.
  */
module Timer {
  import Division
  import Sequences

  const TICKS := 0x1_0000_0000

  /** RT_TICK_MAX / 2. */
  const HALF := 0x7fff_ffff

  type Tid = nat
  type Row = seq<Tid>

  /** Subtraction of ticks. */
  function Minus(a: nat, b: nat): (d: int)
    requires a < TICKS && b < TICKS
    ensures 0 <= d < TICKS && (d == 0 <==> a == b)
  {
    if a >= b then a - b else a - b + TICKS
  }

  function Plus(a: nat, b: nat): (c: nat)
    requires a < TICKS && b < TICKS
    ensures c < TICKS
  {
    if a + b < TICKS then a + b else a + b - TICKS
  }

  /** When each timer times out. */
  function TimeOf(due: map<Tid, nat>, x: Tid): (t: nat)
    ensures t < TICKS
  {
    if x in due && due[x] < TICKS then due[x] else 0
  }

  /** How long after base a timer times out. */
  function After(due: map<Tid, nat>, base: nat, x: Tid): nat
    requires base < TICKS
  {
    Minus(TimeOf(due, x), base)
  }

  /** All timers of the row time out in the half of the tick range that begins at base. */
  predicate Window(row: Row, due: map<Tid, nat>, base: nat)
    requires base < TICKS
  {
    forall x <- row :: After(due, base, x) < HALF
  }

  /** In such a window the wrapped comparison is an ordering. */
  lemma Compare(base: nat, t: nat, u: nat)
    requires base < TICKS && t < TICKS && u < TICKS && Minus(t, base) < HALF && Minus(u, base) < HALF
    ensures Minus(t, u) < HALF <==> Minus(t, base) >= Minus(u, base)
    ensures t == u <==> Minus(t, base) == Minus(u, base)
  {
  }

  /** Each of three time-outs is later than the next, by the wrapped comparison. */
  predicate InRing(a: nat, b: nat, c: nat)
    requires a < TICKS && b < TICKS && c < TICKS
  {
    0 < Minus(a, b) < HALF && 0 < Minus(b, c) < HALF && 0 < Minus(c, a) < HALF
  }

  lemma NoRing(base: nat, a: nat, b: nat, c: nat)
    requires base < TICKS && a < TICKS && b < TICKS && c < TICKS
    requires Minus(a, base) < HALF && Minus(b, base) < HALF && Minus(c, base) < HALF
    ensures !InRing(a, b, c)
  {
    Compare(base, a, b);
    Compare(base, b, c);
    Compare(base, c, a);
  }

  /** It is not enough that any two of the numbers are less than half the range apart: three can be in a ring.
      WindowAlways says that time-outs never are. */
  lemma PairwiseIsNotEnough()
    ensures exists a: nat, b: nat, c: nat {:trigger InRing(a, b, c)} ::
              a < TICKS && b < TICKS && c < TICKS && InRing(a, b, c)
  {
    var a: nat, b: nat, c: nat := 0x6000_0000, 0, 0xb000_0000;
    assert InRing(a, b, c);
  }

  predicate Sorted(row: Row, due: map<Tid, nat>, base: nat)
    requires base < TICKS
  {
    forall i, j :: 0 <= i < j < |row| ==> After(due, base, row[i]) <= After(due, base, row[j])
  }

  /** The comparison of rt_timer_start finds no timer earlier than one before it. */
  predicate InOrder(row: Row, due: map<Tid, nat>) {
    forall i, j :: 0 <= i < j < |row| ==> Minus(TimeOf(due, row[j]), TimeOf(due, row[i])) < HALF
  }

  /** A row can be in order under the wrapped comparison exactly if a window holds all its time-outs, and
      it is sorted in that window. */
  lemma OrderNeedsWindow(row: Row, due: map<Tid, nat>)
    ensures InOrder(row, due) <==> exists base: nat :: base < TICKS && Window(row, due, base) && Sorted(row, due, base)
  {
    if InOrder(row, due) {
      var base := if row == [] then 0 else TimeOf(due, row[0]);
      assert Window(row, due, base);
      forall i, j | 0 <= i < j < |row|
        ensures After(due, base, row[i]) <= After(due, base, row[j])
      {
        Compare(base, TimeOf(due, row[j]), TimeOf(due, row[i]));
      }
    }
    if base: nat :| base < TICKS && Window(row, due, base) && Sorted(row, due, base) {
      forall i, j | 0 <= i < j < |row|
        ensures Minus(TimeOf(due, row[j]), TimeOf(due, row[i])) < HALF
      {
        assert row[i] in row && row[j] in row;
        Compare(base, TimeOf(due, row[j]), TimeOf(due, row[i]));
      }
    }
  }

  // ---------------------------------------------------------------- searching a row

  /** The place behind all timers that time out no later than `after` the base. */
  function Place(row: Row, due: map<Tid, nat>, base: nat, after: nat): (k: nat)
    requires base < TICKS
    ensures k <= |row|
  {
    if row == [] || After(due, base, row[0]) > after then 0 else 1 + Place(row[1..], due, base, after)
  }

  /** The loop of rt_timer_start in one row, from the place h on. */
  function Search(row: Row, due: map<Tid, nat>, t: nat, h: nat): (k: nat)
    requires t < TICKS && h <= |row|
    ensures h <= k <= |row|
    decreases |row| - h
  {
    if h == |row| then h
    else
      var d := Minus(TimeOf(due, row[h]), t);
      if d == 0 then Search(row, due, t, h + 1)
      else if d < HALF then h
      else Search(row, due, t, h + 1)
  }

  lemma {:induction false} PlaceIs(row: Row, due: map<Tid, nat>, base: nat, after: nat)
    requires base < TICKS && Sorted(row, due, base)
    ensures var k := Place(row, due, base, after);
            && (forall i :: 0 <= i < k ==> After(due, base, row[i]) <= after)
            && (forall i :: k <= i < |row| ==> after < After(due, base, row[i]))
  {
    if row != [] {
      var rest := row[1..];
      if After(due, base, row[0]) <= after {
        PlaceIs(rest, due, base, after);
        var k := Place(row, due, base, after);
        forall i | 0 <= i < |row|
          ensures if i < k then After(due, base, row[i]) <= after else after < After(due, base, row[i])
        {
          if i > 0 { assert row[i] == rest[i - 1]; }
        }
      }
    }
  }

  /** From any place that is not too far, the search finds the right place. */
  lemma {:induction false} SearchFindsPlace(row: Row, due: map<Tid, nat>, base: nat, t: nat, h: nat)
    requires base < TICKS && t < TICKS && Sorted(row, due, base) && Window(row, due, base) && Minus(t, base) < HALF
    requires h <= Place(row, due, base, Minus(t, base))
    ensures Search(row, due, t, h) == Place(row, due, base, Minus(t, base))
    decreases |row| - h
  {
    var k := Place(row, due, base, Minus(t, base));
    PlaceIs(row, due, base, Minus(t, base));
    if h < |row| {
      assert row[h] in row;
      Compare(base, TimeOf(due, row[h]), t);
      if h < k { SearchFindsPlace(row, due, base, t, h + 1); }
    }
  }

  // ---------------------------------------------------------------- rows

  /** The timers of a row that are in s. */
  function Keep(row: Row, s: set<Tid>): (r: Row)
    ensures |r| <= |row|
  {
    if row == [] then [] else (if row[0] in s then [row[0]] else []) + Keep(row[1..], s)
  }

  function Members(row: Row): set<Tid> {
    set x | x in row
  }

  function Inserted(row: Row, k: nat, x: Tid): Row {
    if k <= |row| then row[..k] + [x] + row[k..] else row + [x]
  }

  /** A row is an ordered sublist of the one below it. */
  predicate SubRow(upper: Row, lower: Row) {
    upper == Keep(lower, Members(upper))
  }

  lemma {:induction false} KeepMembers(row: Row, s: set<Tid>)
    ensures forall x :: x in Keep(row, s) <==> x in row && x in s
    ensures Sequences.Distinct(row) ==> Sequences.Distinct(Keep(row, s))
  {
    if row != [] {
      var rest := row[1..];
      KeepMembers(rest, s);
      if Sequences.Distinct(row) {
        assert Sequences.Distinct(rest) && row[0] !in rest;
      }
    }
  }

  lemma SortedFirst(x: Tid, row: Row, due: map<Tid, nat>, base: nat)
    requires base < TICKS && Sorted(row, due, base) && forall y <- row :: After(due, base, x) <= After(due, base, y)
    ensures Sorted([x] + row, due, base)
  {
  }

  lemma NothingSorted(due: map<Tid, nat>, base: nat)
    requires base < TICKS
    ensures Sorted([], due, base)
  {
  }

  lemma {:induction false} KeepSorted(row: Row, due: map<Tid, nat>, base: nat, s: set<Tid>)
    requires base < TICKS && Sorted(row, due, base)
    ensures Sorted(Keep(row, s), due, base)
  {
    hide Sorted;
    if row != [] {
      var rest := row[1..];
      SortedRest(row, due, base);
      KeepSorted(rest, due, base, s);
      KeepMembers(rest, s);
      if row[0] in s { SortedFirst(row[0], Keep(rest, s), due, base); }
      else { assert [] + Keep(rest, s) == Keep(rest, s); }
    } else {
      NothingSorted(due, base);
    }
  }

  function Without(row: Row, x: Tid): Row {
    Keep(row, Members(row) - {x})
  }

  lemma {:induction false} KeepKeep(row: Row, a: set<Tid>, b: set<Tid>)
    ensures Keep(Keep(row, a), b) == Keep(row, a * b)
  {
    if row != [] {
      var rest := row[1..];
      KeepKeep(rest, a, b);
      if row[0] in a { assert ([row[0]] + Keep(rest, a))[1..] == Keep(rest, a); }
      else { assert [] + Keep(rest, a) == Keep(rest, a); }
    }
  }

  lemma {:induction false} KeepSame(row: Row, a: set<Tid>, b: set<Tid>)
    requires forall x <- row :: x in a <==> x in b
    ensures Keep(row, a) == Keep(row, b)
  {
    if row != [] { KeepSame(row[1..], a, b); }
  }

  lemma {:induction false} KeepAll(row: Row)
    ensures Keep(row, Members(row)) == row
  {
    if row != [] {
      KeepSame(row[1..], Members(row), Members(row[1..]));
      KeepAll(row[1..]);
    }
  }

  /** The row with x put behind all timers that time out no later than `after` the base. */
  function Put(row: Row, due: map<Tid, nat>, base: nat, x: Tid, after: nat): (r: Row)
    requires base < TICKS
    ensures |r| == |row| + 1
  {
    if row == [] || After(due, base, row[0]) > after then [x] + row
    else [row[0]] + Put(row[1..], due, base, x, after)
  }

  lemma InsertedInRest(row: Row, k: nat, x: Tid)
    requires row != [] && k < |row|
    ensures Inserted(row, k + 1, x) == [row[0]] + Inserted(row[1..], k, x)
  {
    var rest := row[1..];
    assert row == [row[0]] + rest;
    assert row[..k + 1] == [row[0]] + rest[..k];
    assert row[k + 1..] == rest[k..];
  }

  lemma {:induction false} PutIsInserted(row: Row, due: map<Tid, nat>, base: nat, x: Tid, after: nat)
    requires base < TICKS
    ensures Put(row, due, base, x, after) == Inserted(row, Place(row, due, base, after), x)
  {
    if row != [] && After(due, base, row[0]) <= after {
      PutIsInserted(row[1..], due, base, x, after);
      InsertedInRest(row, Place(row[1..], due, base, after), x);
    }
  }

  /** A row without x is not changed by putting x into the row below it. */
  lemma {:induction false} KeepOldOfPut(row: Row, due: map<Tid, nat>, base: nat, x: Tid, after: nat, s: set<Tid>)
    requires base < TICKS && x !in s
    ensures Keep(Put(row, due, base, x, after), s) == Keep(row, s)
  {
    var r := Put(row, due, base, x, after);
    if row == [] || After(due, base, row[0]) > after {
      assert r[1..] == row && [] + Keep(row, s) == Keep(row, s);
    } else {
      KeepOldOfPut(row[1..], due, base, x, after, s);
      assert r[1..] == Put(row[1..], due, base, x, after);
    }
  }

  /** A timer put into two rows stands at the same place among the timers that both have. */
  lemma {:induction false} KeepNewOfPut(row: Row, due: map<Tid, nat>, base: nat, x: Tid, after: nat, s: set<Tid>)
    requires base < TICKS && Sorted(row, due, base) && x !in row
    ensures Keep(Put(row, due, base, x, after), s + {x}) == Put(Keep(row, s), due, base, x, after)
  {
    var r := Put(row, due, base, x, after);
    if row == [] || After(due, base, row[0]) > after {
      assert r[1..] == row;
      KeepSame(row, s, s + {x});
      if row != [] { AllLater(row, due, base, s, after); }
    } else {
      var rest := row[1..];
      SortedRest(row, due, base);
      hide Sorted;
      KeepNewOfPut(rest, due, base, x, after, s);
      assert r[1..] == Put(rest, due, base, x, after);
      var m := Keep(rest, s);
      if row[0] in s { assert ([row[0]] + m)[1..] == m; }
      else {
        assert row[0] != x;
        assert [] + m == m && [] + Put(m, due, base, x, after) == Put(m, due, base, x, after);
      }
    }
  }

  lemma SortedRest(row: Row, due: map<Tid, nat>, base: nat)
    requires base < TICKS && Sorted(row, due, base) && row != []
    ensures Sorted(row[1..], due, base) && forall y <- row[1..] :: After(due, base, row[0]) <= After(due, base, y)
  {
  }

  lemma AllLater(row: Row, due: map<Tid, nat>, base: nat, s: set<Tid>, after: nat)
    requires base < TICKS && Sorted(row, due, base) && row != [] && after < After(due, base, row[0])
    ensures Keep(row, s) == [] || After(due, base, Keep(row, s)[0]) > after
  {
    KeepMembers(row, s);
    var m := Keep(row, s);
    if m != [] {
      assert m[0] in m;
      assert m[0] in row;
    }
  }

  lemma {:induction false} PutMembers(row: Row, due: map<Tid, nat>, base: nat, x: Tid, after: nat)
    requires base < TICKS
    ensures forall y :: y in Put(row, due, base, x, after) <==> y in row || y == x
    ensures Members(Put(row, due, base, x, after)) == Members(row) + {x}
  {
    if row != [] && After(due, base, row[0]) <= after {
      PutMembers(row[1..], due, base, x, after);
    }
  }

  /** A timer put by its time keeps a row sorted. */
  lemma {:induction false} PutSorted(row: Row, due: map<Tid, nat>, base: nat, x: Tid)
    requires base < TICKS && Sorted(row, due, base) && Sequences.Distinct(row) && x !in row
    ensures var r := Put(row, due, base, x, After(due, base, x)); Sorted(r, due, base) && Sequences.Distinct(r)
  {
    var o := After(due, base, x);
    if row != [] {
      SortedRest(row, due, base);
      if After(due, base, row[0]) <= o {
        PutSorted(row[1..], due, base, x);
        PutMembers(row[1..], due, base, x, o);
        SortedCons(row[0], Put(row[1..], due, base, x, o), due, base);
      } else {
        SortedCons(x, row, due, base);
      }
    }
  }

  lemma SortedCons(x: Tid, row: Row, due: map<Tid, nat>, base: nat)
    requires base < TICKS && Sorted(row, due, base) && Sequences.Distinct(row)
    requires forall y <- row :: y != x && After(due, base, x) <= After(due, base, y)
    ensures Sorted([x] + row, due, base) && Sequences.Distinct([x] + row)
  {
  }

  // ---------------------------------------------------------------- all rows, from the shortest one

  /** The last row is sorted, and each other one is an ordered sublist of the next. */
  predicate RowsOk(rows: seq<Row>, due: map<Tid, nat>, base: nat)
    requires base < TICKS
    decreases |rows|
  {
    && |rows| > 0
    && if |rows| == 1 then Sorted(rows[0], due, base) && Sequences.Distinct(rows[0]) && Window(rows[0], due, base)
       else SubRow(rows[0], rows[1]) && RowsOk(rows[1..], due, base)
  }

  function Bottom(rows: seq<Row>): Row
    requires |rows| > 0
  {
    rows[|rows| - 1]
  }

  lemma {:induction false} FirstRow(rows: seq<Row>, due: map<Tid, nat>, base: nat)
    requires base < TICKS && RowsOk(rows, due, base)
    ensures Sorted(rows[0], due, base) && Sequences.Distinct(rows[0]) && Window(rows[0], due, base)
    ensures forall x <- rows[0] :: x in Bottom(rows) && (|rows| > 1 ==> x in rows[1])
    decreases |rows|
  {
    if |rows| > 1 {
      FirstRow(rows[1..], due, base);
      KeepSorted(rows[1], due, base, Members(rows[0]));
      KeepMembers(rows[1], Members(rows[0]));
    }
  }

  function WithoutRows(rows: seq<Row>, x: Tid): (r: seq<Row>)
    ensures |r| == |rows|
    decreases |rows|
  {
    if rows == [] then [] else [Without(rows[0], x)] + WithoutRows(rows[1..], x)
  }

  /** x put into the last n rows. */
  function PutRows(rows: seq<Row>, due: map<Tid, nat>, base: nat, x: Tid, n: nat): (r: seq<Row>)
    requires base < TICKS
    ensures |r| == |rows|
    decreases |rows|
  {
    if rows == [] then []
    else [if |rows| <= n then Put(rows[0], due, base, x, After(due, base, x)) else rows[0]]
         + PutRows(rows[1..], due, base, x, n)
  }

  lemma WithoutMembers(row: Row, x: Tid)
    ensures forall y :: y in Without(row, x) <==> y in row && y != x
    ensures Members(Without(row, x)) == Members(row) - {x}
  {
    KeepMembers(row, Members(row) - {x});
  }

  lemma WithoutSubRow(upper: Row, lower: Row, x: Tid)
    requires SubRow(upper, lower)
    ensures SubRow(Without(upper, x), Without(lower, x))
  {
    var m, n := Members(upper), Members(lower);
    WithoutMembers(upper, x);
    KeepKeep(lower, m, m - {x});
    KeepKeep(lower, n - {x}, m - {x});
    KeepMembers(lower, m);
    assert m * (m - {x}) == (n - {x}) * (m - {x});
  }

  lemma {:induction false} WithoutRowsOk(rows: seq<Row>, due: map<Tid, nat>, base: nat, x: Tid)
    requires base < TICKS && RowsOk(rows, due, base)
    ensures RowsOk(WithoutRows(rows, x), due, base)
    ensures Bottom(WithoutRows(rows, x)) == Without(Bottom(rows), x)
    decreases |rows|
  {
    hide Sorted, Sequences.Distinct, Window, SubRow;
    var r := WithoutRows(rows, x);
    if |rows| == 1 {
      KeepSorted(rows[0], due, base, Members(rows[0]) - {x});
      KeepMembers(rows[0], Members(rows[0]) - {x});
      WindowOfFewer(rows[0], Without(rows[0], x), due, base);
    } else {
      WithoutRowsOk(rows[1..], due, base, x);
      WithoutSubRow(rows[0], rows[1], x);
      assert r[1..] == WithoutRows(rows[1..], x);
      assert r[1] == r[1..][0];
    }
  }

  lemma WindowOfFewer(row: Row, fewer: Row, due: map<Tid, nat>, base: nat)
    requires base < TICKS && Window(row, due, base) && forall x <- fewer :: x in row
    ensures Window(fewer, due, base)
  {
  }

  lemma PutSubRow(upper: Row, lower: Row, due: map<Tid, nat>, base: nat, x: Tid, after: nat)
    requires base < TICKS && SubRow(upper, lower) && Sorted(lower, due, base) && x !in lower
    ensures SubRow(upper, Put(lower, due, base, x, after))
    ensures SubRow(Put(upper, due, base, x, after), Put(lower, due, base, x, after))
  {
    var m := Members(upper);
    KeepMembers(lower, m);
    KeepOldOfPut(lower, due, base, x, after, m);
    KeepNewOfPut(lower, due, base, x, after, m);
    PutMembers(upper, due, base, x, after);
    assert Members(Put(upper, due, base, x, after)) == m + {x};
  }

  lemma {:induction false} PutRowsOk(rows: seq<Row>, due: map<Tid, nat>, base: nat, x: Tid, n: nat)
    requires base < TICKS && RowsOk(rows, due, base) && x !in Bottom(rows) && After(due, base, x) < HALF && n > 0
    ensures RowsOk(PutRows(rows, due, base, x, n), due, base)
    ensures Bottom(PutRows(rows, due, base, x, n)) == Put(Bottom(rows), due, base, x, After(due, base, x))
    decreases |rows|
  {
    hide Sorted, Sequences.Distinct, Window, SubRow, Members, Keep, Put;
    var r, o := PutRows(rows, due, base, x, n), After(due, base, x);
    if |rows| == 1 {
      PutSorted(rows[0], due, base, x);
      PutMembers(rows[0], due, base, x, o);
      WindowOfPut(rows[0], r[0], due, base, x);
    } else {
      PutRowsOk(rows[1..], due, base, x, n);
      FirstRow(rows[1..], due, base);
      PutSubRow(rows[0], rows[1], due, base, x, o);
      assert r[1..] == PutRows(rows[1..], due, base, x, n);
      assert r[1] == r[1..][0];
    }
  }

  lemma WindowOfPut(row: Row, more: Row, due: map<Tid, nat>, base: nat, x: Tid)
    requires base < TICKS && Window(row, due, base) && After(due, base, x) < HALF && forall y <- more :: y in row || y == x
    ensures Window(more, due, base)
  {
  }

  // ---------------------------------------------------------------- the search through the rows

  function IndexOf(row: Row, x: Tid): (k: nat)
    requires x in row
    ensures k < |row| && row[k] == x
  {
    if row[0] == x then 0 else 1 + IndexOf(row[1..], x)
  }

  /** Where the search in the next row begins: behind the timer it stopped at. */
  function NextHead(rows: seq<Row>, k: nat): nat
    requires |rows| > 0 && k <= |rows[0]|
  {
    if k > 0 && |rows| > 1 && rows[0][k - 1] in rows[1] then IndexOf(rows[1], rows[0][k - 1]) + 1 else 0
  }

  /** The places that rt_timer_start finds, row by row. */
  function Heads(rows: seq<Row>, due: map<Tid, nat>, t: nat, h: nat): (ks: seq<nat>)
    requires t < TICKS && (rows == [] || h <= |rows[0]|)
    ensures |ks| == |rows|
    decreases |rows|
  {
    if rows == [] then []
    else var k := Search(rows[0], due, t, h); [k] + Heads(rows[1..], due, t, NextHead(rows, k))
  }

  /** row_head[row_lvl] + 1. */
  function FollowingHead(rows: seq<Row>, i: nat, k: nat): (h: nat)
    requires i < |rows| && k <= |rows[i]|
    ensures i + 1 < |rows| ==> h <= |rows[i + 1]|
  {
    if k > 0 && i + 1 < |rows| && rows[i][k - 1] in rows[i + 1] then IndexOf(rows[i + 1], rows[i][k - 1]) + 1 else 0
  }

  lemma HeadsIs(rows: seq<Row>, due: map<Tid, nat>, t: nat, h: nat)
    requires t < TICKS && rows != [] && h <= |rows[0]|
    ensures var k := Search(rows[0], due, t, h);
            Heads(rows, due, t, h) == [k] + Heads(rows[1..], due, t, NextHead(rows, k))
  {
    hide Search, NextHead;
  }

  lemma HeadsStep(rows: seq<Row>, i: nat, due: map<Tid, nat>, t: nat, h: nat)
    requires t < TICKS && i < |rows| && h <= |rows[i]|
    ensures var k := Search(rows[i], due, t, h);
            && rows[i..] != [] && h <= |rows[i..][0]|
            && (rows[i + 1..] == [] || FollowingHead(rows, i, k) <= |rows[i + 1..][0]|)
            && Heads(rows[i..], due, t, h) == [k] + Heads(rows[i + 1..], due, t, FollowingHead(rows, i, k))
  {
    hide Heads, Search, IndexOf;
    var rest := rows[i..];
    HeadsIs(rest, due, t, h);
    assert rest[0] == rows[i] && rest[1..] == rows[i + 1..] && (i + 1 < |rows| ==> rest[1] == rows[i + 1]);
  }

  lemma AllRows(rows: seq<Row>, due: map<Tid, nat>, t: nat, h: nat)
    requires t < TICKS && (rows == [] || h <= |rows[0]|)
    ensures rows[0..] == rows && Heads(rows[0..], due, t, h) == Heads(rows, due, t, h)
  {
    assert rows[0..] == rows;
  }

  lemma NoHeads(due: map<Tid, nat>, t: nat, h: nat)
    requires t < TICKS
    ensures Heads([], due, t, h) == []
  {
  }

  function InsertAtHeads(rows: seq<Row>, ks: seq<nat>, x: Tid, n: nat): (r: seq<Row>)
    requires |ks| == |rows|
    ensures |r| == |rows|
    decreases |rows|
  {
    if rows == [] then []
    else
      [if |rows| <= n then Inserted(rows[0], ks[0], x) else rows[0]] + InsertAtHeads(rows[1..], ks[1..], x, n)
  }

  /** The skip list refines the plain list: starting each row where the shorter one stopped, the search
      finds the same place that a search of the whole row would. */
  lemma {:induction false} SkippingFindsPlaces(rows: seq<Row>, due: map<Tid, nat>, base: nat, x: Tid, n: nat, h: nat)
    requires base < TICKS && RowsOk(rows, due, base) && After(due, base, x) < HALF
    requires h <= Place(rows[0], due, base, After(due, base, x))
    ensures var ks := Heads(rows, due, TimeOf(due, x), h);
            InsertAtHeads(rows, ks, x, n) == PutRows(rows, due, base, x, n)
    decreases |rows|
  {
    var t, o := TimeOf(due, x), After(due, base, x);
    FirstRow(rows, due, base);
    SearchFindsPlace(rows[0], due, base, t, h);
    PutIsInserted(rows[0], due, base, x, o);
    var k := Place(rows[0], due, base, o);
    var ks := Heads(rows, due, t, h);
    assert ks[1..] == Heads(rows[1..], due, t, NextHead(rows, k));
    if |rows| > 1 {
      NextHeadNotTooFar(rows, due, base, o);
      SkippingFindsPlaces(rows[1..], due, base, x, n, NextHead(rows, k));
    }
  }

  lemma NextHeadNotTooFar(rows: seq<Row>, due: map<Tid, nat>, base: nat, o: nat)
    requires base < TICKS && RowsOk(rows, due, base) && |rows| > 1
    ensures NextHead(rows, Place(rows[0], due, base, o)) <= Place(rows[1], due, base, o)
  {
    FirstRow(rows, due, base);
    FirstRow(rows[1..], due, base);
    PlaceIs(rows[0], due, base, o);
    PlaceIs(rows[1], due, base, o);
  }

  lemma {:induction false} InsertAtHeadsAt(rows: seq<Row>, ks: seq<nat>, x: Tid, n: nat)
    requires |ks| == |rows|
    ensures var r := InsertAtHeads(rows, ks, x, n);
            && |r| == |rows|
            && forall i :: 0 <= i < |r| ==> r[i] == if |rows| - i <= n then Inserted(rows[i], ks[i], x) else rows[i]
    decreases |rows|
  {
    if rows != [] {
      var rest, ls := rows[1..], ks[1..];
      assert forall i :: 1 <= i < |ks| ==> ks[i] == ls[i - 1] && rows[i] == rest[i - 1];
      InsertAtHeadsAt(rest, ls, x, n);
      var r, m := InsertAtHeads(rows, ks, x, n), InsertAtHeads(rest, ls, x, n);
      assert r[1..] == m;
      forall i | 0 <= i < |r|
        ensures r[i] == if |rows| - i <= n then Inserted(rows[i], ks[i], x) else rows[i]
      {
        if i > 0 { assert r[i] == m[i - 1]; }
      }
    }
  }

  lemma {:induction false} WithoutRowsAt(rows: seq<Row>, x: Tid, i: nat)
    requires i < |rows|
    ensures WithoutRows(rows, x)[i] == Without(rows[i], x)
    decreases |rows|
  {
    if i > 0 { WithoutRowsAt(rows[1..], x, i - 1); }
  }

  /** Into how many rows a timer goes, by the bits of the counter random_nr. RT_TIMER_SKIP_LIST_MASK is 3. */
  function Height(tst: nat, levels: nat): (n: nat)
    requires levels > 0
    ensures 1 <= n <= levels
    decreases levels
  {
    if levels == 1 || tst % 4 != 0 then 1 else 1 + Height(tst / 4, levels - 1)
  }

  function Power4(k: nat): nat { if k == 0 then 1 else 4 * Power4(k - 1) }

  /** A timer goes into more than k rows exactly if the last k pairs of bits of the counter are 0: with every fourth
      start into the second row, with every sixteenth into the third. */
  lemma {:induction false} HeightIff(tst: nat, levels: nat, k: nat)
    requires k < levels
    ensures Power4(k) > 0 && (Height(tst, levels) > k <==> tst % Power4(k) == 0)
    decreases k
  {
    if k > 0 {
      HeightIff(tst / 4, levels - 1, k - 1);
      LastPair(tst, Power4(k - 1));
    }
  }

  lemma LastPair(n: nat, p: nat)
    requires p > 0
    ensures n % (4 * p) == 0 <==> n % 4 == 0 && n / 4 % p == 0
  {
    var q := n / 4;
    var r := 4 * (q % p) + n % 4;
    Division.Euclid(n, 4);
    Division.Euclid(q, p);
    assert n == (q / p) * (4 * p) + r;
    Division.QuotientIs(n, 4 * p, q / p, r);
  }

  /** What is due for a timer that is in no row does not matter. */
  lemma {:induction false} DueElsewhere(rows: seq<Row>, due: map<Tid, nat>, base: nat, x: Tid, t: nat)
    requires base < TICKS && RowsOk(rows, due, base) && x !in Bottom(rows)
    ensures RowsOk(rows, due[x := t], base)
    decreases |rows|
  {
    if |rows| > 1 { DueElsewhere(rows[1..], due, base, x, t); }
    else {
      assert forall i :: 0 <= i < |rows[0]| ==> After(due[x := t], base, rows[0][i]) == After(due, base, rows[0][i]);
    }
  }

  // ---------------------------------------------------------------- what is due

  /** The row begins with the timers `ahead`, and those are the ones that time out no later than o after
      the base. */
  predicate Split(row: Row, due: map<Tid, nat>, base: nat, o: nat, ahead: Row)
    requires base < TICKS
  {
    ahead <= row && forall i :: 0 <= i < |row| ==> (After(due, base, row[i]) <= o <==> i < |ahead|)
  }

  ghost predicate SameTimes(d0: map<Tid, nat>, due: map<Tid, nat>, but: Row) {
    forall x :: x !in but ==> TimeOf(due, x) == TimeOf(d0, x)
  }

  /** Of the active timers a0 those that fired and are not periodic are left out, and those that fired
      and are periodic have a new time. */
  ghost predicate Refired(active: set<Tid>, a0: set<Tid>, fired: Row, periodic: set<Tid>,
                          initTick: map<Tid, nat>, due: map<Tid, nat>, now: nat)
  {
    && now < TICKS
    && (forall x :: x in active <==> x in a0 && (x in fired ==> x in periodic))
    && (forall x <- active :: x in fired ==> x in initTick && initTick[x] < TICKS && x in due && due[x] == Plus(now, initTick[x]))
  }

  lemma RefiredStep(d0: map<Tid, nat>, d1: map<Tid, nat>, due: map<Tid, nat>, a0: set<Tid>, a1: set<Tid>, active: set<Tid>,
                    fired: Row, x: Tid, periodic: set<Tid>, initTick: map<Tid, nat>, now: nat)
    requires SameTimes(d0, d1, fired) && Refired(a1, a0, fired, periodic, initTick, d1, now)
    requires x in a1 && active == a1 - (if x in periodic then {} else {x})
    requires x in periodic ==> x in initTick && initTick[x] < TICKS
    requires now < TICKS && due == if x in periodic && x in initTick && initTick[x] < TICKS then d1[x := Plus(now, initTick[x])] else d1
    ensures SameTimes(d0, due, fired + [x]) && Refired(active, a0, fired + [x], periodic, initTick, due, now)
  {
    forall y | y !in fired + [x]
      ensures TimeOf(due, y) == TimeOf(d0, y)
    {
      assert TimeOf(d1, y) == TimeOf(d0, y);
    }
  }

  lemma NothingFired(due: map<Tid, nat>, active: set<Tid>, periodic: set<Tid>, initTick: map<Tid, nat>, now: nat)
    requires now < TICKS
    ensures SameTimes(due, due, []) && Refired(active, active, [], periodic, initTick, due, now)
  {
  }

  lemma {:induction false} BottomFacts(rows: seq<Row>, due: map<Tid, nat>, base: nat)
    requires base < TICKS && RowsOk(rows, due, base)
    ensures |rows| > 0 && Sorted(Bottom(rows), due, base) && Sequences.Distinct(Bottom(rows)) && Window(Bottom(rows), due, base)
    ensures forall x :: x in Members(Bottom(rows)) <==> x in Bottom(rows)
    decreases |rows|
  {
    if |rows| > 1 { BottomFacts(rows[1..], due, base); }
  }

  lemma FirstIsDue(row: Row, due: map<Tid, nat>, base: nat, o: nat, ahead: Row, now: nat)
    requires base < TICKS && now < TICKS && row != [] && Window(row, due, base) && Split(row, due, base, o, ahead)
    requires o == Minus(now, base) < HALF
    ensures Minus(now, TimeOf(due, row[0])) < HALF <==> ahead != []
    ensures ahead != [] ==> row[0] == ahead[0]
  {
    assert row[0] in row;
    Compare(base, now, TimeOf(due, row[0]));
  }

  lemma FiredAreDue(row: Row, due: map<Tid, nat>, base: nat, now: nat)
    requires base < TICKS && now < TICKS && Sorted(row, due, base) && Window(row, due, base) && Minus(now, base) < HALF
    ensures var k := Place(row, due, base, Minus(now, base));
            && (forall x <- row :: x in row[..k] <==> Minus(now, TimeOf(due, x)) < HALF)
            && Split(row, due, base, Minus(now, base), row[..k])
  {
    var o := Minus(now, base);
    var k := Place(row, due, base, o);
    PlaceIs(row, due, base, o);
    forall x | x in row
      ensures x in row[..k] <==> Minus(now, TimeOf(due, x)) < HALF
    {
      var i :| 0 <= i < |row| && row[i] == x;
      Compare(base, now, TimeOf(due, x));
      if i < k { assert row[..k][i] == x; }
    }
  }

  lemma NoneDue(row: Row, due: map<Tid, nat>, base: nat, now: nat)
    requires base < TICKS && now < TICKS && Minus(now, base) < HALF && Window(row, due, base)
    requires Split(row, due, base, Minus(now, base), [])
    ensures forall x <- row :: Minus(now, TimeOf(due, x)) >= HALF
  {
    forall x | x in row
      ensures Minus(now, TimeOf(due, x)) >= HALF
    {
      Compare(base, now, TimeOf(due, x));
    }
  }

  lemma WithoutMissing(row: Row, x: Tid)
    requires x !in row
    ensures Without(row, x) == row
  {
    KeepAll(row);
    KeepSame(row, Members(row), Members(row) - {x});
  }

  lemma WithoutFirst(row: Row)
    requires Sequences.Distinct(row) && row != []
    ensures Without(row, row[0]) == row[1..] && row[0] !in row[1..]
  {
    var x, rest := row[0], row[1..];
    WithoutMissing(rest, x);
    KeepSame(rest, Members(row) - {x}, Members(rest) - {x});
    assert [] + Keep(rest, Members(row) - {x}) == Keep(rest, Members(row) - {x});
  }

  lemma LaterBy(now: nat, n: nat, base: nat)
    requires now < TICKS && base < TICKS && Minus(now, base) + n < HALF
    ensures n < HALF && Minus(Plus(now, n), base) == Minus(now, base) + n
  {
  }

  lemma AheadFits(row: Row, due: map<Tid, nat>, base: nat, o: nat, ahead: Row)
    requires base < TICKS && Split(row, due, base, o, ahead)
    ensures |ahead| <= |row|
  {
  }

  /** The rest of a split row, after its first timer has gone. */
  lemma SplitRest(row: Row, due: map<Tid, nat>, base: nat, o: nat, ahead: Row)
    requires base < TICKS && Split(row, due, base, o, ahead) && ahead != []
    ensures row != [] && Split(row[1..], due, base, o, ahead[1..])
  {
  }

  /** A timer with a later time goes behind those that are due. */
  lemma {:induction false} PutBehind(row: Row, d1: map<Tid, nat>, due: map<Tid, nat>, base: nat, x: Tid, o: nat, ahead: Row)
    requires base < TICKS && Split(row, d1, base, o, ahead) && After(due, base, x) > o
    requires forall y <- row :: TimeOf(due, y) == TimeOf(d1, y)
    ensures Split(Put(row, due, base, x, After(due, base, x)), due, base, o, ahead)
  {
    var a := After(due, base, x);
    var r := Put(row, due, base, x, a);
    if row == [] || After(due, base, row[0]) > a {
      assert ahead == [] by { assert row != [] ==> row[0] in row; }
      assert forall i :: 0 <= i < |row| ==> r[i + 1] == row[i] && row[i] in row;
    } else {
      var rest := row[1..];
      assert row[0] in row;
      if ahead == [] {
        assert Split(rest, d1, base, o, []);
        PutBehind(rest, d1, due, base, x, o, []);
      } else {
        SplitRest(row, d1, base, o, ahead);
        PutBehind(rest, d1, due, base, x, o, ahead[1..]);
      }
      assert r[1..] == Put(rest, due, base, x, a);
    }
  }

  function EmptyRows(levels: nat): (rows: seq<Row>)
    ensures |rows| == levels
  {
    if levels == 0 then [] else [[]] + EmptyRows(levels - 1)
  }

  lemma {:induction false} EmptyRowsOk(levels: nat, base: nat)
    requires levels > 0 && base < TICKS
    ensures RowsOk(EmptyRows(levels), map[], base) && Bottom(EmptyRows(levels)) == []
  {
    var rows := EmptyRows(levels);
    if levels > 1 {
      EmptyRowsOk(levels - 1, base);
      assert rows[1..] == EmptyRows(levels - 1);
      assert rows[1] == EmptyRows(levels - 1)[0] == [];
    }
  }

  // ---------------------------------------------------------------- the base moves on

  /** Seen from a later tick that no timer of the row lies before, the row is the same. */
  lemma SortedLater(row: Row, due: map<Tid, nat>, base: nat, later: nat)
    requires base < TICKS && later < TICKS && Sorted(row, due, base) && Window(row, due, base)
    requires forall x <- row :: Minus(later, base) <= After(due, base, x)
    ensures Sorted(row, due, later) && Window(row, due, later)
    ensures forall x <- row :: After(due, later, x) == After(due, base, x) - Minus(later, base)
  {
    forall x | x in row
      ensures After(due, later, x) == After(due, base, x) - Minus(later, base)
    {
      MinusLater(base, later, TimeOf(due, x));
    }
    assert forall i :: 0 <= i < |row| ==> row[i] in row;
  }

  lemma MinusLater(base: nat, later: nat, t: nat)
    requires base < TICKS && later < TICKS && t < TICKS && Minus(later, base) <= Minus(t, base)
    ensures Minus(t, later) == Minus(t, base) - Minus(later, base)
  {
  }

  lemma {:induction false} RowsOkLater(rows: seq<Row>, due: map<Tid, nat>, base: nat, later: nat)
    requires base < TICKS && later < TICKS && RowsOk(rows, due, base)
    requires forall x <- Bottom(rows) :: Minus(later, base) <= After(due, base, x)
    ensures RowsOk(rows, due, later)
    decreases |rows|
  {
    hide Sorted, Window, SubRow, After;
    if |rows| == 1 {
      SortedLater(rows[0], due, base, later);
    } else {
      RowsOkLater(rows[1..], due, base, later);
    }
  }

  /** And seen from an earlier one, if they all lie in its window. */
  lemma {:induction false} RowsOkEarlier(rows: seq<Row>, due: map<Tid, nat>, base: nat, later: nat)
    requires base < TICKS && later < TICKS && RowsOk(rows, due, later)
    requires forall x <- Bottom(rows) :: Minus(later, base) + After(due, later, x) < HALF
    ensures RowsOk(rows, due, base)
    decreases |rows|
  {
    if |rows| == 1 {
      var row := rows[0];
      forall x | x in row
        ensures After(due, base, x) == Minus(later, base) + After(due, later, x)
      {
        MinusEarlier(base, later, TimeOf(due, x));
      }
      assert forall i :: 0 <= i < |row| ==> row[i] in row;
    } else {
      hide Sorted, Window, SubRow, After;
      RowsOkEarlier(rows[1..], due, base, later);
    }
  }

  lemma MinusEarlier(base: nat, later: nat, t: nat)
    requires base < TICKS && later < TICKS && t < TICKS && Minus(later, base) + Minus(t, later) < HALF
    ensures Minus(t, base) == Minus(later, base) + Minus(t, later)
  {
  }

  /** With nothing due, the current tick is as good a base. */
  lemma NoneDueMovesBase(rows: seq<Row>, due: map<Tid, nat>, base: nat, now: nat)
    requires base < TICKS && now < TICKS && RowsOk(rows, due, base) && Minus(now, base) < HALF
    requires forall x <- Bottom(rows) :: Minus(now, TimeOf(due, x)) >= HALF
    ensures RowsOk(rows, due, now)
  {
    hide RowsOk, Sorted, SubRow;
    BottomFacts(rows, due, base);
    forall x | x in Bottom(rows)
      ensures Minus(now, base) <= After(due, base, x)
    {
      Compare(base, now, TimeOf(due, x));
    }
    RowsOkLater(rows, due, base, now);
  }

  // ---------------------------------------------------------------- the operations

  /** The rows, the time-out of each timer, the active timers, and the counter random_nr. */
  datatype State = State(rows: seq<Row>, due: map<Tid, nat>, active: set<Tid>, randomNr: nat)

  function NextNr(n: nat): nat { if n + 1 == TICKS then 0 else n + 1 }

  /** _rt_timer_remove, and the flag: the first section of rt_timer_start. */
  function Removed(s: State, x: Tid): (r: State)
    ensures |r.rows| == |s.rows|
  {
    s.(rows := WithoutRows(s.rows, x), active := s.active - {x})
  }

  /** The second section of rt_timer_start, with the time-out t. */
  function Linked(s: State, x: Tid, t: nat): (r: State)
    requires |s.rows| > 0 && t < TICKS
    ensures |r.rows| == |s.rows|
  {
    var due, nr := s.due[x := t], NextNr(s.randomNr);
    State(InsertAtHeads(s.rows, Heads(s.rows, due, t, 0), x, Height(nr, |s.rows|)), due, s.active + {x}, nr)
  }

  /** rt_timer_start, with the time-out t, where nothing comes between its sections. */
  function Started(s: State, x: Tid, t: nat): (r: State)
    requires |s.rows| > 0 && t < TICKS
    ensures |r.rows| == |s.rows|
  {
    Linked(Removed(s, x), x, t)
  }

  /** rt_timer_stop. */
  function Stopped(s: State, x: Tid): State {
    if x in s.active then Removed(s, x) else s
  }

  /** What rt_timer_check does for the first timer, if it is due. */
  function Fired(s: State, now: nat, initTick: map<Tid, nat>, periodic: set<Tid>): (r: State)
    requires |s.rows| > 0 && now < TICKS
    ensures |r.rows| == |s.rows|
  {
    if Bottom(s.rows) == [] then s
    else
      var x := Bottom(s.rows)[0];
      var r := Removed(s, x);
      if x in periodic && x in initTick && initTick[x] < TICKS then Started(r, x, Plus(now, initTick[x])) else r
  }

  function FiredMany(s: State, n: nat, now: nat, initTick: map<Tid, nat>, periodic: set<Tid>): (r: State)
    requires |s.rows| > 0 && now < TICKS
    ensures |r.rows| == |s.rows|
    decreases n
  {
    if n == 0 then s else FiredMany(Fired(s, now, initTick, periodic), n - 1, now, initTick, periodic)
  }

  /** How many timers the loop of rt_timer_check finds due: it stops at the first that is not. */
  function HowManyDue(row: Row, due: map<Tid, nat>, now: nat): (n: nat)
    requires now < TICKS
    ensures n <= |row|
  {
    if row == [] || Minus(now, TimeOf(due, row[0])) >= HALF then 0 else 1 + HowManyDue(row[1..], due, now)
  }

  /** rt_timer_check. */
  function Checked(s: State, now: nat, initTick: map<Tid, nat>, periodic: set<Tid>): (r: State)
    requires |s.rows| > 0 && now < TICKS
    ensures |r.rows| == |s.rows|
  {
    FiredMany(s, HowManyDue(Bottom(s.rows), s.due, now), now, initTick, periodic)
  }

  /** The rows are in order, seen from a tick that no active timer lies before. */
  ghost predicate Ok(s: State, base: nat) {
    base < TICKS && |s.rows| > 0 && RowsOk(s.rows, s.due, base) && s.active == Members(Bottom(s.rows))
  }

  lemma RemovedKeeps(s: State, x: Tid, base: nat)
    requires Ok(s, base)
    ensures Ok(Removed(s, x), base) && Bottom(Removed(s, x).rows) == Without(Bottom(s.rows), x)
  {
    hide Sorted, Sequences.Distinct, Window, SubRow, RowsOk, Keep, WithoutRows, Without, Members;
    WithoutRowsOk(s.rows, s.due, base, x);
    WithoutMembers(Bottom(s.rows), x);
  }

  lemma LinkedKeeps(s: State, x: Tid, t: nat, base: nat)
    requires Ok(s, base) && x !in Bottom(s.rows) && t < TICKS && Minus(t, base) < HALF
    ensures var r := Linked(s, x, t);
            Ok(r, base) && Bottom(r.rows) == Put(Bottom(s.rows), r.due, base, x, After(r.due, base, x))
  {
    hide Sorted, Sequences.Distinct, Window, SubRow, RowsOk, Keep, Put, PutRows, InsertAtHeads, Heads, Height, Members;
    DueElsewhere(s.rows, s.due, base, x, t);
    var due := s.due[x := t];
    var n := Height(NextNr(s.randomNr), |s.rows|);
    SkippingFindsPlaces(s.rows, due, base, x, n, 0);
    PutRowsOk(s.rows, due, base, x, n);
    PutMembers(Bottom(s.rows), due, base, x, After(due, base, x));
  }

  lemma StartedKeeps(s: State, x: Tid, t: nat, base: nat)
    requires Ok(s, base) && t < TICKS && Minus(t, base) < HALF
    ensures var r := Started(s, x, t);
            && Ok(r, base)
            && Bottom(r.rows) == Put(Without(Bottom(s.rows), x), r.due, base, x, After(r.due, base, x))
  {
    hide RowsOk, Keep, Put, WithoutRows, Without, Members, Linked;
    RemovedKeeps(s, x, base);
    WithoutMembers(Bottom(s.rows), x);
    LinkedKeeps(Removed(s, x), x, t, base);
  }

  /** Wherever it is put, the timer is in the last row. */
  lemma LinkedHas(s: State, x: Tid, t: nat)
    requires |s.rows| > 0 && t < TICKS
    ensures var row := Bottom(Linked(s, x, t).rows);
            x in row && (x in Bottom(s.rows) ==> !Sequences.Distinct(row))
  {
    hide Heads, Height, InsertAtHeads, Inserted;
    var due, n := s.due[x := t], Height(NextNr(s.randomNr), |s.rows|);
    var ks := Heads(s.rows, due, t, 0);
    InsertAtHeadsAt(s.rows, ks, x, n);
    InsertedHas(Bottom(s.rows), ks[|ks| - 1], x);
  }

  lemma InsertedHas(row: Row, k: nat, x: Tid)
    ensures x in Inserted(row, k, x) && (x in row ==> !Sequences.Distinct(Inserted(row, k, x)))
  {
    var r, j := Inserted(row, k, x), if k <= |row| then k else |row|;
    assert r[j] == x;
    if x in row {
      var i :| 0 <= i < |row| && row[i] == x;
      assert r[if i < j then i else i + 1] == x;
    }
  }

  /** The rows that a timer is put into: the last one, and row i if the last pairs of bits of the counter of starts, as
      many as there are rows below it, are 0. */
  lemma LinkedRows(s: State, x: Tid, t: nat, i: nat)
    requires i < |s.rows| && t < TICKS && s.randomNr < TICKS && x !in s.rows[i]
    ensures Power4(|s.rows| - 1 - i) > 0
    ensures x in Linked(s, x, t).rows[i] <==> (s.randomNr + 1) % TICKS % Power4(|s.rows| - 1 - i) == 0
    ensures Linked(s, x, t).randomNr == (s.randomNr + 1) % TICKS
  {
    hide Heads, Height, InsertAtHeads, Inserted;
    var due, n := s.due[x := t], Height(NextNr(s.randomNr), |s.rows|);
    var ks := Heads(s.rows, due, t, 0);
    InsertAtHeadsAt(s.rows, ks, x, n);
    InsertedHas(s.rows[i], ks[i], x);
    HeightIff(NextNr(s.randomNr), |s.rows|, |s.rows| - 1 - i);
  }

  /** Exactly when the rows that are in order seen from `now` stay so: the timer is in no row, and its time-out
      is not past. */
  lemma LinkedIff(s: State, x: Tid, t: nat, now: nat)
    requires Ok(s, now) && t < TICKS
    ensures Ok(Linked(s, x, t), now) <==> x !in s.active && Minus(t, now) < HALF
  {
    hide RowsOk, Linked;
    var r := Linked(s, x, t);
    OkWindow(s, now);
    if x !in s.active && Minus(t, now) < HALF { LinkedKeeps(s, x, t, now); }
    if Ok(r, now) {
      LinkedHas(s, x, t);
      BottomFacts(r.rows, r.due, now);
      LinkedDue(s, x, t);
      assert After(r.due, now, x) == Minus(t, now);
    }
  }

  lemma LinkedDue(s: State, x: Tid, t: nat)
    requires |s.rows| > 0 && t < TICKS
    ensures Linked(s, x, t).due == s.due[x := t] && Linked(s, x, t).active == s.active + {x}
  {
  }

  lemma StartedIff(s: State, x: Tid, t: nat, now: nat)
    requires Ok(s, now) && t < TICKS
    ensures Ok(Started(s, x, t), now) <==> Minus(t, now) < HALF
  {
    hide RowsOk, Linked, Ok;
    RemovedKeeps(s, x, now);
    LinkedIff(Removed(s, x), x, t, now);
  }

  /** A periodic timer that is due, and starts again, does so within half the range after it was due. */
  ghost predicate Punctual(s: State, now: nat, initTick: map<Tid, nat>, periodic: set<Tid>) {
    now < TICKS && forall x <- s.active :: x in periodic ==>
      x in initTick && 0 < initTick[x] < HALF
      && (Minus(now, TimeOf(s.due, x)) < HALF ==> Minus(now, TimeOf(s.due, x)) + initTick[x] < HALF)
  }

  lemma SplitLater(row: Row, due: map<Tid, nat>, base: nat, later: nat, now: nat, ahead: Row)
    requires base < TICKS && later < TICKS && now < TICKS && Window(row, due, base)
    requires Split(row, due, base, Minus(now, base), ahead) && Minus(later, base) <= Minus(now, base)
    requires forall x <- row :: Minus(later, base) <= After(due, base, x)
    ensures Minus(now, later) == Minus(now, base) - Minus(later, base)
    ensures Split(row, due, later, Minus(now, later), ahead)
  {
    MinusLater(base, later, now);
    forall i | 0 <= i < |row|
      ensures After(due, later, row[i]) == After(due, base, row[i]) - Minus(later, base)
    {
      assert row[i] in row;
      MinusLater(base, later, TimeOf(due, row[i]));
    }
  }

  /** The base moves to the time-out of the first timer. */
  lemma FirstAsBase(s: State, base: nat, now: nat, ahead: Row)
    requires Ok(s, base) && now < TICKS && Minus(now, base) < HALF && ahead != []
    requires Split(Bottom(s.rows), s.due, base, Minus(now, base), ahead)
    ensures Bottom(s.rows) != [] && Bottom(s.rows)[0] == ahead[0] && ahead[0] in s.active
    ensures var b := TimeOf(s.due, ahead[0]);
            Ok(s, b) && Minus(now, b) < HALF && Split(Bottom(s.rows), s.due, b, Minus(now, b), ahead)
  {
    hide RowsOk, SubRow, Members, Sequences.Distinct;
    var row := Bottom(s.rows);
    BottomFacts(s.rows, s.due, base);
    FirstIsDue(row, s.due, base, Minus(now, base), ahead, now) by { SplitRest(row, s.due, base, Minus(now, base), ahead); }
    var b := TimeOf(s.due, row[0]);
    FirstIsFirst(row, s.due, base);
    SplitLater(row, s.due, base, b, now, ahead);
    RowsOkLater(s.rows, s.due, base, b);
  }

  lemma FirstIsFirst(row: Row, due: map<Tid, nat>, base: nat)
    requires base < TICKS && row != [] && Sorted(row, due, base)
    ensures forall x <- row :: After(due, base, row[0]) <= After(due, base, x)
  {
  }

  lemma FiredKeeps(s: State, base: nat, now: nat, ahead: Row, initTick: map<Tid, nat>, periodic: set<Tid>)
    requires Ok(s, base) && now < TICKS && Minus(now, base) < HALF && ahead != [] && Punctual(s, now, initTick, periodic)
    requires Split(Bottom(s.rows), s.due, base, Minus(now, base), ahead)
    ensures Bottom(s.rows) != [] && Bottom(s.rows)[0] == ahead[0] && ahead[0] in s.active
    ensures var b, r, x := TimeOf(s.due, ahead[0]), Fired(s, now, initTick, periodic), ahead[0];
            && Ok(r, b) && Minus(now, b) < HALF && Split(Bottom(r.rows), r.due, b, Minus(now, b), ahead[1..])
            && Punctual(r, now, initTick, periodic)
            && r.active == s.active - (if x in periodic then {} else {x})
            && r.due == (if x in periodic && x in initTick && initTick[x] < TICKS then s.due[x := Plus(now, initTick[x])] else s.due)
  {
    hide Sorted, Sequences.Distinct, Window, SubRow, RowsOk, Keep, Put, WithoutRows, Without, Members, Split, InsertAtHeads, Heads, Height;
    FirstAsBase(s, base, now, ahead);
    var x, row := ahead[0], Bottom(s.rows);
    var b := TimeOf(s.due, x);
    var o, rest, r := Minus(now, b), row[1..], Removed(s, x);
    BottomFacts(s.rows, s.due, b);
    SplitRest(row, s.due, b, o, ahead);
    RemovedKeeps(s, x, b);
    WithoutFirst(row);
    if x in periodic {
      var t := Plus(now, initTick[x]);
      LaterBy(now, initTick[x], b);
      StartedKeeps(r, x, t, b);
      WithoutMissing(rest, x);
      PutBehind(rest, s.due, s.due[x := t], b, x, o, ahead[1..]);
      NotYetDue(now, initTick[x]);
    }
  }

  lemma NotYetDue(now: nat, n: nat)
    requires now < TICKS && 0 < n < HALF
    ensures Minus(now, Plus(now, n)) >= HALF && Minus(Plus(now, n), now) == n
  {
  }

  /** Firing all timers that are due, from s0 on, after those in `fired`. */
  lemma {:induction false} FiredManyKeeps(s0: State, fired: Row, s: State, base: nat, now: nat, ahead: Row,
                                          initTick: map<Tid, nat>, periodic: set<Tid>) returns (b: nat)
    requires Ok(s, base) && now < TICKS && Minus(now, base) < HALF && Punctual(s, now, initTick, periodic)
    requires Split(Bottom(s.rows), s.due, base, Minus(now, base), ahead)
    requires SameTimes(s0.due, s.due, fired) && Refired(s.active, s0.active, fired, periodic, initTick, s.due, now)
    ensures var r := FiredMany(s, |ahead|, now, initTick, periodic);
            && Ok(r, b) && Minus(now, b) < HALF && Split(Bottom(r.rows), r.due, b, Minus(now, b), [])
            && SameTimes(s0.due, r.due, fired + ahead)
            && Refired(r.active, s0.active, fired + ahead, periodic, initTick, r.due, now)
    decreases |ahead|
  {
    hide RowsOk, Members, Split, SameTimes, Refired, Fired;
    if ahead == [] {
      b := base;
      assert fired + ahead == fired;
    } else {
      var x, r := ahead[0], Fired(s, now, initTick, periodic);
      FiredKeeps(s, base, now, ahead, initTick, periodic);
      RefiredStep(s0.due, s.due, r.due, s0.active, s.active, r.active, fired, x, periodic, initTick, now);
      b := FiredManyKeeps(s0, fired + [x], r, TimeOf(s.due, x), now, ahead[1..], initTick, periodic);
      assert fired + [x] + ahead[1..] == fired + ahead;
    }
  }

  lemma {:induction false} DueCount(row: Row, due: map<Tid, nat>, base: nat, now: nat, ahead: Row)
    requires base < TICKS && now < TICKS && Minus(now, base) < HALF && Window(row, due, base)
    requires Split(row, due, base, Minus(now, base), ahead)
    ensures HowManyDue(row, due, now) == |ahead| <= |row|
  {
    if row != [] {
      var o := Minus(now, base);
      assert row[0] in row;
      Compare(base, now, TimeOf(due, row[0]));
      var less := if ahead == [] then [] else ahead[1..];
      assert Split(row[1..], due, base, o, less);
      DueCount(row[1..], due, base, now, less);
    }
  }

  /** rt_timer_check, seen from any tick that no active timer lies before: the due timers fire, in their
      order, and afterwards none is due, so that the window begins at the current tick. */
  lemma CheckedKeeps(s: State, base: nat, now: nat, initTick: map<Tid, nat>, periodic: set<Tid>)
    requires Ok(s, base) && now < TICKS && Minus(now, base) < HALF && Punctual(s, now, initTick, periodic)
    ensures var r, row, n := Checked(s, now, initTick, periodic), Bottom(s.rows), HowManyDue(Bottom(s.rows), s.due, now);
            && n <= |row|
            && (forall x <- row :: x in row[..n] <==> Minus(now, TimeOf(s.due, x)) < HALF)
            && Ok(r, now) && (forall x <- Bottom(r.rows) :: Minus(now, TimeOf(r.due, x)) >= HALF)
            && Refired(r.active, s.active, row[..n], periodic, initTick, r.due, now) && SameTimes(s.due, r.due, row[..n])
  {
    hide Sorted, Sequences.Distinct, SubRow, RowsOk, Members, Split, SameTimes, Refired, Place, FiredMany, Window, HowManyDue, Punctual;
    var row, o := Bottom(s.rows), Minus(now, base);
    BottomFacts(s.rows, s.due, base);
    FiredAreDue(row, s.due, base, now);
    var k := Place(row, s.due, base, o);
    DueCount(row, s.due, base, now, row[..k]);
    NothingFired(s.due, s.active, periodic, initTick, now);
    var b := FiredManyKeeps(s, [], s, base, now, row[..k], initTick, periodic);
    assert [] + row[..k] == row[..k];
    var r := Checked(s, now, initTick, periodic);
    BottomFacts(r.rows, r.due, b);
    NoneDue(Bottom(r.rows), r.due, b, now);
    NoneDueMovesBase(r.rows, r.due, b, now);
  }

  lemma CheckedIs(s: State, now: nat, initTick: map<Tid, nat>, periodic: set<Tid>)
    requires |s.rows| > 0 && now < TICKS
    ensures Checked(s, now, initTick, periodic)
            == FiredMany(s, HowManyDue(Bottom(s.rows), s.due, now), now, initTick, periodic)
  {
  }

  lemma FiredManyIs(s: State, n: nat, now: nat, initTick: map<Tid, nat>, periodic: set<Tid>)
    requires |s.rows| > 0 && now < TICKS
    ensures FiredMany(s, n, now, initTick, periodic)
            == if n == 0 then s else FiredMany(Fired(s, now, initTick, periodic), n - 1, now, initTick, periodic)
  {
  }

  /** If no periodic timer starts again beyond the window, the old base will still do. */
  lemma CheckedKeepsBase(s: State, base: nat, now: nat, initTick: map<Tid, nat>, periodic: set<Tid>)
    requires Ok(s, base) && now < TICKS && Minus(now, base) < HALF && Punctual(s, now, initTick, periodic)
    requires forall x <- s.active :: x in periodic && x in initTick ==> Minus(now, base) + initTick[x] < HALF
    ensures Ok(Checked(s, now, initTick, periodic), base)
  {
    hide RowsOk, Members, Checked, HowManyDue;
    CheckedKeeps(s, base, now, initTick, periodic);
    var r := Checked(s, now, initTick, periodic);
    OkWindow(s, base);
    OkWindow(r, now);
    forall x | x in Bottom(r.rows)
      ensures Minus(now, base) + After(r.due, now, x) < HALF
    {
      assert x in r.active;
      if TimeOf(r.due, x) == TimeOf(s.due, x) {
        assert After(s.due, base, x) < HALF;
        Compare(base, now, TimeOf(s.due, x));
        MinusLater(base, now, TimeOf(s.due, x));
      } else {
        NotYetDue(now, initTick[x]);
      }
    }
    RowsOkEarlier(r.rows, r.due, base, now);
  }

  // ---------------------------------------------------------------- all runs

  type Tick = t: nat | t < TICKS

  /** A call of rt_timer_start that has read the tick and not yet inserted its timer: the time-out, and for
      how many ticks it has waited. */
  datatype Call = Call(timeout: Tick, waited: nat)

  /** The timers at the tick `now`, and the calls of rt_timer_start that are under way. */
  datatype Clock = Clock(s: State, now: Tick, calls: map<Tid, Call>)

  /** rt_timer_start is two steps. A tick can come between them, and so can anything else. */
  datatype Step = DoTick | DoRead(x: Tid) | DoInsert(x: Tid) | DoStop(x: Tid)

  /** The periods are those that rt_timer_start accepts, and a periodic timer has one. */
  predicate Periods(initTick: map<Tid, nat>, periodic: set<Tid>) {
    (forall x <- initTick :: initTick[x] < HALF) && forall x <- periodic :: x in initTick && initTick[x] > 0
  }

  function OneTickOlder(calls: map<Tid, Call>): map<Tid, Call> {
    map x <- calls :: Call(calls[x].timeout, calls[x].waited + 1)
  }

  /** A tick is followed by rt_timer_check, all of it with interrupts disabled. DoRead removes the timer and reads
      the tick, DoInsert inserts the timer; no timer is started by two callers at once. A stop tests the flag
      before its section: should the timer fire in between, there is nothing left to remove. */
  function Apply(c: Clock, step: Step, initTick: map<Tid, nat>, periodic: set<Tid>): (d: Clock)
    requires |c.s.rows| > 0 && Periods(initTick, periodic)
    ensures |d.s.rows| == |c.s.rows|
  {
    match step
    case DoTick => var now := Plus(c.now, 1); Clock(Checked(c.s, now, initTick, periodic), now, OneTickOlder(c.calls))
    case DoRead(x) =>
      if x in initTick && x !in c.calls then
        c.(s := Removed(c.s, x), calls := c.calls[x := Call(Plus(c.now, initTick[x]), 0)])
      else c
    case DoInsert(x) =>
      if x in c.calls then c.(s := Linked(c.s, x, c.calls[x].timeout), calls := c.calls - {x}) else c
    case DoStop(x) => c.(s := Stopped(c.s, x))
  }

  function Ran(c: Clock, steps: seq<Step>, initTick: map<Tid, nat>, periodic: set<Tid>): (d: Clock)
    requires |c.s.rows| > 0 && Periods(initTick, periodic)
    ensures |d.s.rows| == |c.s.rows|
    decreases |steps|
  {
    if steps == [] then c else Ran(Apply(c, steps[0], initTick, periodic), steps[1..], initTick, periodic)
  }

  /** A timer is not inserted after its time is over. One that is periodic, and has the longest period there
      is, is not inserted in the very tick that it is due in either. */
  predicate InTime(c: Clock, step: Step, initTick: map<Tid, nat>, periodic: set<Tid>) {
    step.DoInsert? && step.x in c.calls && step.x in initTick ==>
      var n, w := initTick[step.x], c.calls[step.x].waited;
      w <= n && (step.x in periodic && w == n ==> n + 1 < HALF)
  }

  predicate RunInTime(c: Clock, steps: seq<Step>, initTick: map<Tid, nat>, periodic: set<Tid>)
    requires |c.s.rows| > 0 && Periods(initTick, periodic)
    decreases |steps|
  {
    steps == [] || (InTime(c, steps[0], initTick, periodic)
                    && RunInTime(Apply(c, steps[0], initTick, periodic), steps[1..], initTick, periodic))
  }

  /** The time-out that a call has computed belongs to the tick at which it was made. */
  predicate CallOk(call: Call, now: nat, n: nat)
    requires now < TICKS && n < TICKS
  {
    call.timeout == Plus(Minus(now, call.waited % TICKS), n)
  }

  ghost predicate CallsOk(c: Clock, initTick: map<Tid, nat>) {
    forall x <- c.calls :: x in initTick && initTick[x] < HALF && x !in c.s.active && CallOk(c.calls[x], c.now, initTick[x])
  }

  /** All active timers time out in the half range that begins now. */
  ghost predicate InWindow(c: Clock, initTick: map<Tid, nat>, periodic: set<Tid>) {
    && Ok(c.s, c.now)
    && CallsOk(c, initTick)
    && forall x <- c.s.active :: x in periodic && TimeOf(c.s.due, x) == c.now ==> x in initTick && initTick[x] + 1 < HALF
  }

  /** One tick later the timers that are due are those of this tick and the last. */
  lemma NextTick(now: nat, t: nat)
    requires now < TICKS && t < TICKS && Minus(t, now) < HALF
    ensures Minus(Plus(now, 1), now) == 1 && Plus(now, 1) < TICKS
    ensures Minus(Plus(now, 1), t) < HALF <==> t == now || t == Plus(now, 1)
    ensures Minus(Plus(now, 1), Plus(now, 1)) == 0
    ensures t != now ==> Minus(t, Plus(now, 1)) == Minus(t, now) - 1
  {
  }

  lemma OkWindow(s: State, base: nat)
    requires Ok(s, base)
    ensures forall x <- s.active :: After(s.due, base, x) < HALF
    ensures forall x :: x in s.active <==> x in Bottom(s.rows)
  {
    BottomFacts(s.rows, s.due, base);
  }

  lemma CallWaits(call: Call, now: nat, n: nat)
    requires now < TICKS && n < HALF && CallOk(call, now, n)
    ensures CallOk(Call(call.timeout, call.waited + 1), Plus(now, 1), n)
  {
    var w := call.waited % TICKS;
    assert (call.waited + 1) % TICKS == if w + 1 == TICKS then 0 else w + 1;
  }

  /** The tick fires a timer exactly if it is due, and any other stays as it is. */
  lemma TickFires(c: Clock, initTick: map<Tid, nat>, periodic: set<Tid>)
    requires InWindow(c, initTick, periodic) && Periods(initTick, periodic)
    ensures var r, n := Apply(c, DoTick, initTick, periodic), HowManyDue(Bottom(c.s.rows), c.s.due, Plus(c.now, 1));
            var fired := Bottom(c.s.rows)[..n];
            && (forall x :: x in fired <==> x in c.s.active && Minus(Plus(c.now, 1), TimeOf(c.s.due, x)) < HALF)
            && Ok(r.s, r.now) && (forall x <- Bottom(r.s.rows) :: Minus(r.now, TimeOf(r.s.due, x)) >= HALF)
            && Refired(r.s.active, c.s.active, fired, periodic, initTick, r.s.due, r.now) && SameTimes(c.s.due, r.s.due, fired)
  {
    hide Members, Checked, RowsOk, HowManyDue, Refired, SameTimes;
    OkWindow(c.s, c.now);
    var now := Plus(c.now, 1);
    forall x | x in c.s.active
      ensures Minus(TimeOf(c.s.due, x), c.now) < HALF
    {
      assert After(c.s.due, c.now, x) < HALF;
    }
    NextTick(c.now, c.now);
    forall x | x in c.s.active && x in periodic && Minus(now, TimeOf(c.s.due, x)) < HALF
      ensures Minus(now, TimeOf(c.s.due, x)) + initTick[x] < HALF
    {
      NextTick(c.now, TimeOf(c.s.due, x));
    }
    assert Punctual(c.s, now, initTick, periodic);
    CheckedKeeps(c.s, c.now, now, initTick, periodic);
  }

  lemma TickKeepsWindow(c: Clock, initTick: map<Tid, nat>, periodic: set<Tid>)
    requires InWindow(c, initTick, periodic) && Periods(initTick, periodic)
    ensures InWindow(Apply(c, DoTick, initTick, periodic), initTick, periodic)
  {
    hide Members, Checked, RowsOk, Ok, HowManyDue, SameTimes;
    OkHasRows(c.s, c.now);
    TickFires(c, initTick, periodic);
    var r := Apply(c, DoTick, initTick, periodic);
    OkWindow(r.s, r.now);
    NextTick(r.now, r.now);
    forall x | x in r.calls
      ensures x in initTick && initTick[x] < HALF && x !in r.s.active && CallOk(r.calls[x], r.now, initTick[x])
    {
      CallWaits(c.calls[x], c.now, initTick[x]);
    }
  }

  lemma StepKeepsWindow(c: Clock, step: Step, initTick: map<Tid, nat>, periodic: set<Tid>)
    requires InWindow(c, initTick, periodic) && Periods(initTick, periodic) && InTime(c, step, initTick, periodic)
    ensures InWindow(Apply(c, step, initTick, periodic), initTick, periodic)
  {
    hide InWindow, Checked, Linked, Removed, InTime;
    WindowHasRows(c, initTick, periodic);
    match step
    case DoTick => TickKeepsWindow(c, initTick, periodic);
    case DoRead(x) => if x in initTick && x !in c.calls { ReadKeepsWindow(c, x, initTick, periodic); }
    case DoInsert(x) => if x in c.calls { InsertKeepsWindow(c, x, initTick, periodic); }
    case DoStop(x) => if x in c.s.active { StopKeepsWindow(c, x, initTick, periodic); }
  }

  lemma WindowHasRows(c: Clock, initTick: map<Tid, nat>, periodic: set<Tid>)
    requires InWindow(c, initTick, periodic)
    ensures |c.s.rows| > 0
  {
  }

  lemma ReadKeepsWindow(c: Clock, x: Tid, initTick: map<Tid, nat>, periodic: set<Tid>)
    requires InWindow(c, initTick, periodic) && Periods(initTick, periodic) && x in initTick && x !in c.calls
    ensures InWindow(Apply(c, DoRead(x), initTick, periodic), initTick, periodic)
  {
    hide RowsOk, Members, WithoutRows, Without;
    RemovedKeeps(c.s, x, c.now);
    var r := Apply(c, DoRead(x), initTick, periodic);
    assert CallOk(r.calls[x], r.now, initTick[x]);
  }

  lemma StopKeepsWindow(c: Clock, x: Tid, initTick: map<Tid, nat>, periodic: set<Tid>)
    requires InWindow(c, initTick, periodic)
    ensures InWindow(c.(s := Removed(c.s, x)), initTick, periodic)
  {
    hide RowsOk, Members, WithoutRows, Without;
    RemovedKeeps(c.s, x, c.now);
  }

  /** How far a time-out lies ahead at the insertion. Only a wait of a little more than half the range, or of as
      much beyond any number of whole ranges, makes a time-out that is past look like a coming one. */
  lemma WaitLeft(call: Call, now: nat, n: nat)
    requires now < TICKS && n < HALF && CallOk(call, now, n)
    ensures var w := call.waited % TICKS;
            && (Minus(call.timeout, now) < HALF <==> w <= n || w - n > TICKS - HALF)
            && (call.waited <= n ==> Minus(call.timeout, now) == n - call.waited)
            && (call.waited < n ==> call.timeout != now)
  {
    if call.waited <= n { assert call.waited % TICKS == call.waited; }
  }

  /** Exactly when an insertion keeps the rows in order: no more than init_tick ticks have passed since the
      tick was read (or more than half the range beyond that). */
  lemma InsertKeepsIff(c: Clock, x: Tid, initTick: map<Tid, nat>, periodic: set<Tid>)
    requires InWindow(c, initTick, periodic) && Periods(initTick, periodic) && x in c.calls
    ensures x in initTick
    ensures var w := c.calls[x].waited % TICKS;
            Ok(Apply(c, DoInsert(x), initTick, periodic).s, c.now) <==> w <= initTick[x] || w - initTick[x] > TICKS - HALF
  {
    hide Ok, Linked;
    OkHasRows(c.s, c.now);
    WaitLeft(c.calls[x], c.now, initTick[x]);
    LinkedIff(c.s, x, c.calls[x].timeout, c.now);
  }

  lemma OkHasRows(s: State, base: nat)
    requires Ok(s, base)
    ensures |s.rows| > 0
  {
  }

  lemma InsertKeepsWindow(c: Clock, x: Tid, initTick: map<Tid, nat>, periodic: set<Tid>)
    requires InWindow(c, initTick, periodic) && Periods(initTick, periodic) && x in c.calls
    requires InTime(c, DoInsert(x), initTick, periodic)
    ensures InWindow(Apply(c, DoInsert(x), initTick, periodic), initTick, periodic)
  {
    hide Ok, Linked;
    OkHasRows(c.s, c.now);
    var call := c.calls[x];
    WaitLeft(call, c.now, initTick[x]);
    LinkedIff(c.s, x, call.timeout, c.now);
    LinkedDue(c.s, x, call.timeout);
  }

  /** What goes wrong otherwise. Timer 1 has been started at the tick 5 with the longest time there is. Timer 0,
      with one tick, was read at 3, and is inserted only now: it goes behind timer 1. It is overdue, and
      rt_timer_check fires nothing. */
  lemma LateInsertIsLost()
    ensures var initTick := map[0 := 1, 1 := HALF - 1];
            var c := Clock(LongTimer(), 5, map[0 := Call(4, 2)]);
            && Periods(initTick, {}) && InWindow(c, initTick, {})
            && var d := Apply(c, DoInsert(0), initTick, {});
               && d.s.rows == [[1, 0]] && !Ok(d.s, d.now)
               && Minus(6, TimeOf(d.s.due, 0)) < HALF
               && Apply(d, DoTick, initTick, {}).s == d.s
  {
    hide Ok, Linked, Checked, LongTimer;
    var initTick := map[0 := 1, 1 := HALF - 1];
    var c := Clock(LongTimer(), 5, map[0 := Call(4, 2)]);
    LongTimerIsOk();
    assert CallOk(c.calls[0], 5, 1);
    InsertKeepsIff(c, 0, initTick, {});
    LateRows();
    LinkedDue(LongTimer(), 0, 4);
    NothingChecked(Linked(LongTimer(), 0, 4), 6, initTick, {});
  }

  /** Timer 1, started at the tick 5. */
  function LongTimer(): State {
    State([[1]], map[1 := 5 + HALF - 1], {1}, 0)
  }

  lemma LongTimerIsOk()
    ensures Ok(LongTimer(), 5) && LongTimer().active == {1} && |LongTimer().rows| == 1 && LongTimer().due == map[1 := 5 + HALF - 1]
  {
  }

  lemma LateRows()
    ensures Linked(LongTimer(), 0, 4).rows == [[1, 0]]
  {
    var row: Row, due := [1], LongTimer().due[0 := 4];
    var rows: seq<Row> := [row];
    assert Search(row, due, 4, 1) == 1;
    assert Minus(TimeOf(due, 1), 4) == HALF;
    assert Search(row, due, 4, 0) == 1;
    HeadsIs(rows, due, 4, 0);
    NoHeads(due, 4, 0);
    assert rows[1..] == [] && Heads(rows, due, 4, 0) == [1];
    var ks := Heads(rows, due, 4, 0);
    InsertAtHeadsAt(rows, ks, 0, 1);
    assert Inserted(row, 1, 0) == [1, 0];
  }

  /** If the first timer is not due, nothing happens. */
  lemma NothingChecked(s: State, now: nat, initTick: map<Tid, nat>, periodic: set<Tid>)
    requires |s.rows| > 0 && now < TICKS && Bottom(s.rows) != [] && Minus(now, TimeOf(s.due, Bottom(s.rows)[0])) >= HALF
    ensures Checked(s, now, initTick, periodic) == s
  {
  }

  /** Whatever is started and stopped, for however many ticks: as long as every tick is followed by
      rt_timer_check, and no timer is inserted after its time is over, all active timers time out within half
      the range from the current tick. */
  lemma {:induction false} RunsKeepWindow(c: Clock, steps: seq<Step>, initTick: map<Tid, nat>, periodic: set<Tid>)
    requires InWindow(c, initTick, periodic) && Periods(initTick, periodic) && RunInTime(c, steps, initTick, periodic)
    ensures InWindow(Ran(c, steps, initTick, periodic), initTick, periodic)
    decreases |steps|
  {
    if steps != [] {
      hide InWindow, Apply, InTime;
      StepKeepsWindow(c, steps[0], initTick, periodic);
      RunsKeepWindow(Apply(c, steps[0], initTick, periodic), steps[1..], initTick, periodic);
    }
  }

  function Initial(levels: nat, now: Tick): Clock {
    Clock(State(EmptyRows(levels), map[], {}, 0), now, map[])
  }

  /** From rt_system_timer_init on, the window at the current tick holds all active timers, the rows are in
      order in it, three time-outs are never in a ring, and a timer that fires at a tick is due at it, or was
      inserted in the last one when it was due already. */
  lemma WindowAlways(levels: nat, now: nat, steps: seq<Step>, initTick: map<Tid, nat>, periodic: set<Tid>)
    requires levels > 0 && now < TICKS && Periods(initTick, periodic)
    requires RunInTime(Initial(levels, now), steps, initTick, periodic)
    ensures var c := Ran(Initial(levels, now), steps, initTick, periodic);
            && InWindow(c, initTick, periodic)
            && (forall x <- c.s.active :: Minus(TimeOf(c.s.due, x), c.now) < HALF)
            && (forall x, y, z :: x in c.s.active && y in c.s.active && z in c.s.active ==>
                  !InRing(TimeOf(c.s.due, x), TimeOf(c.s.due, y), TimeOf(c.s.due, z)))
            && (forall x <- c.s.active :: Minus(Plus(c.now, 1), TimeOf(c.s.due, x)) < HALF <==>
                  TimeOf(c.s.due, x) == c.now || TimeOf(c.s.due, x) == Plus(c.now, 1))
  {
    hide RowsOk, Ran, Ok, RunInTime;
    EmptyIsOk(levels, now, initTick, periodic);
    RunsKeepWindow(Initial(levels, now), steps, initTick, periodic);
    var c := Ran(Initial(levels, now), steps, initTick, periodic);
    OkWindow(c.s, c.now);
    forall x | x in c.s.active
      ensures Minus(TimeOf(c.s.due, x), c.now) < HALF
      ensures Minus(Plus(c.now, 1), TimeOf(c.s.due, x)) < HALF <==>
                TimeOf(c.s.due, x) == c.now || TimeOf(c.s.due, x) == Plus(c.now, 1)
    {
      assert After(c.s.due, c.now, x) < HALF;
      NextTick(c.now, TimeOf(c.s.due, x));
    }
    forall x, y, z | x in c.s.active && y in c.s.active && z in c.s.active
      ensures !InRing(TimeOf(c.s.due, x), TimeOf(c.s.due, y), TimeOf(c.s.due, z))
    {
      NoRing(c.now, TimeOf(c.s.due, x), TimeOf(c.s.due, y), TimeOf(c.s.due, z));
    }
  }

  lemma EmptyIsOk(levels: nat, now: nat, initTick: map<Tid, nat>, periodic: set<Tid>)
    requires levels > 0 && now < TICKS
    ensures InWindow(Initial(levels, now), initTick, periodic)
  {
    EmptyRowsOk(levels, now);
  }

  // ---------------------------------------------------------------- when a timer fires

  function TicksIn(steps: seq<Step>): (n: nat)
    ensures n <= |steps|
  {
    if steps == [] then 0 else (if steps[0].DoTick? then 1 else 0) + TicksIn(steps[1..])
  }

  /** Nobody starts or stops the timer. */
  predicate Untouched(steps: seq<Step>, x: Tid) {
    forall step <- steps :: step.DoTick? || step.x != x
  }

  /** The next tick fires the timer. */
  predicate Fires(c: Clock, x: Tid)
    requires |c.s.rows| > 0
  {
    x in Bottom(c.s.rows)[..HowManyDue(Bottom(c.s.rows), c.s.due, Plus(c.now, 1))]
  }

  /** The timer is active, and due n ticks from now. */
  predicate Runs(c: Clock, x: Tid, n: nat) {
    x in c.s.active && Minus(TimeOf(c.s.due, x), c.now) == n
  }

  lemma FiresIff(c: Clock, x: Tid, n: nat, initTick: map<Tid, nat>, periodic: set<Tid>)
    requires InWindow(c, initTick, periodic) && Periods(initTick, periodic) && Runs(c, x, n)
    ensures |c.s.rows| > 0 && (Fires(c, x) <==> n <= 1)
  {
    hide RowsOk, Members, HowManyDue, Refired, SameTimes, Checked;
    TickFires(c, initTick, periodic);
    OkWindow(c.s, c.now);
    assert After(c.s.due, c.now, x) < HALF;
    NextTick(c.now, TimeOf(c.s.due, x));
  }

  /** A step that does not touch the timer leaves its time-out, and a tick brings it one nearer. */
  lemma StepRuns(c: Clock, step: Step, x: Tid, n: nat, initTick: map<Tid, nat>, periodic: set<Tid>)
    requires InWindow(c, initTick, periodic) && Periods(initTick, periodic) && Runs(c, x, n) && Untouched([step], x)
    requires step.DoTick? ==> n > 1
    ensures |c.s.rows| > 0
    ensures var d := Apply(c, step, initTick, periodic);
            Runs(d, x, if step.DoTick? then n - 1 else n) && TimeOf(d.s.due, x) == TimeOf(c.s.due, x)
  {
    hide RowsOk, Members, HowManyDue, Checked, Linked;
    assert step in [step];
    match step
    case DoTick =>
      TickFires(c, initTick, periodic);
      OkWindow(c.s, c.now);
      assert After(c.s.due, c.now, x) < HALF;
      NextTick(c.now, TimeOf(c.s.due, x));
    case DoRead(y) =>
    case DoInsert(y) => if y in c.calls { LinkedDue(c.s, y, c.calls[y].timeout); }
    case DoStop(y) =>
  }

  lemma {:induction false} StaysActive(c: Clock, steps: seq<Step>, x: Tid, n: nat, initTick: map<Tid, nat>, periodic: set<Tid>)
    requires InWindow(c, initTick, periodic) && Periods(initTick, periodic) && RunInTime(c, steps, initTick, periodic)
    requires Runs(c, x, n) && Untouched(steps, x) && (TicksIn(steps) == 0 || TicksIn(steps) < n)
    ensures var d := Ran(c, steps, initTick, periodic);
            InWindow(d, initTick, periodic) && Runs(d, x, n - TicksIn(steps)) && TimeOf(d.s.due, x) == TimeOf(c.s.due, x)
    decreases |steps|
  {
    hide InWindow, Apply, InTime, Runs;
    if steps != [] {
      assert Untouched([steps[0]], x) && Untouched(steps[1..], x) by { assert steps[0] in steps; }
      StepKeepsWindow(c, steps[0], initTick, periodic);
      StepRuns(c, steps[0], x, n, initTick, periodic);
      StaysActive(Apply(c, steps[0], initTick, periodic), steps[1..], x, if steps[0].DoTick? then n - 1 else n, initTick, periodic);
    }
  }

  /** A call that has read the tick waits, and its timer is not active. */
  lemma {:induction false} CallStays(c: Clock, steps: seq<Step>, x: Tid, initTick: map<Tid, nat>, periodic: set<Tid>)
    requires InWindow(c, initTick, periodic) && Periods(initTick, periodic) && RunInTime(c, steps, initTick, periodic)
    requires x in c.calls && Untouched(steps, x)
    ensures var d := Ran(c, steps, initTick, periodic);
            && InWindow(d, initTick, periodic)
            && x in d.calls && d.calls[x] == Call(c.calls[x].timeout, c.calls[x].waited + TicksIn(steps))
    decreases |steps|
  {
    hide InWindow, InTime, Checked, Linked, Removed;
    if steps != [] {
      assert Untouched(steps[1..], x) && (steps[0].DoTick? || steps[0].x != x) by { assert steps[0] in steps; }
      WindowHasRows(c, initTick, periodic);
      StepKeepsWindow(c, steps[0], initTick, periodic);
      CallStays(Apply(c, steps[0], initTick, periodic), steps[1..], x, initTick, periodic);
    }
  }

  lemma {:induction false} RanAppend(c: Clock, a: seq<Step>, b: seq<Step>, initTick: map<Tid, nat>, periodic: set<Tid>)
    requires |c.s.rows| > 0 && Periods(initTick, periodic)
    ensures Ran(c, a + b, initTick, periodic) == Ran(Ran(c, a, initTick, periodic), b, initTick, periodic)
    ensures RunInTime(c, a + b, initTick, periodic)
            <==> RunInTime(c, a, initTick, periodic) && RunInTime(Ran(c, a, initTick, periodic), b, initTick, periodic)
    decreases |a|
  {
    hide Apply, InTime, Periods;
    if a == [] {
      assert a + b == b;
    } else {
      assert (a + b)[0] == a[0] && (a + b)[1..] == a[1..] + b;
      RanAppend(Apply(c, a[0], initTick, periodic), a[1..], b, initTick, periodic);
    }
  }

  /** A timer that is started, and not stopped or started again, fires when exactly init_tick ticks have come
      since the start read the tick, and not before, whatever comes between, even within the start: until then
      it is active with that time-out. */
  lemma FiresOnTime(c: Clock, x: Tid, a: seq<Step>, b: seq<Step>, initTick: map<Tid, nat>, periodic: set<Tid>)
    requires InWindow(c, initTick, periodic) && Periods(initTick, periodic) && x in initTick && x !in c.calls
    requires |c.s.rows| > 0 && RunInTime(c, [DoRead(x)] + a + [DoInsert(x)] + b, initTick, periodic)
    requires Untouched(a, x) && Untouched(b, x) && TicksIn(a) + TicksIn(b) < initTick[x]
    ensures var d := Ran(c, [DoRead(x)] + a + [DoInsert(x)] + b, initTick, periodic);
            && x in d.s.active && TimeOf(d.s.due, x) == Plus(c.now, initTick[x])
            && |d.s.rows| > 0 && (Fires(d, x) <==> TicksIn(a) + TicksIn(b) + 1 == initTick[x])
  {
    hide InWindow, Ran, RunInTime, Fires, Linked, Removed, Checked, CallOk, Periods, Ok, Untouched, TicksIn;
    RanAppend(c, [DoRead(x)] + a + [DoInsert(x)], b, initTick, periodic);
    RanAppend(c, [DoRead(x)] + a, [DoInsert(x)], initTick, periodic);
    RanAppend(c, [DoRead(x)], a, initTick, periodic);
    RanOne(c, DoRead(x), initTick, periodic);
    var c1 := Apply(c, DoRead(x), initTick, periodic);
    StepKeepsWindow(c, DoRead(x), initTick, periodic);
    CallStays(c1, a, x, initTick, periodic);
    var c2 := Ran(c1, a, initTick, periodic);
    RanOne(c2, DoInsert(x), initTick, periodic);
    StepKeepsWindow(c2, DoInsert(x), initTick, periodic);
    var c3 := Apply(c2, DoInsert(x), initTick, periodic);
    InsertRuns(c2, x, initTick, periodic);
    var n := initTick[x] - TicksIn(a);
    StaysActive(c3, b, x, n, initTick, periodic);
    FiresIff(Ran(c3, b, initTick, periodic), x, n - TicksIn(b), initTick, periodic);
  }

  lemma RanOne(c: Clock, step: Step, initTick: map<Tid, nat>, periodic: set<Tid>)
    requires |c.s.rows| > 0 && Periods(initTick, periodic)
    ensures Ran(c, [step], initTick, periodic) == Apply(c, step, initTick, periodic)
    ensures RunInTime(c, [step], initTick, periodic) <==> InTime(c, step, initTick, periodic)
  {
    hide Apply, InTime;
  }

  lemma InsertRuns(c: Clock, x: Tid, initTick: map<Tid, nat>, periodic: set<Tid>)
    requires InWindow(c, initTick, periodic) && Periods(initTick, periodic) && x in c.calls
    requires x in initTick && c.calls[x].waited <= initTick[x]
    ensures |c.s.rows| > 0
    ensures var d := Apply(c, DoInsert(x), initTick, periodic);
            Runs(d, x, initTick[x] - c.calls[x].waited) && TimeOf(d.s.due, x) == c.calls[x].timeout
  {
    hide RowsOk, Linked;
    LinkedDue(c.s, x, c.calls[x].timeout);
    WaitLeft(c.calls[x], c.now, initTick[x]);
  }

  /** A periodic timer that fires runs again for its period; any other is not active any more. */
  lemma FiringRestarts(c: Clock, x: Tid, initTick: map<Tid, nat>, periodic: set<Tid>)
    requires InWindow(c, initTick, periodic) && Periods(initTick, periodic)
    requires |c.s.rows| > 0 && Fires(c, x)
    ensures var d := Apply(c, DoTick, initTick, periodic);
            if x in periodic then x in initTick && Runs(d, x, initTick[x]) else x !in d.s.active
  {
    hide RowsOk, Members, HowManyDue, Checked, Ok;
    TickFires(c, initTick, periodic);
    if x in periodic { StartAt(Plus(c.now, 1), initTick[x]); }
  }

  lemma StartAt(now: nat, n: nat)
    requires now < TICKS && n < HALF
    ensures Minus(Plus(now, n), now) == n && (n > 0 ==> Plus(now, n) != now)
  {
  }

  class TimerList {
    var rows: seq<Row>
    var due: map<Tid, nat>
    var active: set<Tid>
    var randomNr: nat
    var initTick: map<Tid, nat>
    var periodic: set<Tid>

    ghost function Value(): State
      reads this
    {
      State(rows, due, active, randomNr)
    }

    ghost predicate Valid(base: nat)
      reads this
    {
      Ok(Value(), base)
    }

    /** rt_system_timer_init. */
    constructor (levels: nat, initTick: map<Tid, nat>, periodic: set<Tid>, ghost base: nat)
      requires levels > 0 && base < TICKS
      ensures Valid(base) && Value() == Initial(levels, base).s
      ensures this.initTick == initTick && this.periodic == periodic
    {
      rows := EmptyRows(levels);
      due, active, randomNr := map[], {}, 0;
      this.initTick, this.periodic := initTick, periodic;
      new;
      EmptyRowsOk(levels, base);
    }

    method RemoveFromRows(x: Tid)
      modifies this`rows
      ensures rows == WithoutRows(old(rows), x)
    {
      ghost var before := rows;
      var i := 0;
      while i < |rows|
        invariant i <= |rows| == |before|
        invariant forall j :: 0 <= j < i ==> rows[j] == Without(before[j], x)
        invariant forall j :: i <= j < |rows| ==> rows[j] == before[j]
      {
        rows := rows[i := Without(rows[i], x)];
        i := i + 1;
      }
      forall j | 0 <= j < |rows|
        ensures rows[j] == WithoutRows(before, x)[j]
      {
        WithoutRowsAt(before, x, j);
      }
    }

    /** The loop of rt_timer_start in one row. */
    method SearchRow(row: Row, t: nat, h: nat) returns (k: nat)
      requires t < TICKS && h <= |row|
      ensures k == Search(row, due, t, h)
    {
      k := h;
      while k < |row|
        invariant h <= k <= |row| && Search(row, due, t, h) == Search(row, due, t, k)
      {
        var d := Minus(TimeOf(due, row[k]), t);
        if d != 0 && d < HALF { break; }
        k := k + 1;
      }
    }

    method SearchRows(t: nat) returns (ks: seq<nat>)
      requires t < TICKS
      ensures ks == Heads(rows, due, t, 0)
    {
      hide Heads, Search, NextHead;
      ks := [];
      var i: nat, h: nat := 0, 0;
      ghost var all := Heads(rows, due, t, 0);
      ghost var todo := all;
      AllRows(rows, due, t, 0);
      while i < |rows|
        invariant i <= |rows| && (i < |rows| ==> h <= |rows[i]|)
        invariant todo == Heads(rows[i..], due, t, h) && all == ks + todo
      {
        var k := SearchRow(rows[i], t, h);
        HeadsStep(rows, i, due, t, h);
        h := FollowingHead(rows, i, k);
        ghost var later := Heads(rows[i + 1..], due, t, h);
        assert ks + ([k] + later) == (ks + [k]) + later;
        ks := ks + [k];
        todo := later;
        i := i + 1;
      }
      NoHeads(due, t, h);
    }

    /** The insertion into the last row and, by the bits of the counter, into those above it. */
    method InsertIntoRows(x: Tid, ks: seq<nat>)
      requires |rows| > 0 && |ks| == |rows|
      modifies this`rows
      ensures rows == InsertAtHeads(old(rows), ks, x, Height(randomNr, |old(rows)|))
    {
      ghost var before := rows;
      var levels := |rows|;
      var tst := randomNr;
      rows := rows[levels - 1 := Inserted(rows[levels - 1], ks[levels - 1], x)];
      var n := 1;
      while n < levels && tst % 4 == 0
        invariant 1 <= n <= levels == |rows| == |before|
        invariant n - 1 + Height(tst, levels - n + 1) == Height(randomNr, levels)
        invariant forall i :: 0 <= i < levels ==> rows[i] == if levels - i <= n then Inserted(before[i], ks[i], x) else before[i]
      {
        var i := levels - 1 - n;
        rows := rows[i := Inserted(rows[i], ks[i], x)];
        tst := tst / 4;
        n := n + 1;
      }
      assert n == Height(randomNr, levels);
      InsertAtHeadsAt(before, ks, x, n);
    }

    /** rt_timer_start. At a tick that the rows are seen from, any time below half the range will do. */
    method Start(x: Tid, now: nat, ghost base: nat)
      requires Valid(base) && now < TICKS && x in initTick && initTick[x] < HALF
      requires base != now ==> Minus(Plus(now, initTick[x]), base) < HALF
      modifies this`rows, this`due, this`active, this`randomNr
      ensures Valid(base) && Value() == Started(old(Value()), x, Plus(now, initTick[x]))
      ensures due == old(due)[x := Plus(now, initTick[x])] && active == old(active) + {x}
      ensures Bottom(rows) == Put(Without(Bottom(old(rows)), x), due, base, x, After(due, base, x))
      ensures |rows| == |old(rows)|
    {
      hide RowsOk, Keep, Put, WithoutRows, InsertAtHeads, Heads, Height, Without, Members;
      StartAt(now, initTick[x]);
      StartedKeeps(Value(), x, Plus(now, initTick[x]), base);
      Restart(x, Plus(now, initTick[x]));
    }

    /** Its body, for the time-out t. */
    method Restart(x: Tid, t: nat)
      requires |rows| > 0 && t < TICKS
      modifies this`rows, this`due, this`active, this`randomNr
      ensures Value() == Started(old(Value()), x, t)
    {
      hide WithoutRows, InsertAtHeads, Heads, Height;
      RemoveFromRows(x);
      active := active - {x};
      due := due[x := t];
      var ks := SearchRows(t);
      randomNr := NextNr(randomNr);
      InsertIntoRows(x, ks);
      active := active + {x};
    }

    /** rt_timer_stop. */
    method Stop(x: Tid, ghost base: nat) returns (ok: bool)
      requires Valid(base)
      modifies this`rows, this`active
      ensures Valid(base) && ok == (x in old(active)) && active == old(active) - {x}
      ensures Value() == Stopped(old(Value()), x)
      ensures Bottom(rows) == if ok then Without(Bottom(old(rows)), x) else Bottom(old(rows))
    {
      hide RowsOk, WithoutRows, Without, Members;
      if x !in active { return false; }
      RemovedKeeps(Value(), x, base);
      RemoveFromRows(x);
      active := active - {x};
      ok := true;
    }

    /** The first timer is removed, and started again if it is periodic. */
    method FireFirst(now: nat)
      requires |rows| > 0 && Bottom(rows) != [] && now < TICKS
      requires Bottom(rows)[0] in periodic ==> Bottom(rows)[0] in initTick && initTick[Bottom(rows)[0]] < HALF
      modifies this`rows, this`due, this`active, this`randomNr
      ensures Value() == Fired(old(Value()), now, initTick, periodic)
    {
      hide WithoutRows, InsertAtHeads, Heads, Height;
      var x := Bottom(rows)[0];
      RemoveFromRows(x);
      active := active - {x};
      if x in periodic { Restart(x, Plus(now, initTick[x])); }
    }

    /** rt_timer_check, in the tick `now`: it fires exactly the timers that are due, in the order they
        are due in, and ends with none due, so that the rows can be seen from this tick. The callbacks do
        nothing to timers. */
    method Check(now: nat, ghost base: nat) returns (fired: Row)
      requires Valid(base) && now < TICKS && Minus(now, base) < HALF && Punctual(Value(), now, initTick, periodic)
      modifies this`rows, this`due, this`active, this`randomNr
      ensures Valid(now) && Value() == Checked(old(Value()), now, initTick, periodic)
      ensures |fired| <= |Bottom(old(rows))| && fired == Bottom(old(rows))[..|fired|]
      ensures forall x <- Bottom(old(rows)) :: x in fired <==> Minus(now, TimeOf(old(due), x)) < HALF
      ensures forall x <- Bottom(rows) :: Minus(now, TimeOf(due, x)) >= HALF
      ensures Refired(active, old(active), fired, periodic, initTick, due, now) && SameTimes(old(due), due, fired)
      ensures (forall x <- old(active) :: x in periodic && x in initTick ==> Minus(now, base) + initTick[x] < HALF) ==> Valid(base)
    {
      hide RowsOk, Members, Split, SameTimes, Refired, Fired, Punctual, HowManyDue, Place, FiredMany, Checked;
      ghost var s0, b, row := Value(), base, Bottom(rows);
      ghost var k := HowManyDue(row, due, now);
      CheckedKeeps(s0, base, now, initTick, periodic);
      if forall x <- active :: x in periodic && x in initTick ==> Minus(now, base) + initTick[x] < HALF {
        CheckedKeepsBase(s0, base, now, initTick, periodic);
      }
      CheckedIs(s0, now, initTick, periodic);
      CheckedSplits(s0, base, now);
      fired := [];
      while Bottom(rows) != []
        invariant Ok(Value(), b) && Minus(now, b) < HALF && Punctual(Value(), now, initTick, periodic)
        invariant |rows| == |old(rows)| > 0 && |fired| <= k && fired == row[..|fired|]
        invariant Split(Bottom(rows), due, b, Minus(now, b), row[|fired|..k])
        invariant FiredMany(Value(), k - |fired|, now, initTick, periodic) == Checked(s0, now, initTick, periodic)
        decreases k - |fired|
      {
        var x := Bottom(rows)[0];
        ghost var ahead := row[|fired|..k];
        OkFirstIsDue(Value(), b, now, ahead);
        if Minus(now, TimeOf(due, x)) >= HALF { break; }
        assert x == row[|fired|] && ahead[1..] == row[|fired| + 1..k];
        FiredKeeps(Value(), b, now, ahead, initTick, periodic);
        PeriodicIs(Value(), x, now, initTick, periodic);
        FiredManyIs(Value(), k - |fired|, now, initTick, periodic);
        b := TimeOf(due, x);
        FireFirst(now);
        fired := fired + [x];
      }
      OkAheadFits(Value(), b, now, row[|fired|..k]);
      assert |fired| == k;
      FiredManyIs(Value(), 0, now, initTick, periodic);
    }
  }

  lemma CheckedSplits(s: State, base: nat, now: nat)
    requires Ok(s, base) && now < TICKS && Minus(now, base) < HALF
    ensures var row := Bottom(s.rows);
            var k := HowManyDue(row, s.due, now);
            k <= |row| && Split(row, s.due, base, Minus(now, base), row[0..k])
  {
    hide RowsOk, Members, SubRow, Sequences.Distinct, Split, Place, HowManyDue;
    var row := Bottom(s.rows);
    BottomFacts(s.rows, s.due, base);
    FiredAreDue(row, s.due, base, now);
    var k := Place(row, s.due, base, Minus(now, base));
    DueCount(row, s.due, base, now, row[..k]);
  }

  lemma OkFirstIsDue(s: State, base: nat, now: nat, ahead: Row)
    requires Ok(s, base) && now < TICKS && Minus(now, base) < HALF && Bottom(s.rows) != []
    requires Split(Bottom(s.rows), s.due, base, Minus(now, base), ahead)
    ensures Minus(now, TimeOf(s.due, Bottom(s.rows)[0])) < HALF <==> ahead != []
    ensures ahead != [] ==> Bottom(s.rows)[0] == ahead[0]
  {
    BottomFacts(s.rows, s.due, base);
    FirstIsDue(Bottom(s.rows), s.due, base, Minus(now, base), ahead, now);
  }

  lemma OkAheadFits(s: State, base: nat, now: nat, ahead: Row)
    requires Ok(s, base) && now < TICKS && Split(Bottom(s.rows), s.due, base, Minus(now, base), ahead)
    ensures Bottom(s.rows) == [] ==> ahead == []
  {
    AheadFits(Bottom(s.rows), s.due, base, Minus(now, base), ahead);
  }

  lemma PeriodicIs(s: State, x: Tid, now: nat, initTick: map<Tid, nat>, periodic: set<Tid>)
    requires Punctual(s, now, initTick, periodic) && |s.rows| > 0 && Bottom(s.rows) != [] && x == Bottom(s.rows)[0]
    requires x in s.active
    ensures x in periodic ==> x in initTick && initTick[x] < HALF
  {
  }
}
