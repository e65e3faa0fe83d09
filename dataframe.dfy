/** A value model of the pandas operations the detection scripts apply to
    their frame: numeric coercion of a column, `dropna` over a subset of
    columns, assignment of a whole column and `value_counts`.

    A frame is a set of column names and a sequence of rows; a row maps each
    column name to a cell.  A cell holds a float, a string, or NaN. */
module DataFrame {
  import opened Wrappers

  /** One cell of a frame: a float, a string, or a missing value (NaN). */
  datatype Cell = Number(v: real) | Text(s: string) | Missing

  type Row = map<string, Cell>

  ghost predicate Rectangular(columns: set<string>, rows: seq<Row>) {
    forall i :: 0 <= i < |rows| ==> rows[i].Keys == columns
  }

  /** A frame as `read_csv` returns it. */
  datatype Table = Table(columns: set<string>, rows: seq<Row>)

  /** `pd.to_numeric(cell, errors="coerce")`: a float stays, NaN stays, and a
      string becomes the number `parse` reads from it, or NaN when it is not
      a number.  `parse` stands for pandas' string-to-number reader. */
  function Coerce(c: Cell, parse: string -> Option<real>): (r: Cell)
    ensures r.Number? || r.Missing?
    ensures c.Number? ==> r == c
    ensures c.Missing? ==> r == Missing
    ensures c.Text? ==> (r.Number? <==> parse(c.s).Some?)
  {
    match c
    case Number(_) => c
    case Missing => Missing
    case Text(s) => if parse(s).Some? then Number(parse(s).value) else Missing
  }

  /** Coercing twice is coercing once. */
  lemma CoerceIdempotent(c: Cell, parse: string -> Option<real>)
    ensures Coerce(Coerce(c, parse), parse) == Coerce(c, parse)
  {
  }

  /** The rows after `data[col] = pd.to_numeric(data[col], errors="coerce")`. */
  function CoerceColumn(rows: seq<Row>, col: string, parse: string -> Option<real>): seq<Row>
    requires forall i :: 0 <= i < |rows| ==> col in rows[i]
  {
    seq(|rows|, i requires 0 <= i < |rows| => rows[i][col := Coerce(rows[i][col], parse)])
  }

  /** The rows after coercing each column of `cols` in turn. */
  function CoerceColumns(rows: seq<Row>, cols: seq<string>, parse: string -> Option<real>): (r: seq<Row>)
    requires forall i, k :: 0 <= i < |rows| && 0 <= k < |cols| ==> cols[k] in rows[i]
    ensures |r| == |rows|
    ensures forall i :: 0 <= i < |rows| ==> r[i].Keys == rows[i].Keys
    decreases |cols|
  {
    if |cols| == 0 then rows
    else
      var before := CoerceColumns(rows, cols[..|cols| - 1], parse);
      CoerceColumn(before, cols[|cols| - 1], parse)
  }

  /** Cell by cell: a coerced column holds the coercion of its original cell,
      and every other column is untouched. */
  lemma {:induction false} CoerceColumnsAt(rows: seq<Row>, cols: seq<string>, parse: string -> Option<real>, i: int, c: string)
    requires forall i, k :: 0 <= i < |rows| && 0 <= k < |cols| ==> cols[k] in rows[i]
    requires 0 <= i < |rows| && c in rows[i]
    ensures CoerceColumns(rows, cols, parse)[i][c] == if c in cols then Coerce(rows[i][c], parse) else rows[i][c]
    decreases |cols|
  {
    if |cols| > 0 {
      var init := cols[..|cols| - 1];
      CoerceColumnsAt(rows, init, parse, i, c);
      if c in init {
        CoerceIdempotent(rows[i][c], parse);
      }
      assert c in cols <==> c in init || c == cols[|cols| - 1];
    }
  }

  /** The row has no NaN in any column of `subset`; a string counts as present. */
  predicate Complete(r: Row, subset: set<string>) {
    forall c :: c in subset ==> c in r && !r[c].Missing?
  }

  /** The row has a float in every column of `subset`. */
  predicate Numeric(r: Row, subset: set<string>) {
    forall c :: c in subset ==> c in r && r[c].Number?
  }

  /** `dropna(subset=...)`: the rows with no NaN in any column of `subset`,
      in their original order. */
  function Keep(rows: seq<Row>, subset: set<string>): (r: seq<Row>)
    ensures |r| <= |rows|
  {
    if |rows| == 0 then []
    else
      var init := Keep(rows[..|rows| - 1], subset);
      if Complete(rows[|rows| - 1], subset) then init + [rows[|rows| - 1]] else init
  }

  /** A row survives `dropna` iff it is complete. */
  lemma {:induction false} KeepMembers(rows: seq<Row>, subset: set<string>, x: Row)
    ensures x in Keep(rows, subset) <==> x in rows && Complete(x, subset)
  {
    if |rows| > 0 {
      var init := rows[..|rows| - 1];
      KeepMembers(init, subset, x);
      assert rows == init + [rows[|rows| - 1]];
    }
  }

  /** Every row left after `dropna` is complete. */
  lemma KeepComplete(rows: seq<Row>, subset: set<string>)
    ensures forall i :: 0 <= i < |Keep(rows, subset)| ==> Complete(Keep(rows, subset)[i], subset)
  {
    forall i | 0 <= i < |Keep(rows, subset)|
      ensures Complete(Keep(rows, subset)[i], subset)
    {
      KeepMembers(rows, subset, Keep(rows, subset)[i]);
    }
  }

  /** When no column of `subset` holds a string, as after coercion, every
      row left after `dropna` has a float in each column of `subset`. */
  lemma KeepNumeric(rows: seq<Row>, subset: set<string>)
    requires forall i, c :: 0 <= i < |rows| && c in subset && c in rows[i] ==> !rows[i][c].Text?
    ensures forall i :: 0 <= i < |Keep(rows, subset)| ==> Numeric(Keep(rows, subset)[i], subset)
  {
    forall i | 0 <= i < |Keep(rows, subset)|
      ensures Numeric(Keep(rows, subset)[i], subset)
    {
      var x := Keep(rows, subset)[i];
      KeepMembers(rows, subset, x);
      var j :| 0 <= j < |rows| && rows[j] == x;
    }
  }

  /** After coercion no coerced column (any of `subset`) holds a string. */
  lemma CoercedHasNoText(rows: seq<Row>, cols: seq<string>, subset: set<string>, parse: string -> Option<real>)
    requires forall i, k :: 0 <= i < |rows| && 0 <= k < |cols| ==> cols[k] in rows[i]
    requires forall c :: c in subset ==> c in cols
    ensures forall i, c :: 0 <= i < |rows| && c in subset && c in CoerceColumns(rows, cols, parse)[i] ==>
      !CoerceColumns(rows, cols, parse)[i][c].Text?
  {
    forall i, c | 0 <= i < |rows| && c in subset && c in CoerceColumns(rows, cols, parse)[i]
      ensures !CoerceColumns(rows, cols, parse)[i][c].Text?
    {
      CoerceColumnsAt(rows, cols, parse, i, c);
    }
  }

  /** `dropna` keeps the order of the survivors: filtering a concatenation is
      concatenating the filtered parts. */
  lemma {:induction false} KeepAppend(a: seq<Row>, b: seq<Row>, subset: set<string>)
    ensures Keep(a + b, subset) == Keep(a, subset) + Keep(b, subset)
    decreases |b|
  {
    if |b| == 0 {
      assert a + b == a;
    } else {
      var init := b[..|b| - 1];
      KeepAppend(a, init, subset);
      assert (a + b)[..|a + b| - 1] == a + init;
      assert (a + b)[|a + b| - 1] == b[|b| - 1];
    }
  }

  /** `dropna` removes nothing exactly when every row is complete. */
  lemma {:induction false} KeepIdentity(rows: seq<Row>, subset: set<string>)
    ensures Keep(rows, subset) == rows <==> forall i :: 0 <= i < |rows| ==> Complete(rows[i], subset)
  {
    if Keep(rows, subset) == rows {
      forall i | 0 <= i < |rows| ensures Complete(rows[i], subset) {
        KeepMembers(rows, subset, rows[i]);
      }
    }
    if forall i :: 0 <= i < |rows| ==> Complete(rows[i], subset) {
      if |rows| > 0 {
        var init := rows[..|rows| - 1];
        KeepIdentity(init, subset);
        assert forall i :: 0 <= i < |init| ==> Complete(init[i], subset) by {
          forall i | 0 <= i < |init| ensures Complete(init[i], subset) {
            assert init[i] == rows[i];
          }
        }
        assert rows == init + [rows[|rows| - 1]];
      }
    }
  }

  /** The cells of one column, top to bottom. */
  function Column(rows: seq<Row>, col: string): (s: seq<Cell>)
    requires forall i :: 0 <= i < |rows| ==> col in rows[i]
    ensures |s| == |rows|
  {
    seq(|rows|, i requires 0 <= i < |rows| => rows[i][col])
  }

  /** How many times `v` occurs in `s`. */
  function Occurrences(s: seq<Cell>, v: Cell): (n: nat)
    ensures n <= |s|
  {
    if |s| == 0 then 0
    else Occurrences(s[..|s| - 1], v) + (if s[|s| - 1] == v then 1 else 0)
  }

  /** A value occurs a positive number of times iff it is in the sequence. */
  lemma {:induction false} OccurrencesPositive(s: seq<Cell>, v: Cell)
    ensures Occurrences(s, v) > 0 <==> v in s
  {
    if |s| > 0 {
      var init := s[..|s| - 1];
      OccurrencesPositive(init, v);
      assert s == init + [s[|s| - 1]];
    }
  }

  /** A value appears at most once in `vs`. */
  ghost predicate Distinct(vs: seq<Cell>) {
    forall i, j :: 0 <= i < j < |vs| ==> vs[i] != vs[j]
  }

  /** The occurrences of all the values of `vs`, added up. */
  function SumOccurrences(s: seq<Cell>, vs: seq<Cell>): nat {
    if |vs| == 0 then 0 else Occurrences(s, vs[0]) + SumOccurrences(s, vs[1..])
  }

  lemma {:induction false} OccurrencesOfDistinct(vs: seq<Cell>, x: Cell)
    requires Distinct(vs)
    ensures Occurrences(vs, x) == if x in vs then 1 else 0
  {
    if |vs| > 0 {
      var init := vs[..|vs| - 1];
      OccurrencesOfDistinct(init, x);
      assert vs == init + [vs[|vs| - 1]];
      if vs[|vs| - 1] == x {
        assert x !in init by {
          forall k | 0 <= k < |init| ensures init[k] != x {
            assert init[k] == vs[k];
          }
        }
      }
    }
  }

  lemma {:induction false} SumOccurrencesSnoc(s: seq<Cell>, x: Cell, vs: seq<Cell>)
    ensures SumOccurrences(s + [x], vs) == SumOccurrences(s, vs) + Occurrences(vs, x)
    decreases |vs|
  {
    if |vs| > 0 {
      SumOccurrencesSnoc(s, x, vs[1..]);
      assert (s + [x])[..|s + [x]| - 1] == s;
      OccurrencesFront(vs, x);
    }
  }

  lemma {:induction false} OccurrencesFront(vs: seq<Cell>, x: Cell)
    requires |vs| > 0
    ensures Occurrences(vs, x) == (if vs[0] == x then 1 else 0) + Occurrences(vs[1..], x)
    decreases |vs|
  {
    if |vs| > 1 {
      var init := vs[..|vs| - 1];
      OccurrencesFront(init, x);
      assert init[1..] == vs[1..][..|vs[1..]| - 1];
    } else {
      assert vs[1..] == [];
      assert vs[..0] == [];
    }
  }

  /** When the values of `vs` are distinct and cover every cell of `s`, their
      occurrences add up to the length of `s`: each cell is counted once. */
  lemma {:induction false} SumOccurrencesPartition(s: seq<Cell>, vs: seq<Cell>)
    requires Distinct(vs)
    requires forall i :: 0 <= i < |s| ==> s[i] in vs
    ensures SumOccurrences(s, vs) == |s|
    decreases |s|
  {
    if |s| == 0 {
      SumOccurrencesEmpty(vs);
    } else {
      var init := s[..|s| - 1];
      SumOccurrencesPartition(init, vs);
      assert s == init + [s[|s| - 1]];
      SumOccurrencesSnoc(init, s[|s| - 1], vs);
      OccurrencesOfDistinct(vs, s[|s| - 1]);
    }
  }

  lemma {:induction false} SumOccurrencesEmpty(vs: seq<Cell>)
    ensures SumOccurrences([], vs) == 0
    decreases |vs|
  {
    if |vs| > 0 {
      SumOccurrencesEmpty(vs[1..]);
    }
  }

  /** The count `value_counts` reports for `v`; a value it does not list counts 0. */
  function CountOf(counts: map<Cell, nat>, v: Cell): nat {
    if v in counts then counts[v] else 0
  }

  /** The counts reported for the values of `vs`, added up. */
  function SumCounts(counts: map<Cell, nat>, vs: seq<Cell>): nat {
    if |vs| == 0 then 0 else CountOf(counts, vs[0]) + SumCounts(counts, vs[1..])
  }

  /** Counts that agree with the occurrences value by value add up the same. */
  lemma {:induction false} SumCountsMatch(counts: map<Cell, nat>, s: seq<Cell>, vs: seq<Cell>)
    requires forall k :: 0 <= k < |vs| ==> CountOf(counts, vs[k]) == Occurrences(s, vs[k])
    ensures SumCounts(counts, vs) == SumOccurrences(s, vs)
    decreases |vs|
  {
    if |vs| > 0 {
      SumCountsMatch(counts, s, vs[1..]);
    }
  }

  /** What `value_counts` reports for a value other than NaN is its number of occurrences, 0 included. */
  lemma CountOfValueCounts(counts: map<Cell, nat>, s: seq<Cell>, v: Cell)
    requires forall v :: v in counts <==> v in s && v != Missing
    requires forall v :: v in counts ==> counts[v] == Occurrences(s, v)
    requires v != Missing
    ensures CountOf(counts, v) == Occurrences(s, v)
  {
    OccurrencesPositive(s, v);
  }

  /** A pandas DataFrame that a script changes step by step. */
  class Frame {
    var columns: set<string>
    var rows: seq<Row>

    ghost predicate Valid()
      reads this
    {
      Rectangular(columns, rows)
    }

    /** The frame `read_csv` produces from a table. */
    constructor (t: Table)
      requires Rectangular(t.columns, t.rows)
      ensures Valid() && columns == t.columns && rows == t.rows
    {
      columns := t.columns;
      rows := t.rows;
    }

    /** `data[col] = pd.to_numeric(data[col], errors="coerce")`. */
    method ToNumeric(col: string, parse: string -> Option<real>)
      requires Valid() && col in columns
      modifies this
      ensures Valid() && columns == old(columns)
      ensures rows == CoerceColumn(old(rows), col, parse)
    {
      rows := CoerceColumn(rows, col, parse);
    }

    /** `data.dropna(subset=subset, inplace=True)`. */
    method DropNa(subset: set<string>)
      requires Valid() && subset <= columns
      modifies this
      ensures Valid() && columns == old(columns)
      ensures rows == Keep(old(rows), subset)
    {
      var kept: seq<Row> := [];
      var i := 0;
      while i < |rows|
        invariant 0 <= i <= |rows|
        invariant kept == Keep(rows[..i], subset)
      {
        assert rows[..i + 1][..i] == rows[..i];
        if Complete(rows[i], subset) {
          kept := kept + [rows[i]];
        }
        i := i + 1;
      }
      assert rows[..|rows|] == rows;
      forall j | 0 <= j < |kept| ensures kept[j].Keys == columns {
        KeepMembers(rows, subset, kept[j]);
      }
      rows := kept;
    }

    /** `data[name] = values`: a new or replaced column, one value per row. */
    method SetColumn(name: string, values: seq<Cell>)
      requires Valid() && |values| == |rows|
      modifies this
      ensures Valid() && columns == old(columns) + {name}
      ensures |rows| == |old(rows)|
      ensures forall i :: 0 <= i < |rows| ==> rows[i] == old(rows[i])[name := values[i]]
    {
      var old_rows := rows;
      rows := seq(|old_rows|, i requires 0 <= i < |old_rows| => old_rows[i][name := values[i]]);
      columns := columns + {name};
    }

    /** `data[col].value_counts()`: each value of the column other than NaN,
        with the number of rows that hold it. */
    method ValueCounts(col: string) returns (counts: map<Cell, nat>)
      requires Valid() && col in columns
      ensures forall v :: v in counts <==> v in Column(rows, col) && v != Missing
      ensures forall v :: v in counts ==> counts[v] == Occurrences(Column(rows, col), v)
    {
      var s := Column(rows, col);
      counts := map[];
      var i := 0;
      while i < |s|
        invariant 0 <= i <= |s|
        invariant CountsOf(counts, s[..i])
      {
        var v := s[i];
        ghost var seen := s[..i] + [v];
        assert s[..i + 1] == seen;
        CountsStep(counts, s[..i], v);
        if v != Missing {
          if v in counts {
            counts := counts[v := counts[v] + 1];
          } else {
            counts := counts[v := 1];
          }
        }
        assert CountsOf(counts, seen);
        i := i + 1;
      }
      assert s[..|s|] == s;
    }
  }

  /** `counts` holds each non-missing value of `s` with its number of occurrences. */
  ghost predicate CountsOf(counts: map<Cell, nat>, s: seq<Cell>) {
    && (forall v :: v in counts <==> v in s && v != Missing)
    && (forall v :: v in counts ==> counts[v] == Occurrences(s, v))
  }

  /** One more value: skipped when missing, counted once more when known,
      entered with count 1 when new. */
  lemma CountsStep(counts: map<Cell, nat>, s: seq<Cell>, v: Cell)
    requires CountsOf(counts, s)
    ensures v == Missing ==> CountsOf(counts, s + [v])
    ensures v != Missing && v in counts ==> CountsOf(counts[v := counts[v] + 1], s + [v])
    ensures v != Missing && v !in counts ==> CountsOf(counts[v := 1], s + [v])
  {
    assert (s + [v])[..|s|] == s;
    assert forall w :: Occurrences(s + [v], w) == Occurrences(s, w) + (if v == w then 1 else 0);
    if v != Missing && v !in counts {
      OccurrencesPositive(s, v);
    }
  }
}
