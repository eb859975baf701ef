/**
 * What `normalize_dataframe` (app.py:262-347) keeps: the row count, snake-case
 * headers, the columns it was not asked to touch; and what it guarantees:
 * forced date columns hold only dates, no NaN or NaT is left, and a split
 * column is replaced by its date and time halves.
 */
module NormalizeFacts {
  import opened Strings
  import opened Wrappers
  import opened Calendar
  import opened Cells
  import opened Headers
  import opened Dates
  import opened Tables
  import opened Normalize

  // ---------------------------------------------------------------- headers

  /** Snake-casing the headers a second time changes nothing. */
  lemma {:induction false} SnakeHeadersIdempotent(t: Table)
    ensures SnakeHeaders(SnakeHeaders(t)) == SnakeHeaders(t)
  {
    var once := SnakeHeaders(t);
    forall i | 0 <= i < |t|
      ensures SnakeHeaders(once)[i] == once[i]
    {
      SnakeCaseIdempotent(t[i].name);
    }
  }

  // ---------------------------------------------------------------- detection

  /** A column is split exactly when one of its first ten present values looks like a date. */
  lemma {:induction false} DetectedIff(cells: seq<Cell>)
    ensures Detected(cells) <==> exists i :: 0 <= i < |Sample(cells)| && LooksLikeDate(Sample(cells)[i])
  {
    ScanDatesFinds(Sample(cells), false);
  }

  /** A column with no value present is never split. */
  lemma {:induction false} EmptyNotDetected(cells: seq<Cell>)
    requires forall i :: 0 <= i < |cells| ==> IsNA(cells[i])
    ensures !Detected(cells)
  {
    NothingPresent(cells);
  }

  lemma {:induction false} NothingPresent(cells: seq<Cell>)
    requires forall i :: 0 <= i < |cells| ==> IsNA(cells[i])
    ensures Present(cells) == []
  {
    if cells != [] {
      NothingPresent(cells[1..]);
    }
  }

  // ---------------------------------------------------------------- split

  lemma {:induction false} PutSnake(t: Table, name: string, cells: seq<Cell>)
    requires AllSnake(t) && IsSnake(name)
    ensures AllSnake(Put(t, name, cells))
  {
    var r := Put(t, name, cells);
    PutNames(t, name, cells);
    forall i | 0 <= i < |r|
      ensures IsSnake(r[i].name)
    {
      assert r[i] in r;
    }
  }

  lemma {:induction false} DropSnake(t: Table, name: string)
    requires AllSnake(t)
    ensures AllSnake(Drop(t, name))
  {
    var r := Drop(t, name);
    forall i | 0 <= i < |r|
      ensures IsSnake(r[i].name)
    {
      assert r[i] in r;
    }
  }

  /** The split writes columns of the frame's height and keeps headers snake-case. */
  lemma {:induction false} SplitShape(t: Table, col: string, h: nat)
    requires Rectangular(t, h) && AllSnake(t)
    requires col in Names(t)
    ensures Rectangular(Split(t, col, Get(t, col)), h)
    ensures AllSnake(Split(t, col, Get(t, col)))
  {
    var cells := Get(t, col);
    assert |cells| == h;
    assert IsSnake(col);
    var t1 := Put(t, DateName(col), DateParts(cells));
    PutRectangular(t, DateName(col), DateParts(cells), h);
    PutSnake(t, DateName(col), DateParts(cells));
    var t2 := match TimeName(col)
      case None => t1
      case Some(n) => Put(t1, n, TimeParts(cells));
    if TimeName(col).Some? {
      PutRectangular(t1, TimeName(col).value, TimeParts(cells), h);
      PutSnake(t1, TimeName(col).value, TimeParts(cells));
    }
    DropRectangular(t2, col, h);
    DropSnake(t2, col);
  }

  lemma {:induction false} SplitColumnShape(t: Table, col: string, h: nat)
    requires Rectangular(t, h) && AllSnake(t)
    requires SplitColumn(t, col).Some?
    ensures Rectangular(SplitColumn(t, col).value, h)
    ensures AllSnake(SplitColumn(t, col).value)
  {
    if col in Names(t) && Detected(Get(t, col)) {
      SplitShape(t, col, h);
    }
  }

  /** The whole split loop keeps the row count and the snake-case headers. */
  lemma {:induction false} SplitAllShape(t: Table, cols: seq<string>, h: nat)
    requires Rectangular(t, h) && AllSnake(t)
    requires SplitAll(t, cols).Some?
    ensures Rectangular(SplitAll(t, cols).value, h)
    ensures AllSnake(SplitAll(t, cols).value)
    decreases |cols|
  {
    if cols != [] {
      var t1 := SplitColumn(t, cols[0]).value;
      assert SplitAll(t, cols) == SplitAll(t1, cols[1..]);
      SplitColumnShape(t, cols[0], h);
      SplitAllShape(t1, cols[1..], h);
    }
  }

  /**
   * A split column `x` leaves `date_x` with the date of every row and, unless
   * `x` starts with `heure_`, `heure_x` with the time of every row.
   */
  lemma {:induction false} SplitKeepsParts(t: Table, col: string)
    requires col in Names(t) && Detected(Get(t, col))
    requires !StartsWith(col, "date_")
    ensures Column("date_" + col, DateParts(Get(t, col))) in SplitColumn(t, col).value
    ensures !StartsWith(col, "heure_") ==>
      Column("heure_" + col, TimeParts(Get(t, col))) in SplitColumn(t, col).value
  {
    SplitDatePart(t, col);
    if !StartsWith(col, "heure_") {
      SplitTimePart(t, col);
    }
  }

  lemma {:induction false} SplitDatePart(t: Table, col: string)
    requires col in Names(t) && Detected(Get(t, col))
    requires !StartsWith(col, "date_")
    ensures Column(DateName(col), DateParts(Get(t, col))) in SplitColumn(t, col).value
  {
    var cells := Get(t, col);
    var dc := Column(DateName(col), DateParts(cells));
    var t1 := Put(t, DateName(col), DateParts(cells));
    PutHas(t, DateName(col), DateParts(cells));
    match TimeName(col)
    case None =>
      assert dc in Drop(t1, col);
    case Some(n) =>
      PutKeeps(t1, n, TimeParts(cells), dc);
      assert dc in Drop(Put(t1, n, TimeParts(cells)), col);
  }

  lemma {:induction false} SplitTimePart(t: Table, col: string)
    requires col in Names(t) && Detected(Get(t, col))
    requires TimeName(col).Some?
    ensures Column(TimeName(col).value, TimeParts(Get(t, col))) in SplitColumn(t, col).value
  {
    var cells := Get(t, col);
    var n := TimeName(col).value;
    var t1 := Put(t, DateName(col), DateParts(cells));
    PutHas(t1, n, TimeParts(cells));
    assert Column(n, TimeParts(cells)) in Drop(Put(t1, n, TimeParts(cells)), col);
  }

  /**
   * A split column whose name already starts with `date_` loses its dates:
   * they are written over the source column, which is then dropped.
   */
  lemma {:induction false} SplitDateSourceLost(t: Table, col: string)
    requires col in Names(t) && Detected(Get(t, col))
    requires StartsWith(col, "date_")
    ensures DateName(col) !in Names(SplitColumn(t, col).value)
    ensures !StartsWith(col, "heure_")
    ensures Column("heure_" + col, TimeParts(Get(t, col))) in SplitColumn(t, col).value
  {
    PrefixClash(col, "date_", "heure_");
    SplitTimePart(t, col);
  }

  // ---------------------------------------------------------------- forced types

  /** Forcing a type rewrites the named column only: headers, order and other columns stay. */
  lemma {:induction false} ApplyTypeFrame(t: Table, col: string, kind: string)
    ensures Names(ApplyType(t, col, kind)) == Names(t)
    ensures forall i :: 0 <= i < |t| && t[i].name != col ==> ApplyType(t, col, kind)[i] == t[i]
  {
    if col in Names(t) && kind in {"date", "numeric", "text"} {
      var f := Coercer(kind).value;
      PutExisting(t, col, MapCells(Get(t, col), f));
    }
  }

  lemma {:induction false} ApplyTypeRectangular(t: Table, col: string, kind: string, h: nat)
    requires Rectangular(t, h)
    ensures Rectangular(ApplyType(t, col, kind), h)
  {
    if col in Names(t) && kind in {"date", "numeric", "text"} {
      var f := Coercer(kind).value;
      PutRectangular(t, col, MapCells(Get(t, col), f), h);
    }
  }

  /** A column forced to `date` holds only RFC 3339 full dates and None. */
  lemma {:induction false} ApplyDateOnlyDates(t: Table, col: string)
    requires col in Names(t)
    ensures forall c :: c in Get(ApplyType(t, col, "date"), col) ==> c.Null? || (c.Str? && IsFullDate(c.s))
  {
    GetPut(t, col, MapCells(Get(t, col), DateCell));
  }

  /** A column forced to `numeric` holds only numbers and None. */
  lemma {:induction false} ApplyNumericOnlyNumbers(t: Table, col: string)
    requires col in Names(t)
    ensures forall c :: c in Get(ApplyType(t, col, "numeric"), col) ==> c.Null? || c.Float?
  {
    GetPut(t, col, MapCells(Get(t, col), NumberCell));
  }

  /** All the forced types together keep the headers and the row count. */
  lemma {:induction false} ApplyTypesShape(t: Table, types: seq<(string, string)>, h: nat)
    requires Rectangular(t, h)
    ensures Names(ApplyTypes(t, types)) == Names(t)
    ensures Rectangular(ApplyTypes(t, types), h)
    decreases |types|
  {
    if types != [] {
      ApplyTypeFrame(t, types[0].0, types[0].1);
      ApplyTypeRectangular(t, types[0].0, types[0].1, h);
      ApplyTypesShape(ApplyType(t, types[0].0, types[0].1), types[1..], h);
    }
  }

  // ---------------------------------------------------------------- nulls

  /** Unifying the missing values twice is the same as once. */
  lemma {:induction false} UnifyNullsIdempotent(t: Table)
    ensures UnifyNulls(UnifyNulls(t)) == UnifyNulls(t)
  {
    var u := UnifyNulls(t);
    forall i | 0 <= i < |t|
      ensures UnifyNulls(u)[i] == u[i]
    {
      assert UnifyNulls(u)[i].cells == u[i].cells;
    }
  }

  // ---------------------------------------------------------------- the whole pass

  /**
   * The normalised frame has the same number of rows, snake-case headers and
   * no NaN or NaT left.
   */
  lemma {:induction false} NormalizeShape(t: Table, types: seq<(string, string)>, split: bool, h: nat)
    requires Rectangular(t, h)
    requires NormalizeTable(t, types, split).Some?
    ensures Rectangular(NormalizeTable(t, types, split).value, h)
    ensures AllSnake(NormalizeTable(t, types, split).value)
    ensures forall i, j :: 0 <= i < |NormalizeTable(t, types, split).value| && 0 <= j < h ==>
      !NormalizeTable(t, types, split).value[i].cells[j].NaN? && !NormalizeTable(t, types, split).value[i].cells[j].NaT?
  {
    var t1 := SnakeHeaders(t);
    var t3 := if split then SplitAll(t1, Names(t1)).value else t1;
    if split {
      SplitAllShape(t1, Names(t1), h);
    }
    ApplyTypesShape(t3, types, h);
    var t4 := ApplyTypes(t3, types);
    assert forall i :: 0 <= i < |t4| ==> IsSnake(t4[i].name) by {
      forall i | 0 <= i < |t4|
        ensures IsSnake(t4[i].name)
      {
        assert t4[i].name == Names(t4)[i] == Names(t3)[i];
      }
    }
  }

  /** Without the split, the headers are exactly the snake-cased originals, in order. */
  lemma {:induction false} NormalizeHeaders(t: Table, types: seq<(string, string)>, h: nat)
    requires Rectangular(t, h)
    ensures |NormalizeTable(t, types, false).value| == |t|
    ensures forall i :: 0 <= i < |t| ==> NormalizeTable(t, types, false).value[i].name == SnakeCase(t[i].name)
  {
    var t1 := SnakeHeaders(t);
    ApplyTypesShape(t1, types, h);
    var t4 := ApplyTypes(t1, types);
    assert |t4| == |Names(t4)| == |Names(t1)|;
    forall i | 0 <= i < |t|
      ensures t4[i].name == SnakeCase(t[i].name)
    {
      assert t4[i].name == Names(t4)[i] == Names(t1)[i];
    }
  }
}
