/**
 * A pandas DataFrame as the normalisation engine uses it: an ordered list of
 * named columns of equal height. Only the four column operations the engine
 * performs are modelled: reading `df[name]`, assigning `df[name] = values`,
 * `df.drop(columns=[name])` and renaming.
 */
module Tables {
  import opened Wrappers
  import opened Cells

  datatype Column = Column(name: string, cells: seq<Cell>)

  type Table = seq<Column>

  /** `list(df.columns)`. */
  function Names(t: Table): (r: seq<string>)
    ensures |r| == |t|
    ensures forall i :: 0 <= i < |t| ==> r[i] == t[i].name
  {
    seq(|t|, i requires 0 <= i < |t| => t[i].name)
  }

  /** Every column holds exactly `h` cells: the frame has `h` rows. */
  predicate Rectangular(t: Table, h: nat) {
    forall i :: 0 <= i < |t| ==> |t[i].cells| == h
  }

  /** The position of the first column called `name`, if any. */
  function Find(t: Table, name: string): (r: Option<nat>)
    ensures r.Some? <==> name in Names(t)
    ensures r.Some? ==> r.value < |t| && t[r.value].name == name
    ensures r.Some? ==> forall j :: 0 <= j < r.value ==> t[j].name != name
  {
    if t == [] then None
    else if t[0].name == name then Some(0)
    else
      match Find(t[1..], name)
      case Some(k) => assert Names(t[1..]) == Names(t)[1..]; Some(k + 1)
      case None => assert Names(t) == [t[0].name] + Names(t[1..]); None
  }

  /** `df[name]` for a column that exists. */
  function Get(t: Table, name: string): (r: seq<Cell>)
    requires name in Names(t)
    ensures exists i :: 0 <= i < |t| && t[i].name == name && t[i].cells == r
  {
    var k := Find(t, name).value;
    t[k].cells
  }

  /**
   * `df[name] = cells`: an existing column is overwritten where it stands,
   * a new one is appended at the right.
   */
  function Put(t: Table, name: string, cells: seq<Cell>): (r: Table)
    ensures name in Names(r)
    ensures name in Names(t) ==> |r| == |t|
    ensures name !in Names(t) ==> r == t + [Column(name, cells)]
  {
    match Find(t, name)
    case Some(k) =>
      var r := t[k := Column(name, cells)];
      assert Names(r)[k] == name;
      r
    case None =>
      var r := t + [Column(name, cells)];
      assert Names(r)[|t|] == name;
      r
  }

  /** `df.drop(columns=[name])`: every column called `name` goes, the rest keep their order. */
  function Drop(t: Table, name: string): (r: Table)
    ensures |r| <= |t|
    ensures name !in Names(r)
    ensures forall c :: c in r <==> c in t && c.name != name
  {
    if t == [] then []
    else if t[0].name == name then Drop(t[1..], name)
    else [t[0]] + Drop(t[1..], name)
  }

  /** `df[name] = df[name].apply(f)` for a column that exists. */
  function Apply(t: Table, name: string, f: Cell -> Cell): (r: Table)
    requires name in Names(t)
  {
    Put(t, name, MapCells(Get(t, name), f))
  }

  function MapCells(cells: seq<Cell>, f: Cell -> Cell): (r: seq<Cell>)
    ensures |r| == |cells|
    ensures forall i :: 0 <= i < |cells| ==> r[i] == f(cells[i])
  {
    seq(|cells|, i requires 0 <= i < |cells| => f(cells[i]))
  }

  // ---------------------------------------------------------------- properties

  /** Overwriting an existing column changes that column only. */
  lemma {:induction false} PutExisting(t: Table, name: string, cells: seq<Cell>)
    requires name in Names(t)
    ensures Names(Put(t, name, cells)) == Names(t)
    ensures forall i :: 0 <= i < |t| && i != Find(t, name).value ==> Put(t, name, cells)[i] == t[i]
    ensures Put(t, name, cells)[Find(t, name).value] == Column(name, cells)
  {
  }

  /** Reading a column back after writing it gives what was written. */
  lemma {:induction false} GetPut(t: Table, name: string, cells: seq<Cell>)
    ensures Find(Put(t, name, cells), name).Some?
    ensures Get(Put(t, name, cells), name) == cells
  {
    var r := Put(t, name, cells);
    match Find(t, name)
    case Some(k) =>
      assert Find(r, name) == Some(k) by { FindFirst(r, name, k); }
    case None =>
      assert Find(r, name) == Some(|t|) by { FindFirst(r, name, |t|); }
  }

  /** The column written is in the result. */
  lemma {:induction false} PutHas(t: Table, name: string, cells: seq<Cell>)
    ensures Column(name, cells) in Put(t, name, cells)
  {
    GetPut(t, name, cells);
    var r := Put(t, name, cells);
    assert r[Find(r, name).value] == Column(name, cells);
  }

  /** A column called `name` with no earlier one of that name is what `Find` returns. */
  lemma {:induction false} FindFirst(t: Table, name: string, k: nat)
    requires k < |t| && t[k].name == name
    requires forall j :: 0 <= j < k ==> t[j].name != name
    ensures Find(t, name) == Some(k)
  {
    if k > 0 {
      FindFirst(t[1..], name, k - 1);
    }
  }

  /** Writing a column of height `h` into a frame of height `h` keeps it rectangular. */
  lemma {:induction false} PutRectangular(t: Table, name: string, cells: seq<Cell>, h: nat)
    requires Rectangular(t, h) && |cells| == h
    ensures Rectangular(Put(t, name, cells), h)
  {
  }

  lemma {:induction false} DropRectangular(t: Table, name: string, h: nat)
    requires Rectangular(t, h)
    ensures Rectangular(Drop(t, name), h)
  {
    var r := Drop(t, name);
    forall i | 0 <= i < |r|
      ensures |r[i].cells| == h
    {
      assert r[i] in r;
    }
  }

  /** Dropping keeps the other columns in their order: it is the identity on a frame without `name`. */
  lemma {:induction false} DropAbsent(t: Table, name: string)
    requires name !in Names(t)
    ensures Drop(t, name) == t
  {
    if t != [] {
      assert t[0].name == Names(t)[0];
      assert Names(t[1..]) == Names(t)[1..];
      DropAbsent(t[1..], name);
    }
  }

  /** Columns with another name survive an assignment to `name`. */
  lemma {:induction false} PutKeeps(t: Table, name: string, cells: seq<Cell>, c: Column)
    requires c in t && c.name != name
    ensures c in Put(t, name, cells)
  {
    var i :| 0 <= i < |t| && t[i] == c;
    var r := Put(t, name, cells);
    assert r[i] == c;
  }

  /** After an assignment to `name`, every header is an old one or `name`. */
  lemma {:induction false} PutNames(t: Table, name: string, cells: seq<Cell>)
    ensures forall c :: c in Put(t, name, cells) ==> c in t || c == Column(name, cells)
  {
  }
}
