/**
 * `dataframe_to_json_records` (app.py:350-371) and the header rename of the
 * import routes (app.py:640-641): a frame becomes one JSON object per row,
 * keyed by the headers in column order, with missing values as `null` and
 * timestamps and durations as their text.
 */
module Records {
  import opened Decimals
  import opened Cells
  import opened Tables

  /** A JSON value as the insert request carries it. */
  datatype Json =
    | JNull
    | JBool(b: bool)
    | JInt(i: int)
    | JFloat(x: Decimal)
    | JStr(s: string)

  /** One row: the (header, value) pairs in column order. */
  type Record = seq<(string, Json)>

  /** The cleaning applied to each value of `df.to_dict(orient='records')`. */
  function ToJson(c: Cell): (r: Json)
    ensures r.JNull? <==> IsNA(c)
    ensures c.Stamp? || c.Span? ==> r == JStr(Text(c))
    ensures c.Str? ==> r == JStr(c.s)
  {
    match c
    case Null => JNull
    case NaN => JNull
    case NaT => JNull
    case Bool(b) => JBool(b)
    case Int(i) => JInt(i)
    case Float(x) => JFloat(x)
    case Str(s) => JStr(s)
    case Stamp(_, _) | Span(_) => JStr(Text(c))
  }

  /** Row `j` of the frame. */
  function Row(t: Table, j: nat): (r: Record)
    requires forall i :: 0 <= i < |t| ==> j < |t[i].cells|
    ensures |r| == |t|
    ensures forall i :: 0 <= i < |t| ==> r[i].0 == t[i].name
  {
    seq(|t|, i requires 0 <= i < |t| => (t[i].name, ToJson(t[i].cells[j])))
  }

  /** `dataframe_to_json_records(df)` for a frame of `h` rows: one record per row, in order. */
  function ToRecords(t: Table, h: nat): (r: seq<Record>)
    requires Rectangular(t, h)
    ensures |r| == h
    ensures forall j :: 0 <= j < h ==> |r[j]| == |t| && forall i :: 0 <= i < |t| ==> r[j][i].0 == t[i].name
    ensures forall j, i :: 0 <= j < h && 0 <= i < |t| ==> r[j][i].1 == ToJson(t[i].cells[j])
  {
    seq(h, j requires 0 <= j < h => Row(t, j))
  }

  // ---------------------------------------------------------------- back to a frame

  /** The cell a JSON value was made from, for the values that survive unchanged. */
  function FromJson(v: Json): (c: Cell)
    ensures ToJson(c) == v
  {
    match v
    case JNull => Null
    case JBool(b) => Bool(b)
    case JInt(i) => Int(i)
    case JFloat(x) => Float(x)
    case JStr(s) => Str(s)
  }

  /** The cells that reach JSON unchanged: None, booleans, numbers and text. */
  predicate Plain(c: Cell) {
    c.Null? || c.Bool? || c.Int? || c.Float? || c.Str?
  }

  /** Rebuilds the columns called `names` from records holding them in that order. */
  function FromRecords(recs: seq<Record>, names: seq<string>): (t: Table)
    requires forall j :: 0 <= j < |recs| ==> |recs[j]| == |names|
    ensures |t| == |names| && Rectangular(t, |recs|)
  {
    seq(|names|, i requires 0 <= i < |names| =>
      Column(names[i], seq(|recs|, j requires 0 <= j < |recs| => FromJson(recs[j][i].1))))
  }

  /** A plain value survives the trip to JSON and back. */
  lemma {:induction false} PlainRoundTrip(c: Cell)
    requires Plain(c)
    ensures FromJson(ToJson(c)) == c
  {
  }

  /** A frame of plain values can be rebuilt from its records: nothing but the representation changes. */
  lemma {:induction false} RecordsRoundTrip(t: Table, h: nat)
    requires Rectangular(t, h)
    requires forall i, j :: 0 <= i < |t| && 0 <= j < h ==> Plain(t[i].cells[j])
    ensures FromRecords(ToRecords(t, h), Names(t)) == t
  {
    var recs := ToRecords(t, h);
    var back := FromRecords(recs, Names(t));
    forall i | 0 <= i < |t|
      ensures back[i] == t[i]
    {
      forall j | 0 <= j < h
        ensures back[i].cells[j] == t[i].cells[j]
      {
        assert recs[j] == Row(t, j);
        PlainRoundTrip(t[i].cells[j]);
      }
    }
  }

  // ---------------------------------------------------------------- rename

  /** `df.rename(columns=mapping)`: mapped headers change, the rest and all values stay. */
  function Rename(t: Table, mapping: map<string, string>): (r: Table)
    ensures |r| == |t|
    ensures forall i :: 0 <= i < |t| ==> r[i].cells == t[i].cells
    ensures forall i :: 0 <= i < |t| && t[i].name !in mapping ==> r[i] == t[i]
    ensures forall i :: 0 <= i < |t| && t[i].name in mapping ==> r[i].name == mapping[t[i].name]
  {
    seq(|t|, i requires 0 <= i < |t| =>
      Column(if t[i].name in mapping then mapping[t[i].name] else t[i].name, t[i].cells))
  }

  /** An empty mapping is skipped by the routes, and renaming with it would change nothing either. */
  lemma {:induction false} RenameEmpty(t: Table)
    ensures Rename(t, map[]) == t
  {
  }

  /**
   * Renaming with a mapping and then with its inverse restores the headers,
   * provided no untouched header is itself a target of the inverse.
   */
  lemma {:induction false} RenameRoundTrip(t: Table, mapping: map<string, string>, inverse: map<string, string>)
    requires forall k :: k in mapping ==> mapping[k] in inverse && inverse[mapping[k]] == k
    requires forall i :: 0 <= i < |t| && t[i].name !in mapping ==> t[i].name !in inverse
    ensures Rename(Rename(t, mapping), inverse) == t
  {
    var once := Rename(t, mapping);
    var twice := Rename(once, inverse);
    forall i | 0 <= i < |t|
      ensures twice[i] == t[i]
    {
      if t[i].name in mapping {
        assert once[i].name == mapping[t[i].name];
      }
    }
  }
}
