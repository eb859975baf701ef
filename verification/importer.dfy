/**
 * The insert loops of the import routes: records are sent in slices of at
 * most 1000, in order. In append mode (app.py:647-658) a failed slice is
 * logged as `Batch k: message` and the loop goes on; in create mode
 * (app.py:754-761) the first failure ends the import with its message.
 * The database is not modelled: what it answers to each slice is a parameter.
 */
module Importer {
  import opened Wrappers
  import opened Strings
  import opened Tables
  import opened Normalize
  import opened NormalizeFacts
  import opened Records

  /** `batch_size`. */
  const BatchSize: nat := 1000

  /**
   * What both routes send: the frame normalised, renamed by the mapping and
   * turned into records; None when normalisation raises. There is one record
   * per row of the uploaded sheet.
   */
  function PrepareRecords(t: Table, h: nat, types: seq<(string, string)>, split: bool,
                          mapping: map<string, string>): (r: Option<seq<Record>>)
    requires Rectangular(t, h)
    ensures !split ==> r.Some?
    ensures r.Some? ==> |r.value| == h
  {
    match NormalizeTable(t, types, split)
    case None => None
    case Some(n) =>
      NormalizeShape(t, types, split, h);
      Some(ToRecords(Rename(n, mapping), h))
  }

  /** What one `insert(batch).execute()` does: returns the inserted rows, or raises. */
  datatype Outcome = Inserted(rows: nat) | Failed(message: string)

  /** `records[i:i + size]`. */
  function Slice<T>(recs: seq<T>, i: nat, size: nat): (r: seq<T>)
    requires i <= |recs|
    ensures |r| <= size && i + |r| <= |recs| && r == recs[i..i + |r|]
    ensures i < |recs| && size > 0 ==> |r| > 0
    ensures i + |r| < |recs| ==> |r| == size
  {
    if i + size <= |recs| then recs[i..i + size] else recs[i..]
  }

  /** The slices `range(i, len(records), size)` visits, in order. */
  function BatchesFrom<T>(recs: seq<T>, i: nat, size: nat): (r: seq<seq<T>>)
    requires i <= |recs| && size > 0
    decreases |recs| - i
  {
    if i == |recs| then []
    else
      var b := Slice(recs, i, size);
      [b] + BatchesFrom(recs, i + |b|, size)
  }

  function Batches<T>(recs: seq<T>, size: nat): seq<seq<T>>
    requires size > 0
  {
    BatchesFrom(recs, 0, size)
  }

  function Concat<T>(bs: seq<seq<T>>): seq<T> {
    if bs == [] then [] else bs[0] + Concat(bs[1..])
  }

  /** The slices put back together are the records; none is empty or longer than the size. */
  lemma {:induction false} BatchesPartition<T>(recs: seq<T>, i: nat, size: nat)
    requires i <= |recs| && size > 0
    ensures Concat(BatchesFrom(recs, i, size)) == recs[i..]
    ensures forall k :: 0 <= k < |BatchesFrom(recs, i, size)| ==> 0 < |BatchesFrom(recs, i, size)[k]| <= size
    decreases |recs| - i
  {
    if i < |recs| {
      var b := Slice(recs, i, size);
      var rest := BatchesFrom(recs, i + |b|, size);
      BatchesPartition(recs, i + |b|, size);
      assert BatchesFrom(recs, i, size) == [b] + rest;
      assert ([b] + rest)[1..] == rest;
      assert recs[i..] == b + recs[i + |b|..];
    }
  }

  /** Every slice but the last is full, so slice `k` starts at record `k * size`. */
  lemma {:induction false} BatchStart<T>(recs: seq<T>, i: nat, size: nat, k: nat)
    requires i <= |recs| && size > 0 && k < |BatchesFrom(recs, i, size)|
    ensures i + k * size < |recs|
    ensures BatchesFrom(recs, i, size)[k] == Slice(recs, i + k * size, size)
  {
    BatchAt(recs, i, size, k);
    StartIsProduct(i, size, k);
  }

  /** Where slice `k` starts when every slice before it is full. */
  function Start(i: nat, size: nat, k: nat): nat
    decreases k
  {
    if k == 0 then i else Start(i + size, size, k - 1)
  }

  lemma {:induction false} BatchAt<T>(recs: seq<T>, i: nat, size: nat, k: nat)
    requires i <= |recs| && size > 0 && k < |BatchesFrom(recs, i, size)|
    ensures Start(i, size, k) < |recs|
    ensures BatchesFrom(recs, i, size)[k] == Slice(recs, Start(i, size, k), size)
    decreases k
  {
    var b := Slice(recs, i, size);
    var rest := BatchesFrom(recs, i + |b|, size);
    assert BatchesFrom(recs, i, size) == [b] + rest;
    if k > 0 {
      assert |b| == size;
      BatchAt(recs, i + size, size, k - 1);
    }
  }

  lemma {:induction false} StartIsProduct(i: nat, size: nat, k: nat)
    ensures Start(i, size, k) == i + k * size
    decreases k
  {
    if k > 0 {
      StartIsProduct(i + size, size, k - 1);
      MulStep(k, size);
    }
  }

  lemma {:induction false} MulStep(k: nat, size: nat)
    requires k > 0
    ensures size + (k - 1) * size == k * size
  {
  }

  // ---------------------------------------------------------------- append mode

  /** `f"Batch {i//batch_size + 1}: {str(e)}"`. */
  function ErrorLine(number: nat, message: string): (r: string)
  {
    "Batch " + NatToString(number) + ": " + message
  }

  /** The rows the database reports for the slices, failed ones counting none. */
  function InsertedTotal(bs: seq<seq<Record>>, insert: seq<Record> -> Outcome): (n: nat)
  {
    if bs == [] then 0
    else (match insert(bs[0]) case Inserted(k) => k case Failed(_) => 0) + InsertedTotal(bs[1..], insert)
  }

  /** The error lines for the slices numbered from `first`, in order. */
  function ErrorLines(bs: seq<seq<Record>>, insert: seq<Record> -> Outcome, first: nat): (r: seq<string>)
    ensures |r| <= |bs|
  {
    if bs == [] then []
    else
      (match insert(bs[0]) case Inserted(_) => [] case Failed(m) => [ErrorLine(first, m)])
      + ErrorLines(bs[1..], insert, first + 1)
  }

  /**
   * The append loop: every slice is sent; the rows reported are summed and
   * each failure adds a numbered error line.
   */
  method AppendRecords(records: seq<Record>, insert: seq<Record> -> Outcome)
    returns (total: nat, errors: seq<string>)
    ensures total == InsertedTotal(Batches(records, BatchSize), insert)
    ensures errors == ErrorLines(Batches(records, BatchSize), insert, 1)
  {
    total := 0;
    errors := [];
    var i := 0;
    ghost var bs := Batches(records, BatchSize);
    ghost var k := 0;
    while i < |records|
      invariant AppendState(records, insert, bs, i, k, total, errors)
      decreases |records| - i
    {
      var batch := Slice(records, i, BatchSize);
      ghost var before := (total, errors);
      match insert(batch) {
        case Inserted(n) =>
          total := total + n;
        case Failed(m) =>
          errors := errors + [ErrorLine(i / BatchSize + 1, m)];
      }
      AppendStateNext(records, insert, bs, i, k, before.0, before.1, batch);
      i := i + |batch|;
      k := k + 1;
    }
  }

  /**
   * Where the append loop stands before slice `k`, which starts at record
   * `i`: the slices left are the rest of the list, and the totals so far
   * plus those of the rest are the totals of the whole list.
   */
  ghost predicate AppendState(records: seq<Record>, insert: seq<Record> -> Outcome, bs: seq<seq<Record>>,
                              i: nat, k: nat, total: nat, errors: seq<string>)
  {
    i <= |records| && k <= |bs|
    && BatchesFrom(records, i, BatchSize) == bs[k..]
    && (i < |records| ==> i == k * BatchSize)
    && total + InsertedTotal(bs[k..], insert) == InsertedTotal(bs, insert)
    && errors + ErrorLines(bs[k..], insert, k + 1) == ErrorLines(bs, insert, 1)
  }

  /** What the append loop does with one slice's outcome. */
  function Tally(total: nat, errors: seq<string>, number: nat, o: Outcome): (nat, seq<string>) {
    match o
    case Inserted(n) => (total + n, errors)
    case Failed(m) => (total, errors + [ErrorLine(number, m)])
  }

  lemma {:induction false} AppendStateNext(records: seq<Record>, insert: seq<Record> -> Outcome, bs: seq<seq<Record>>,
                                           i: nat, k: nat, total: nat, errors: seq<string>, batch: seq<Record>)
    requires i < |records| && AppendState(records, insert, bs, i, k, total, errors)
    requires batch == Slice(records, i, BatchSize)
    ensures i + |batch| <= |records|
    ensures var next := Tally(total, errors, i / BatchSize + 1, insert(batch));
      AppendState(records, insert, bs, i + |batch|, k + 1, next.0, next.1)
  {
    NextBatch(records, i, batch, bs, k);
    BatchNumber(k);
    AppendAdvance(bs, k, insert, total, errors);
  }

  lemma {:induction false} NextBatch(records: seq<Record>, i: nat, batch: seq<Record>, bs: seq<seq<Record>>, k: nat)
    requires i < |records| && k <= |bs|
    requires batch == Slice(records, i, BatchSize)
    requires BatchesFrom(records, i, BatchSize) == bs[k..]
    ensures k < |bs| && bs[k] == batch
    ensures BatchesFrom(records, i + |batch|, BatchSize) == bs[k + 1..]
    ensures i + |batch| < |records| ==> i + |batch| == i + BatchSize
  {
    assert bs[k..][0] == bs[k];
    assert bs[k..][1..] == bs[k + 1..];
  }

  /** One step of the reference totals: the slice's own share, then the rest. */
  lemma {:induction false} AppendStep(bs: seq<seq<Record>>, k: nat, insert: seq<Record> -> Outcome)
    requires k < |bs|
    ensures InsertedTotal(bs[k..], insert)
         == (match insert(bs[k]) case Inserted(n) => n case Failed(_) => 0) + InsertedTotal(bs[k + 1..], insert)
    ensures ErrorLines(bs[k..], insert, k + 1)
         == (match insert(bs[k]) case Inserted(_) => [] case Failed(m) => [ErrorLine(k + 1, m)])
            + ErrorLines(bs[k + 1..], insert, k + 2)
  {
    assert bs[k..][0] == bs[k];
    assert bs[k..][1..] == bs[k + 1..];
  }

  /** The loop's running totals after slice `k` agree with the reference ones. */
  lemma {:induction false} AppendAdvance(bs: seq<seq<Record>>, k: nat, insert: seq<Record> -> Outcome, total: nat, errors: seq<string>)
    requires k < |bs|
    requires total + InsertedTotal(bs[k..], insert) == InsertedTotal(bs, insert)
    requires errors + ErrorLines(bs[k..], insert, k + 1) == ErrorLines(bs, insert, 1)
    ensures (match insert(bs[k]) case Inserted(n) => total + n case Failed(_) => total)
            + InsertedTotal(bs[k + 1..], insert) == InsertedTotal(bs, insert)
    ensures (match insert(bs[k]) case Inserted(_) => errors case Failed(m) => errors + [ErrorLine(k + 1, m)])
            + ErrorLines(bs[k + 1..], insert, k + 2) == ErrorLines(bs, insert, 1)
  {
    AppendStep(bs, k, insert);
    match insert(bs[k])
    case Inserted(_) =>
    case Failed(m) =>
      assert errors + ([ErrorLine(k + 1, m)] + ErrorLines(bs[k + 1..], insert, k + 2))
          == errors + [ErrorLine(k + 1, m)] + ErrorLines(bs[k + 1..], insert, k + 2);
  }

  lemma {:induction false} BatchNumber(k: nat)
    ensures (k * BatchSize) / BatchSize + 1 == k + 1
  {
  }

  /** The positions of the slices the database refused. */
  function FailedAt(bs: seq<seq<Record>>, insert: seq<Record> -> Outcome): set<nat>
  {
    set k | 0 <= k < |bs| && insert(bs[k]).Failed?
  }

  /** Every failed slice is reported once, and nothing else is. */
  lemma {:induction false} ErrorLinesCount(bs: seq<seq<Record>>, insert: seq<Record> -> Outcome, first: nat)
    ensures |ErrorLines(bs, insert, first)| == |FailedAt(bs, insert)|
    decreases |bs|
  {
    if bs != [] {
      var tail := FailedAt(bs[1..], insert);
      ErrorLinesCount(bs[1..], insert, first + 1);
      ShiftCard(tail);
      FailedAtSplit(bs, insert);
      if insert(bs[0]).Failed? {
        assert |Shift(tail) + {0}| == |Shift(tail)| + 1;
      }
    }
  }

  /** The failures of a list are its first slice's, if it failed, and the rest's one position on. */
  lemma {:induction false} FailedAtSplit(bs: seq<seq<Record>>, insert: seq<Record> -> Outcome)
    requires bs != []
    ensures 0 !in Shift(FailedAt(bs[1..], insert))
    ensures insert(bs[0]).Failed? ==> FailedAt(bs, insert) == Shift(FailedAt(bs[1..], insert)) + {0}
    ensures insert(bs[0]).Inserted? ==> FailedAt(bs, insert) == Shift(FailedAt(bs[1..], insert))
  {
    var tail := FailedAt(bs[1..], insert);
    var all := FailedAt(bs, insert);
    var shifted := Shift(tail);
    assert all - {0} == shifted by {
      forall k | k in all - {0}
        ensures k in shifted
      {
        assert bs[1..][k - 1] == bs[k];
        assert k - 1 in tail;
      }
    }
    if insert(bs[0]).Failed? {
      assert all == shifted + {0};
    } else {
      assert all == shifted;
    }
  }

  /** The positions of `s`, each one further on. */
  function Shift(s: set<nat>): (r: set<nat>)
  {
    set k | k in s :: k + 1
  }

  lemma {:induction false} ShiftCard(s: set<nat>)
    ensures |Shift(s)| == |s|
    decreases |s|
  {
    if s != {} {
      var x :| x in s;
      var img := Shift(s);
      var smaller := Shift(s - {x});
      ShiftCard(s - {x});
      assert |smaller| == |s - {x}|;
      assert img == smaller + {x + 1} by {
        forall y | y in img
          ensures y in smaller + {x + 1}
        {
          var k :| k in s && y == k + 1;
          if k != x {
            assert k in s - {x};
          }
        }
        assert x + 1 in img;
      }
      assert x + 1 !in smaller;
      assert |img| == |smaller| + 1;
      assert |s - {x}| == |s| - 1;
    }
  }

  /** With no failure, the append loop logs nothing. */
  lemma {:induction false} NoFailureNoErrors(bs: seq<seq<Record>>, insert: seq<Record> -> Outcome, first: nat)
    requires forall k :: 0 <= k < |bs| ==> insert(bs[k]).Inserted?
    ensures ErrorLines(bs, insert, first) == []
    decreases |bs|
  {
    if bs != [] {
      assert insert(bs[0]).Inserted?;
      NoFailureNoErrors(bs[1..], insert, first + 1);
    }
  }

  // ---------------------------------------------------------------- create mode

  /** Create mode ends with the row total, or with the message of the first failure. */
  datatype CreateResult = Created(total: nat) | Aborted(message: string)

  /** The first failing slice's message, if any. */
  function FirstFailure(bs: seq<seq<Record>>, insert: seq<Record> -> Outcome): (r: CreateResult)
    ensures r.Created? <==> forall k :: 0 <= k < |bs| ==> insert(bs[k]).Inserted?
    ensures r.Created? ==> r.total == InsertedTotal(bs, insert)
    ensures r.Aborted? ==> FailsFirstAt(bs, insert, r.message)
  {
    if bs == [] then Created(0)
    else
      match insert(bs[0])
      case Failed(m) =>
        assert insert(bs[0]) == Failed(m);
        Aborted(m)
      case Inserted(k) =>
        match FirstFailure(bs[1..], insert)
        case Aborted(m) =>
          FailsLater(bs, insert, m);
          Aborted(m)
        case Created(n) =>
          assert forall j :: 1 <= j < |bs| ==> bs[j] == bs[1..][j - 1];
          Created(k + n)
  }

  /** Some slice fails with `message`, and every slice before it is inserted. */
  predicate FailsFirstAt(bs: seq<seq<Record>>, insert: seq<Record> -> Outcome, message: string) {
    exists k :: 0 <= k < |bs| && insert(bs[k]) == Failed(message)
      && forall j :: 0 <= j < k ==> insert(bs[j]).Inserted?
  }

  /** A first failure after an inserted first slice is the first failure of the whole list. */
  lemma {:induction false} FailsLater(bs: seq<seq<Record>>, insert: seq<Record> -> Outcome, message: string)
    requires bs != [] && insert(bs[0]).Inserted?
    requires FailsFirstAt(bs[1..], insert, message)
    ensures FailsFirstAt(bs, insert, message)
  {
    var k :| 0 <= k < |bs[1..]| && insert(bs[1..][k]) == Failed(message)
      && forall j :: 0 <= j < k ==> insert(bs[1..][j]).Inserted?;
    assert insert(bs[k + 1]) == Failed(message);
    forall j | 0 <= j < k + 1
      ensures insert(bs[j]).Inserted?
    {
      if j > 0 {
        assert bs[j] == bs[1..][j - 1];
      }
    }
  }

  /** The create loop: slices are sent in order and the first failure stops it. */
  method CreateRecords(records: seq<Record>, insert: seq<Record> -> Outcome) returns (r: CreateResult)
    ensures r == FirstFailure(Batches(records, BatchSize), insert)
  {
    var total := 0;
    var i := 0;
    ghost var bs := Batches(records, BatchSize);
    ghost var k := 0;
    while i < |records|
      invariant i <= |records| && k <= |bs|
      invariant BatchesFrom(records, i, BatchSize) == bs[k..]
      invariant FirstFailure(bs, insert)
             == match FirstFailure(bs[k..], insert)
                case Created(n) => Created(total + n)
                case Aborted(m) => Aborted(m)
      decreases |records| - i
    {
      var batch := Slice(records, i, BatchSize);
      NextBatch(records, i, batch, bs, k);
      match insert(batch) {
        case Failed(m) =>
          return Aborted(m);
        case Inserted(n) =>
          total := total + n;
      }
      i := i + |batch|;
      k := k + 1;
    }
    r := Created(total);
  }

  /** When one slice fails in create mode, the import ends with an error. */
  lemma {:induction false} CreateAbortsOnFailure(records: seq<Record>, insert: seq<Record> -> Outcome, k: nat)
    requires k < |Batches(records, BatchSize)| && insert(Batches(records, BatchSize)[k]).Failed?
    ensures FirstFailure(Batches(records, BatchSize), insert).Aborted?
  {
  }
}
