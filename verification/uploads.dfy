/**
 * `allowed_file` (app.py:65-68): an upload is accepted when its name has a
 * dot and the text after the last dot, lower-cased, is `csv`, `xlsx` or `xls`.
 */
module Uploads {
  import opened Strings
  import opened Wrappers

  /** `ALLOWED_EXTENSIONS` (app.py:44). */
  const AllowedExtensions: set<string> := {"csv", "xlsx", "xls"}

  /** The position of the last occurrence of `c` in `s`. */
  function LastIndexOf(s: string, c: char): (r: Option<nat>)
    ensures r.None? <==> c !in s
    ensures r.Some? ==> r.value < |s| && s[r.value] == c && c !in s[r.value + 1..]
    decreases |s|
  {
    if s == [] then None
    else if s[|s| - 1] == c then Some(|s| - 1)
    else
      match LastIndexOf(s[..|s| - 1], c)
      case None =>
        assert s == s[..|s| - 1] + [s[|s| - 1]];
        None
      case Some(k) =>
        assert s[k + 1..] == s[..|s| - 1][k + 1..] + [s[|s| - 1]];
        Some(k)
  }

  /** `filename.rsplit('.', 1)[1]` for a name that has a dot. */
  function Extension(filename: string): (r: string)
    requires '.' in filename
    ensures '.' !in r && |r| < |filename|
  {
    var k := LastIndexOf(filename, '.').value;
    filename[k + 1..]
  }

  /**
   * `allowed_file(filename)`. Only ASCII letters are lower-cased: no other
   * character lower-cases to a letter of `csv`, `xlsx` or `xls`.
   */
  predicate AllowedFile(filename: string) {
    '.' in filename && LowerAscii(Extension(filename)) in AllowedExtensions
  }

  /**
   * A name is accepted exactly when it splits at some dot into a stem and a
   * dot-free extension that lower-cases to an allowed one.
   */
  lemma {:induction false} AllowedFileIff(filename: string)
    ensures AllowedFile(filename) <==>
      exists k :: 0 <= k < |filename| && filename[k] == '.' && '.' !in filename[k + 1..]
        && LowerAscii(filename[k + 1..]) in AllowedExtensions
  {
    if AllowedFile(filename) {
      var k := LastIndexOf(filename, '.').value;
      assert filename[k + 1..] == Extension(filename);
    } else {
      forall k | 0 <= k < |filename| && filename[k] == '.' && '.' !in filename[k + 1..]
        ensures LowerAscii(filename[k + 1..]) !in AllowedExtensions
      {
        LastDotUnique(filename, k);
      }
    }
  }

  /** A dot with no dot after it is the last dot. */
  lemma {:induction false} LastDotUnique(s: string, k: nat)
    requires k < |s| && s[k] == '.' && '.' !in s[k + 1..]
    ensures LastIndexOf(s, '.') == Some(k)
  {
  }

  /** Case does not matter: `DATA.CSV` is accepted like `data.csv`. */
  lemma {:induction false} AllowedFileCase(stem: string)
    ensures AllowedFile(stem + ".CSV") && AllowedFile(stem + ".csv")
  {
    SampleExtensions();
    assert stem + ".CSV" == stem + "." + "CSV";
    AllowedByExtension(stem, "CSV");
    assert stem + ".csv" == stem + "." + "csv";
    AllowedByExtension(stem, "csv");
  }

  /** Only the last extension counts, and a name without a dot is refused. */
  lemma {:induction false} RefusedNames(stem: string)
    requires '.' !in stem
    ensures !AllowedFile(stem + ".csv.txt")
    ensures !AllowedFile(stem)
  {
    SampleExtensions();
    assert stem + ".csv.txt" == (stem + ".csv") + "." + "txt";
    AllowedByExtension(stem + ".csv", "txt");
  }

  lemma {:induction false} SampleExtensions()
    ensures LowerAscii("CSV") in AllowedExtensions && LowerAscii("csv") in AllowedExtensions
    ensures LowerAscii("txt") !in AllowedExtensions
  {
    assert LowerAscii("CSV") == "csv" by {
      assert LowerAscii("CSV")[0] == 'c' && LowerAscii("CSV")[1] == 's' && LowerAscii("CSV")[2] == 'v';
    }
    assert LowerAscii("csv") == "csv" by {
      assert LowerAscii("csv")[0] == 'c' && LowerAscii("csv")[1] == 's' && LowerAscii("csv")[2] == 'v';
    }
    assert LowerAscii("txt") == "txt" by {
      assert LowerAscii("txt")[0] == 't' && LowerAscii("txt")[1] == 'x' && LowerAscii("txt")[2] == 't';
    }
  }

  /** The extension of `stem.ext` is `ext` when `ext` has no dot. */
  lemma {:induction false} AllowedByExtension(stem: string, ext: string)
    requires '.' !in ext
    ensures AllowedFile(stem + "." + ext) <==> LowerAscii(ext) in AllowedExtensions
  {
    var s := stem + "." + ext;
    assert s[|stem|] == '.' && s[|stem| + 1..] == ext;
    LastDotUnique(s, |stem|);
  }
}
