/**
 * Choosing the data files: of the entries of the data directory, keep those
 * whose name ends in ".csv", in listing order (app.py, line 40).
 */
module Listing {

  const CsvSuffix: string := ".csv"

  /** Python's str.endswith: a case-sensitive suffix test. */
  predicate EndsWith(s: string, suffix: string)
  {
    |suffix| <= |s| && s[|s| - |suffix|..] == suffix
  }

  /** The list comprehension `[f for f in entries if f.endswith('.csv')]`. */
  function CsvFiles(entries: seq<string>): (r: seq<string>)
    ensures |r| <= |entries|
    ensures forall x :: x in r <==> x in entries && EndsWith(x, CsvSuffix)
  {
    if entries == [] then []
    else (if EndsWith(entries[0], CsvSuffix) then [entries[0]] else []) + CsvFiles(entries[1..])
  }

  /** One entry is kept exactly when it is a ".csv" name. */
  lemma CsvFilesOfOne(x: string)
    ensures CsvFiles([x]) == if EndsWith(x, CsvSuffix) then [x] else []
  {
  }

  /**
   * The filter distributes over concatenation of listings; with CsvFilesOfOne
   * this says the kept names appear in the order of the listing.
   */
  lemma {:induction false} CsvFilesAppend(a: seq<string>, b: seq<string>)
    ensures CsvFiles(a + b) == CsvFiles(a) + CsvFiles(b)
  {
    if a == [] {
      assert a + b == b;
    } else {
      assert (a + b)[0] == a[0];
      assert (a + b)[1..] == a[1..] + b;
      CsvFilesAppend(a[1..], b);
    }
  }
}
