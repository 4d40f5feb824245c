/**
 * Loading the selected CSV files into one table (app.py, lines 54-73).
 *
 * Each file is read independently and in order. An unreadable file, or one
 * without both a `Lat` and a `Lon` column, adds a warning and no rows. For the
 * others both coordinate columns are coerced to numbers (a failure becomes a
 * missing value) and every row with a missing coordinate is dropped. The
 * surviving frames are concatenated in file order and renumbered 0..n-1.
 */
module Ingestion {
  import opened Wrappers

  /** One CSV record: column name to raw cell text; an absent column is an empty cell. */
  type RawRow = map<string, string>

  /** `pd.to_numeric(..., errors='coerce')` on one cell, left abstract. */
  type Parser = string -> Option<real>

  const LatColumn: string := "Lat"
  const LonColumn: string := "Lon"

  /** What `pd.read_csv` gives for one file: an exception, or a header and rows. */
  datatype SourceFile = Unreadable(cause: string) | Table(columns: seq<string>, rows: seq<RawRow>)

  datatype NamedFile = NamedFile(name: string, file: SourceFile)

  /** A row after coercion: both coordinates, possibly missing, and the other columns untouched. */
  datatype Row = Row(lat: Option<real>, lon: Option<real>, extra: map<string, string>)

  /** The two `st.warning` messages of the loading loop. */
  datatype Warning = MissingCoordinateColumns(file: string) | ReadFailed(file: string, cause: string)

  predicate HasCoordinates(r: Row)
  {
    r.lat.Some? && r.lon.Some?
  }

  predicate HasCoordinateColumns(columns: seq<string>)
  {
    LatColumn in columns && LonColumn in columns
  }

  /** A file that is appended to the list of frames. */
  predicate Accepted(f: NamedFile)
  {
    f.file.Table? && HasCoordinateColumns(f.file.columns)
  }

  /** Coercion of one cell of a coordinate column; an empty cell is already missing. */
  function ToNumeric(raw: RawRow, column: string, parse: Parser): Option<real>
  {
    if column in raw then parse(raw[column]) else None
  }

  /**
   * One record after the two column overwrites `df['Lat'] = ...`, `df['Lon'] = ...`:
   * a coordinate is the parse of its cell, or missing when the cell is empty,
   * and every other column keeps its cell.
   */
  function Coerce(raw: RawRow, parse: Parser): (r: Row)
    ensures LatColumn !in raw ==> r.lat == None
    ensures LonColumn !in raw ==> r.lon == None
    ensures LatColumn in raw ==> r.lat == parse(raw[LatColumn])
    ensures LonColumn in raw ==> r.lon == parse(raw[LonColumn])
    ensures r.extra.Keys == raw.Keys - {LatColumn, LonColumn}
    ensures forall c :: c in r.extra ==> r.extra[c] == raw[c]
  {
    Row(ToNumeric(raw, LatColumn, parse), ToNumeric(raw, LonColumn, parse), raw - {LatColumn, LonColumn})
  }

  function CoerceColumns(rows: seq<RawRow>, parse: Parser): seq<Row>
  {
    seq(|rows|, i requires 0 <= i < |rows| => Coerce(rows[i], parse))
  }

  /** `dropna(subset=['Lat', 'Lon'])`: keep exactly the rows with both coordinates, in order. */
  function DropMissing(rows: seq<Row>): (d: seq<Row>)
    ensures |d| <= |rows|
    ensures forall r :: r in d <==> r in rows && HasCoordinates(r)
  {
    if rows == [] then []
    else (if HasCoordinates(rows[0]) then [rows[0]] else []) + DropMissing(rows[1..])
  }

  /** The frame an accepted file contributes. */
  function Survivors(rows: seq<RawRow>, parse: Parser): seq<Row>
  {
    DropMissing(CoerceColumns(rows, parse))
  }

  /** The rows one file adds to the master table. */
  function Contribution(f: NamedFile, parse: Parser): seq<Row>
  {
    if Accepted(f) then Survivors(f.file.rows, parse) else []
  }

  /** The warnings one file adds: one for a skipped file, none for an accepted one. */
  function WarningOf(f: NamedFile): (w: seq<Warning>)
    ensures |w| <= 1
    ensures w == [] <==> Accepted(f)
    ensures f.file.Unreadable? ==> w == [ReadFailed(f.name, f.file.cause)]
    ensures f.file.Table? && !Accepted(f) ==> w == [MissingCoordinateColumns(f.name)]
  {
    match f.file
    case Unreadable(cause) => [ReadFailed(f.name, cause)]
    case Table(columns, _) => if HasCoordinateColumns(columns) then [] else [MissingCoordinateColumns(f.name)]
  }

  /** The list `all_data_frames` after processing `files` in order. */
  function Frames(files: seq<NamedFile>, parse: Parser): seq<seq<Row>>
    decreases |files|
  {
    if files == [] then []
    else
      var f := files[|files| - 1];
      Frames(files[..|files| - 1], parse) + (if Accepted(f) then [Survivors(f.file.rows, parse)] else [])
  }

  /** The warnings shown while processing `files` in order. */
  function Warnings(files: seq<NamedFile>): seq<Warning>
    decreases |files|
  {
    if files == [] then []
    else Warnings(files[..|files| - 1]) + WarningOf(files[|files| - 1])
  }

  /** `pd.concat(frames, ignore_index=True)`: rows in frame order, positions renumbered. */
  function Concat(frames: seq<seq<Row>>): seq<Row>
    decreases |frames|
  {
    if frames == [] then []
    else Concat(frames[..|frames| - 1]) + frames[|frames| - 1]
  }

  /** The master table built from `files`. */
  function Master(files: seq<NamedFile>, parse: Parser): seq<Row>
  {
    Concat(Frames(files, parse))
  }

  /** The sum, over the files, of the number of rows each contributes. */
  function TotalContributed(files: seq<NamedFile>, parse: Parser): nat
    decreases |files|
  {
    if files == [] then 0
    else TotalContributed(files[..|files| - 1], parse) + |Contribution(files[|files| - 1], parse)|
  }

  /** The loading loop of app.py, lines 54-69. */
  method Ingest(files: seq<NamedFile>, parse: Parser) returns (frames: seq<seq<Row>>, warnings: seq<Warning>)
    ensures frames == Frames(files, parse)
    ensures warnings == Warnings(files)
  {
    frames, warnings := [], [];
    for i := 0 to |files|
      invariant frames == Frames(files[..i], parse)
      invariant warnings == Warnings(files[..i])
    {
      assert files[..i + 1][..i] == files[..i];
      var f := files[i];
      match f.file {
        case Unreadable(cause) =>
          warnings := warnings + [ReadFailed(f.name, cause)];
        case Table(columns, rows) =>
          if LatColumn in columns && LonColumn in columns {
            var df := CoerceColumns(rows, parse);
            df := DropMissing(df);
            frames := frames + [df];
          } else {
            warnings := warnings + [MissingCoordinateColumns(f.name)];
          }
      }
    }
    assert files[..|files|] == files;
  }

  // ---------------------------------------------------------------- one file

  /**
   * A record of an accepted file survives iff both of its coordinates coerce to
   * numbers; every survivor is the coercion of some record, so it has both
   * coordinates and carries that record's other columns unchanged.
   */
  lemma SurvivorsAreCoercedRecords(rows: seq<RawRow>, parse: Parser)
    ensures forall i :: 0 <= i < |rows| ==>
      (Coerce(rows[i], parse) in Survivors(rows, parse) <==>
        ToNumeric(rows[i], LatColumn, parse).Some? && ToNumeric(rows[i], LonColumn, parse).Some?)
    ensures forall r :: r in Survivors(rows, parse) ==>
      HasCoordinates(r) &&
      exists i :: 0 <= i < |rows| && r == Coerce(rows[i], parse) && r.extra == rows[i] - {LatColumn, LonColumn}
  {
    var c := CoerceColumns(rows, parse);
    forall r | r in Survivors(rows, parse)
      ensures exists i :: 0 <= i < |rows| && r == Coerce(rows[i], parse) && r.extra == rows[i] - {LatColumn, LonColumn}
    {
      assert r in c;
      var i :| 0 <= i < |c| && c[i] == r;
      assert r == Coerce(rows[i], parse);
    }
    forall i | 0 <= i < |rows|
      ensures Coerce(rows[i], parse) in Survivors(rows, parse) <==>
        ToNumeric(rows[i], LatColumn, parse).Some? && ToNumeric(rows[i], LonColumn, parse).Some?
    {
      assert c[i] == Coerce(rows[i], parse);
    }
  }

  /** Dropping rows keeps the relative order of the records that remain. */
  lemma {:induction false} DropMissingAppend(a: seq<Row>, b: seq<Row>)
    ensures DropMissing(a + b) == DropMissing(a) + DropMissing(b)
  {
    if a == [] {
      assert a + b == b;
    } else {
      assert (a + b)[0] == a[0];
      assert (a + b)[1..] == a[1..] + b;
      DropMissingAppend(a[1..], b);
    }
  }

  /** A file's survivors are its records' survivors one after another, in file order. */
  lemma SurvivorsAppend(a: seq<RawRow>, b: seq<RawRow>, parse: Parser)
    ensures Survivors(a + b, parse) == Survivors(a, parse) + Survivors(b, parse)
    ensures Survivors([], parse) == []
  {
    assert CoerceColumns(a + b, parse) == CoerceColumns(a, parse) + CoerceColumns(b, parse);
    DropMissingAppend(CoerceColumns(a, parse), CoerceColumns(b, parse));
  }

  /** A single record survives exactly when both coordinates coerce. */
  lemma SurvivorsOfOne(raw: RawRow, parse: Parser)
    ensures Survivors([raw], parse) ==
      if ToNumeric(raw, LatColumn, parse).Some? && ToNumeric(raw, LonColumn, parse).Some?
      then [Coerce(raw, parse)] else []
  {
  }

  // ------------------------------------------------------------- many files

  lemma {:induction false} FramesAppend(a: seq<NamedFile>, b: seq<NamedFile>, parse: Parser)
    ensures Frames(a + b, parse) == Frames(a, parse) + Frames(b, parse)
    decreases |b|
  {
    if b == [] {
      assert a + b == a;
    } else {
      var n := |b|;
      assert (a + b)[..|a + b| - 1] == a + b[..n - 1];
      assert (a + b)[|a + b| - 1] == b[n - 1];
      FramesAppend(a, b[..n - 1], parse);
    }
  }

  lemma {:induction false} WarningsAppend(a: seq<NamedFile>, b: seq<NamedFile>)
    ensures Warnings(a + b) == Warnings(a) + Warnings(b)
    decreases |b|
  {
    if b == [] {
      assert a + b == a;
    } else {
      var n := |b|;
      assert (a + b)[..|a + b| - 1] == a + b[..n - 1];
      assert (a + b)[|a + b| - 1] == b[n - 1];
      WarningsAppend(a, b[..n - 1]);
    }
  }

  lemma {:induction false} ConcatAppend(x: seq<seq<Row>>, y: seq<seq<Row>>)
    ensures Concat(x + y) == Concat(x) + Concat(y)
    decreases |y|
  {
    if y == [] {
      assert x + y == x;
    } else {
      var n := |y|;
      assert (x + y)[..|x + y| - 1] == x + y[..n - 1];
      assert (x + y)[|x + y| - 1] == y[n - 1];
      ConcatAppend(x, y[..n - 1]);
    }
  }

  /** Concatenation loses no row and invents none. */
  lemma {:induction false} ConcatContents(frames: seq<seq<Row>>)
    ensures forall k, i :: 0 <= k < |frames| && 0 <= i < |frames[k]| ==> frames[k][i] in Concat(frames)
    ensures forall x :: x in Concat(frames) ==> exists k :: 0 <= k < |frames| && x in frames[k]
    decreases |frames|
  {
    if frames != [] {
      var n := |frames|;
      var front := frames[..n - 1];
      ConcatContents(front);
      assert Concat(frames) == Concat(front) + frames[n - 1];
      assert forall k :: 0 <= k < |front| ==> front[k] == frames[k];
    }
  }

  /** Loading the files of `a`, then those of `b`, extends the master table block by block. */
  lemma MasterAppend(a: seq<NamedFile>, b: seq<NamedFile>, parse: Parser)
    ensures Master(a + b, parse) == Master(a, parse) + Master(b, parse)
  {
    FramesAppend(a, b, parse);
    ConcatAppend(Frames(a, parse), Frames(b, parse));
  }

  lemma MasterOfOne(f: NamedFile, parse: Parser)
    ensures Master([f], parse) == Contribution(f, parse)
    ensures Warnings([f]) == WarningOf(f)
  {
    assert [f][..0] == [] && [f][0] == f;
    var fr := Frames([f], parse);
    assert Frames([], parse) == [];
    var last: seq<seq<Row>> := if Accepted(f) then [Survivors(f.file.rows, parse)] else [];
    assert fr == Frames([], parse) + last;
    assert fr == last;
    assert Concat(last) == Concat([]) + Contribution(f, parse) by {
      if Accepted(f) { assert last[..0] == []; }
    }
  }

  /**
   * Each file is handled independently: whatever it holds, the files before
   * and after it contribute exactly what they would on their own.
   */
  lemma IngestOneFile(before: seq<NamedFile>, f: NamedFile, after: seq<NamedFile>, parse: Parser)
    ensures Master(before + [f] + after, parse) == Master(before, parse) + Contribution(f, parse) + Master(after, parse)
    ensures Warnings(before + [f] + after) == Warnings(before) + WarningOf(f) + Warnings(after)
  {
    MasterAppend(before + [f], after, parse);
    MasterAppend(before, [f], parse);
    WarningsAppend(before + [f], after);
    WarningsAppend(before, [f]);
    MasterOfOne(f, parse);
  }

  /** A file without a `Lat` or a `Lon` column adds no rows and one warning. */
  lemma MissingColumnsSkipped(before: seq<NamedFile>, f: NamedFile, after: seq<NamedFile>, parse: Parser)
    requires f.file.Table? && (LatColumn !in f.file.columns || LonColumn !in f.file.columns)
    ensures Master(before + [f] + after, parse) == Master(before, parse) + Master(after, parse)
    ensures Warnings(before + [f] + after) == Warnings(before) + [MissingCoordinateColumns(f.name)] + Warnings(after)
  {
    IngestOneFile(before, f, after, parse);
  }

  /** A file whose read fails adds no rows and one warning; the next files are still read. */
  lemma UnreadableSkipped(before: seq<NamedFile>, f: NamedFile, after: seq<NamedFile>, parse: Parser)
    requires f.file.Unreadable?
    ensures Master(before + [f] + after, parse) == Master(before, parse) + Master(after, parse)
    ensures Warnings(before + [f] + after) == Warnings(before) + [ReadFailed(f.name, f.file.cause)] + Warnings(after)
  {
    IngestOneFile(before, f, after, parse);
  }

  /** An accepted file adds its survivors as one contiguous block, in file order, and no warning. */
  lemma AcceptedFileAdded(before: seq<NamedFile>, f: NamedFile, after: seq<NamedFile>, parse: Parser)
    requires f.file.Table? && LatColumn in f.file.columns && LonColumn in f.file.columns
    ensures Master(before + [f] + after, parse) == Master(before, parse) + Survivors(f.file.rows, parse) + Master(after, parse)
    ensures Warnings(before + [f] + after) == Warnings(before) + Warnings(after)
  {
    IngestOneFile(before, f, after, parse);
    assert Contribution(f, parse) == Survivors(f.file.rows, parse);
    var w := WarningOf(f);
    assert w == [] by {
      match f.file
      case Table(columns, _) => assert HasCoordinateColumns(columns);
    }
    assert Warnings(before) + w == Warnings(before);
  }

  /** The master table has as many rows as the files contribute together. */
  lemma {:induction false} MasterLength(files: seq<NamedFile>, parse: Parser)
    ensures |Master(files, parse)| == TotalContributed(files, parse)
    decreases |files|
  {
    if files != [] {
      var n := |files|;
      assert files == files[..n - 1] + [files[n - 1]];
      MasterAppend(files[..n - 1], [files[n - 1]], parse);
      MasterOfOne(files[n - 1], parse);
      MasterLength(files[..n - 1], parse);
    }
  }

  /** Each appended frame is the survivors of one accepted file, taken in order. */
  lemma {:induction false} FramesFromFiles(files: seq<NamedFile>, parse: Parser)
    ensures forall j :: 0 <= j < |Frames(files, parse)| ==>
      exists k :: 0 <= k < |files| && Accepted(files[k]) && Frames(files, parse)[j] == Survivors(files[k].file.rows, parse)
    decreases |files|
  {
    if files != [] {
      var n := |files|;
      var front := files[..n - 1];
      FramesFromFiles(front, parse);
      var fr := Frames(files, parse);
      var p := Frames(front, parse);
      var last: seq<seq<Row>> := if Accepted(files[n - 1]) then [Survivors(files[n - 1].file.rows, parse)] else [];
      assert fr == p + last;
      forall j | 0 <= j < |Frames(files, parse)|
        ensures exists k :: 0 <= k < |files| && Accepted(files[k]) && Frames(files, parse)[j] == Survivors(files[k].file.rows, parse)
      {
        if j < |p| {
          var k :| 0 <= k < |front| && Accepted(front[k]) && p[j] == Survivors(front[k].file.rows, parse);
          assert front[k] == files[k] && fr[j] == p[j];
        } else {
          var k := n - 1;
          assert Accepted(files[k]) && fr[j] == Survivors(files[k].file.rows, parse);
        }
      }
    } else {
      assert Frames(files, parse) == [];
    }
  }

  /** Every row of the master table is a survivor of some accepted file. */
  lemma MasterRowsFromFiles(files: seq<NamedFile>, parse: Parser)
    ensures forall x :: x in Master(files, parse) ==>
      exists k :: 0 <= k < |files| && Accepted(files[k]) && x in Survivors(files[k].file.rows, parse)
  {
    FramesFromFiles(files, parse);
    ConcatContents(Frames(files, parse));
  }

  /** Every file either appends one frame or yields one warning, never both. */
  lemma {:induction false} OneOutcomePerFile(files: seq<NamedFile>, parse: Parser)
    ensures |Frames(files, parse)| + |Warnings(files)| == |files|
    decreases |files|
  {
    if files != [] {
      OneOutcomePerFile(files[..|files| - 1], parse);
    }
  }

  /** Every row of the master table has both coordinates. */
  lemma {:induction false} MasterHasCoordinates(files: seq<NamedFile>, parse: Parser)
    ensures forall i :: 0 <= i < |Master(files, parse)| ==> HasCoordinates(Master(files, parse)[i])
    decreases |files|
  {
    if files != [] {
      var n := |files|;
      var m := Master(files, parse);
      assert files == files[..n - 1] + [files[n - 1]];
      MasterAppend(files[..n - 1], [files[n - 1]], parse);
      MasterOfOne(files[n - 1], parse);
      MasterHasCoordinates(files[..n - 1], parse);
      forall i | 0 <= i < |m| ensures HasCoordinates(m[i]) {
        var p := Master(files[..n - 1], parse);
        if i >= |p| {
          assert m[i] in Contribution(files[n - 1], parse);
        } else {
          assert m[i] == p[i];
        }
      }
    }
  }
}
