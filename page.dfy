/**
 * The page script of app.py as one decision: list the CSV files (lines 38-43),
 * load the selected ones (lines 53-73), and, when a location is available,
 * report the nearest row (lines 76-120).
 *
 * The selection made in the multiselect widget, the file reader, the numeric
 * parser, the browser location and the distance function are all inputs.
 */
module Page {
  import opened Wrappers
  import opened Listing
  import opened Ingestion
  import opened Nearest

  datatype Query = NoLocation | Found(result: QueryResult)

  /** What one run of the page ends in. */
  datatype PageOutcome =
    | NoCsvFiles
    | NothingSelected
    | NoValidData(warnings: seq<Warning>)
    | Shown(master: seq<Row>, warnings: seq<Warning>, query: Query)

  /** Lines 38-43: `os.listdir` failing with FileNotFoundError leaves no options. */
  function Options(listing: Option<seq<string>>): (r: seq<string>)
    ensures listing.None? ==> r == []
    ensures listing.Some? ==> forall x :: x in r <==> x in listing.value && EndsWith(x, CsvSuffix)
  {
    CsvFiles(if listing.Some? then listing.value else [])
  }

  /** Line 59: `pd.read_csv(os.path.join(DATA_DIR, name))` for each selected name. */
  function OpenSelected(selected: seq<string>, read: string -> SourceFile): (files: seq<NamedFile>)
    ensures |files| == |selected|
    ensures forall i :: 0 <= i < |selected| ==> files[i] == NamedFile(selected[i], read(selected[i]))
  {
    seq(|selected|, i requires 0 <= i < |selected| => NamedFile(selected[i], read(selected[i])))
  }

  /** The guard of the nearest query as written: a frame was appended (line 72) and a location is known (line 100). */
  predicate AttemptsQueryAsWritten(frames: seq<seq<Row>>, loc: Geolocation)
  {
    |frames| > 0 && ObserverOf(loc).Some?
  }

  /** The intended guard: the master table has a row and a location is known. */
  predicate AttemptsQuery(master: seq<Row>, loc: Geolocation)
  {
    |master| > 0 && ObserverOf(loc).Some?
  }

  /**
   * A file that has both coordinate columns but no usable row is appended as an
   * empty frame, so the guard at line 72 lets an empty master table through and
   * the query at line 114 runs `idxmin` on an empty column (where NearestPoint
   * yields None, pandas raises).
   */
  lemma AsWrittenQueriesEmptyTable(parse: Parser)
    ensures var files := [NamedFile("empty.csv", Table([LatColumn, LonColumn], []))];
            var loc := Geolocation(Some(35.0), Some(139.0));
            && AttemptsQueryAsWritten(Frames(files, parse), loc)
            && Master(files, parse) == []
            && !AttemptsQuery(Master(files, parse), loc)
  {
    var f := NamedFile("empty.csv", Table([LatColumn, LonColumn], []));
    assert [f][..0] == [];
    assert Accepted(f);
    assert Survivors([], parse) == [];
    var frames: seq<seq<Row>> := [[]];
    assert Frames([f], parse) == frames;
    assert frames[..0] == [];
    assert Concat(frames) == [];
  }

  /**
   * Both guards in Python's terms: a query needs a frame (as written) or a row
   * (corrected), and a latitude and a longitude that are neither None nor 0.
   */
  lemma QueryGuards(frames: seq<seq<Row>>, loc: Geolocation)
    ensures AttemptsQueryAsWritten(frames, loc) <==>
      frames != [] && loc.latitude !in {None, Some(0.0)} && loc.longitude !in {None, Some(0.0)}
    ensures AttemptsQuery(Concat(frames), loc) <==>
      Concat(frames) != [] && loc.latitude !in {None, Some(0.0)} && loc.longitude !in {None, Some(0.0)}
  {
  }

  /** The two guards differ only on an empty master table built from at least one frame. */
  lemma GuardsDifferOnlyOnEmptyMaster(frames: seq<seq<Row>>, loc: Geolocation)
    ensures AttemptsQuery(Concat(frames), loc) ==> AttemptsQueryAsWritten(frames, loc)
    ensures AttemptsQueryAsWritten(frames, loc) && !AttemptsQuery(Concat(frames), loc) ==> Concat(frames) == []
  {
  }

  /** One run of the page, with the corrected guard. */
  method RunPage(listing: Option<seq<string>>, selected: seq<string>, read: string -> SourceFile,
                 parse: Parser, location: Geolocation, dist: Distance) returns (outcome: PageOutcome)
    requires forall i :: 0 <= i < |selected| ==> selected[i] in Options(listing)
    ensures outcome.NoCsvFiles? <==> Options(listing) == []
    ensures outcome.NothingSelected? <==> Options(listing) != [] && selected == []
    ensures outcome.NoValidData? <==> selected != [] && Master(OpenSelected(selected, read), parse) == []
    ensures outcome.NoValidData? ==> outcome.warnings == Warnings(OpenSelected(selected, read))
    ensures outcome.Shown? ==>
      && selected != []
      && outcome.master == Master(OpenSelected(selected, read), parse)
      && outcome.warnings == Warnings(OpenSelected(selected, read))
      && (outcome.query.Found? <==> AttemptsQuery(outcome.master, location))
    ensures outcome.Shown? && outcome.query.Found? ==>
      && (forall i :: 0 <= i < |outcome.master| ==> HasCoordinates(outcome.master[i]))
      && IsNearest(outcome.master, ObserverOf(location).value, dist, outcome.query.result)
  {
    var options := Options(listing);
    if options == [] {
      return NoCsvFiles;
    }
    if selected == [] {
      return NothingSelected;
    }
    var files := OpenSelected(selected, read);
    var frames, warnings := Ingest(files, parse);
    var master := Concat(frames);
    if master == [] {
      return NoValidData(warnings);
    }
    assert master == Master(files, parse);
    MasterHasCoordinates(files, parse);
    var observer := ObserverOf(location);
    if observer.None? {
      return Shown(master, warnings, NoLocation);
    }
    var nearest := NearestPoint(master, observer.value, dist);
    return Shown(master, warnings, Found(nearest.value));
  }
}
