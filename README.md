# Nearest CSV point to a browser location: a Dafny model of the data pipeline in `app.py`

`app.py` is a Streamlit page. It shows points from CSV files in a `data`
directory on a map, and it reports the point nearest to the browser's GPS
position. Apart from the UI, the page runs a small pipeline, and this project
models that pipeline and proves properties of it:

1. **Listing** (`listing.dfy`). The directory entries whose names end in `.csv`
   are kept, in listing order. If the directory is missing, the list is empty
   (`Page.Options`).
2. **Ingestion** (`ingestion.dfy`). Each selected file is handled on its own, in
   order:
   - an unreadable file gives a `ReadFailed` warning;
   - a file without a `Lat` or a `Lon` column gives a `MissingCoordinateColumns`
     warning;
   - in any other file, both columns are coerced to numbers, and every row
     where either one is missing is dropped.
   The frames that remain are concatenated in order into the master table.
   `Ingestion.Ingest` is the loop itself. The functions `Frames`, `Warnings`
   and `Master` specify it, and the lemmas are stated about those functions.
3. **Nearest query** (`nearest.dfy`). A query runs only when the location's
   latitude and longitude are both truthy. Python truthiness means a
   coordinate that is `None` or `0` counts as no location. A distance is
   computed for every row. The answer is the row at `idxmin`, which is the
   first position holding the least distance.
4. **Page** (`page.dfy`). `RunPage` chains these steps and says what the page
   ends in: no CSV files, nothing selected, no valid data, or the table
   together with the nearest point when a location is known.

The model takes these as inputs:
- the directory listing (`None` stands for `FileNotFoundError`);
- the files chosen in the multiselect widget;
- the result of `pd.read_csv` for each name (`Unreadable(cause)` or
  `Table(columns, rows)`, with a row given as a map from column to cell text);
- the numeric coercion `pd.to_numeric(errors='coerce')`, as an abstract
  `string -> Option<real>`;
- the location dictionary from the geolocation component;
- `calculate_distance`, as an abstract function of four reals.

Because distance is abstract, the argmin, filtering and ordering proofs hold
for any distance function.

The code applies no latitude/longitude range check to rows, tags no row with
the file it came from, and skips a file that lacks either `Lat` or `Lon`. The
model does the same.

The guard at app.py:72 tests only that some frame was appended. The model
keeps that test as `Page.AttemptsQueryAsWritten`. `Page.RunPage` instead
tests that the master table has a row (see Findings).

## Model

| member | source | states |
|---|---|---|
| `Listing.CsvFiles` | app.py:40 | a name is kept iff it is a directory entry ending in ".csv"; no more names than entries |
| `Listing.CsvFilesAppend` | app.py:40 | filtering a concatenated listing is concatenating the filtered parts, so kept names stay in listing order |
| `Listing.CsvFilesOfOne` | app.py:40 | a single entry is kept exactly when it ends in ".csv" |
| `Page.Options` | app.py:38-43 | a missing data directory gives no options; otherwise the options are exactly the ".csv" entries |
| `Page.OpenSelected` | app.py:56-59 | one file per selected name, in selection order, carrying that name and what reading that name gives |
| `Ingestion.Coerce` | app.py:62-63 | a coordinate is the parse of its cell, and missing when the cell is empty; the other columns are exactly the record's columns other than `Lat`/`Lon`, each with its cell unchanged |
| `Ingestion.WarningOf` | app.py:61-69 | a file gives at most one warning, and none iff it is accepted; an unreadable file gives ReadFailed with its cause, and a table without both columns gives MissingCoordinateColumns |
| `Ingestion.OneOutcomePerFile` | app.py:56-69 | every file either appends one frame or yields one warning, never both |
| `Ingestion.DropMissing` | app.py:64 | a row is kept iff it is an input row with both coordinates present; never more rows than given |
| `Ingestion.DropMissingAppend` | app.py:64 | dropping rows keeps the relative order of the rows that remain |
| `Ingestion.SurvivorsAreCoercedRecords` | app.py:62-64 | a record survives iff both `Lat` and `Lon` coerce to numbers; every survivor has both coordinates and carries its record's other columns unchanged |
| `Ingestion.SurvivorsAppend` | app.py:62-64 | a file's survivors are its records' survivors in file order |
| `Ingestion.SurvivorsOfOne` | app.py:62-64 | one record yields its coerced row when both coordinates parse and nothing otherwise |
| `Ingestion.Ingest` | app.py:54-69 | the loop leaves exactly the specified frames (accepted files' survivors in order) and the specified warnings |
| `Ingestion.FramesAppend` | app.py:56-65 | the frames of two file lists processed in turn are the frames of each, in order |
| `Ingestion.WarningsAppend` | app.py:56-69 | the warnings of two file lists processed in turn are the warnings of each, in order |
| `Ingestion.ConcatAppend` | app.py:73 | concatenating frames keeps their order: frames of a then of b give the rows of a then of b |
| `Ingestion.ConcatContents` | app.py:73 | every row of every frame is in the concatenation, and every row of the concatenation comes from some frame |
| `Ingestion.FramesFromFiles` | app.py:56-65 | each appended frame is the survivors of one accepted file |
| `Ingestion.MasterRowsFromFiles` | app.py:56-73 | every row of the master table is a survivor of some accepted file |
| `Ingestion.MasterAppend` | app.py:56-73 | the master table of a + b is the master table of a followed by that of b |
| `Ingestion.MasterOfOne` | app.py:58-73 | one file alone contributes its survivors (when accepted) and its own warning |
| `Ingestion.IngestOneFile` | app.py:56-73 | whatever one file holds, the files before and after it contribute exactly what they would alone; processing never aborts |
| `Ingestion.MissingColumnsSkipped` | app.py:61-67 | a file lacking `Lat` or `Lon` adds zero rows and exactly one MissingCoordinateColumns warning, and the later files still load |
| `Ingestion.UnreadableSkipped` | app.py:58-69 | a file whose read raises adds zero rows and exactly one ReadFailed warning with its cause, and the later files still load |
| `Ingestion.AcceptedFileAdded` | app.py:61-73 | an accepted file adds its survivors as one contiguous block in file order and no warning |
| `Ingestion.MasterLength` | app.py:73-74 | the master table's length is the sum of the rows each file contributes |
| `Ingestion.MasterHasCoordinates` | app.py:62-73 | every row of the master table has both coordinates |
| `Nearest.ObserverOf` | app.py:100 | there is an observer iff neither coordinate is None or 0 (the same test as line 79), and it carries the given coordinates |
| `Nearest.RowDistanceIgnoresExtra` | app.py:112 | a row's distance depends only on its `Lat`/`Lon`, not on its other columns |
| `Nearest.DistanceColumn` | app.py:111-113 | one distance per row, in row order, each computed from the observer to that row |
| `Nearest.FirstMinimumUnique` | app.py:114 | at most one position is the first minimum, so idxmin is determined by the column |
| `Nearest.IdxMin` | app.py:114 | on a non-empty column returns the first position of the least value; none for an empty column |
| `Nearest.NearestUnique` | app.py:111-114 | two results that are both nearest in the sense of IsNearest are equal (the query is deterministic) |
| `Nearest.NearestPoint` | app.py:111-120 | no result iff the table is empty; otherwise a row of the table at its index, its reported distance is its own computed distance, no row is closer, and every earlier row is strictly farther |
| `Page.AsWrittenQueriesEmptyTable` | app.py:61-72 | a file with both coordinate columns and no rows, plus a location, passes the guard as written while the master table is empty |
| `Page.QueryGuards` | app.py:72-100 | the written guard holds iff a frame was appended and neither coordinate is None or 0; the corrected guard holds iff the master table has a row and neither coordinate is None or 0 |
| `Page.GuardsDifferOnlyOnEmptyMaster` | app.py:72 | the corrected guard implies the written one; they differ only when the master table is empty |
| `Page.RunPage` | app.py:38-120 | the run has no options iff no ".csv" entry exists; nothing is selected iff the selection is empty; there is no valid data iff the master table is empty; otherwise the run shows the loaded master table and warnings, runs a query iff a location is known, and reports the nearest row |

## Left out

- Streamlit UI: page setup, title, multiselect and its default, spinner, success/info/warning texts, metrics, expander and dataframe display (app.py:12, 34-35, 46-50, 74, 83, 116-131). The warnings are modelled as values, not as message text.
- folium: the map, circle markers with popup HTML, the user marker, and `st_folium` (app.py:85-108, 123). These are rendering.
- Map centring (app.py:79-82): only its guard is modelled, as `Nearest.ObserverOf`. The column mean is floating-point averaging.
- `Page.Options`: models only `FileNotFoundError` from `os.listdir` (app.py:41). Other exceptions, such as PermissionError or NotADirectoryError, are not caught at app.py:38-43 and end the script. The model has no outcome for them.
- `os.listdir` and `pd.read_csv` (app.py:40, 59) are I/O. Their results are inputs. The listing order is whatever the input gives.
- `pd.to_numeric(errors='coerce')` internals are a foreign library. It is an abstract `string -> Option<real>` parameter, so NaN and infinity are not modelled. A cell absent from a row's map stands for an empty CSV cell and counts as missing.
- The haversine arithmetic of `calculate_distance` (app.py:18-30) is floating-point trigonometry. Distance is an abstract function parameter, so symmetry, identity and non-negativity are not proved.
- `Nearest.IdxMin`: pandas' skipping of NaN values is not modelled, because distances are reals and never NaN.
- `Nearest.NearestPoint`: returns the distance column's value for the chosen row. It does not add a `distance_to_user` column to the master table that is later displayed (app.py:111, 127).
- `streamlit_geolocation` (app.py:76) is a browser component. Its dictionary is an input with two optional coordinates.
- pandas' renaming of duplicate column headers and the order of the other columns: a row's other columns are a map.
- Row labels: because of `ignore_index=True`, a label is the row's position, so rows are indexed by position.

## Findings

| source | as written | input that shows it | evidently intended | confidence | as-written member | corrected member |
|---|---|---|---|---|---|---|
| app.py:72 | `if all_data_frames:` only tests whether some frame was appended. A file with `Lat` and `Lon` columns but no usable row appends an empty frame, so `master_data` can be empty, and line 114 then runs `idxmin` on an empty column, which raises. With no location, the same input also plausibly fails: line 82 takes the mean of an empty `Lat` column, which is NaN, and line 85 passes it to `folium.Map` as the map centre. | one selected file whose header is `Lat,Lon` with no rows (or only rows whose coordinates do not parse), and a browser location (35.0, 139.0); for the second path, the same file and no location | test that the master table has a row, so that the "no valid data" warning of line 129 is shown instead | medium, not executed | `Page.AsWrittenQueriesEmptyTable` (about `Page.AttemptsQueryAsWritten`) | `Page.RunPage` (guard `Page.AttemptsQuery`) |
