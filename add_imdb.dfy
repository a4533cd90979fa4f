/** crop/add_imdb.py: for each search result with an aspect ratio and an
    IMDb ID, rewrite the `crop_18_24.csv` cropdetect left beside the disc:
    the header is written afresh and every blank `imdbid` cell is filled
    with the result's IMDb ID. */
module AddImdb {
  import opened Wrappers
  import opened Text
  import opened Library
  import CropDetect

  /** The setting whose file is rewritten: `limit = 18`, `skip = 24`. */
  const Limit: nat := 18
  const Skip: nat := 24

  /** The file name, as cropdetect names it for that setting. */
  function FileName(): string {
    CropDetect.OutputName(Limit, Skip)
  }

  /** The files on disk and their rows: a path is a key exactly when the file
      exists. */
  type Files = map<string, seq<Row>>

  /** `if not r[2]: r[2] = imdb`: a blank cell 2 takes the ID; a row too short
      for `r[2]` raises IndexError. */
  function FillRow(r: Row, id: string): Result<Row> {
    if |r| < 3 then Raise(IndexError)
    else if r[2] == "" then Ok(r[2 := id])
    else Ok(r)
  }

  /** Only cell 2 can change, and only from blank to the ID. */
  lemma FillRowSpec(r: Row, id: string)
    ensures FillRow(r, id).Ok? <==> |r| >= 3
    ensures FillRow(r, id).Raise? ==> FillRow(r, id).exc == IndexError
    ensures FillRow(r, id).Ok? ==>
      var row := FillRow(r, id).value;
      |row| == |r| && (forall j :: 0 <= j < |r| && j != 2 ==> row[j] == r[j])
      && row[2] == (if r[2] == "" then id else r[2])
  {
  }

  /** Filling a filled row changes nothing. */
  lemma FillRowTwice(r: Row, id: string)
    requires FillRow(r, id).Ok?
    ensures FillRow(FillRow(r, id).value, id) == FillRow(r, id)
  {
    if r[2] == "" {
      var row := r[2 := id];
      if id == "" {
        assert row == r;
      }
    }
  }

  /** The data rows, each filled, in order; the first short row raises. */
  function FillRows(rows: seq<Row>, id: string): Result<seq<Row>> {
    if rows == [] then Ok([])
    else
      var prev := FillRows(rows[..|rows| - 1], id);
      if prev.Raise? then prev
      else
        var r := FillRow(rows[|rows| - 1], id);
        if r.Raise? then Raise(r.exc) else Ok(prev.value + [r.value])
  }

  lemma FillRowsSnoc(rows: seq<Row>, i: nat, id: string)
    requires i < |rows|
    ensures FillRows(rows[..i + 1], id) ==
      var prev := FillRows(rows[..i], id);
      if prev.Raise? then prev
      else
        var r := FillRow(rows[i], id);
        if r.Raise? then Raise(r.exc) else Ok(prev.value + [r.value])
  {
    assert rows[..i + 1][..i] == rows[..i];
  }

  /** Row count and order are kept: each output row is its input row filled,
      and the pass fails exactly when some row is too short. */
  lemma {:induction false} FillRowsSpec(rows: seq<Row>, id: string)
    ensures FillRows(rows, id).Ok? <==> forall k :: 0 <= k < |rows| ==> |rows[k]| >= 3
    ensures FillRows(rows, id).Ok? ==>
      var out := FillRows(rows, id).value;
      |out| == |rows| && forall k :: 0 <= k < |rows| ==> FillRow(rows[k], id) == Ok(out[k])
  {
    if rows != [] {
      var init := rows[..|rows| - 1];
      FillRowsSpec(init, id);
      assert forall k :: 0 <= k < |init| ==> init[k] == rows[k];
    }
  }

  /** Filling filled rows changes nothing. */
  lemma FillRowsTwice(rows: seq<Row>, id: string)
    requires FillRows(rows, id).Ok?
    ensures FillRows(FillRows(rows, id).value, id) == FillRows(rows, id)
  {
    var out := FillRows(rows, id).value;
    FillRowsSpec(rows, id);
    forall k | 0 <= k < |out| ensures |out[k]| >= 3 && FillRow(out[k], id) == Ok(out[k]) {
      FillRowSpec(rows[k], id);
      FillRowTwice(rows[k], id);
    }
    FillRowsSpec(out, id);
    var again := FillRows(out, id).value;
    assert again == out by {
      forall k | 0 <= k < |out| ensures again[k] == out[k] {
      }
    }
  }

  /** The file as written back: cropdetect's 13-name header, then the old
      rows after the first, filled. */
  function Rewrite(file: seq<Row>, id: string): Result<seq<Row>> {
    var rows := FillRows(if file == [] then [] else file[1..], id);
    if rows.Raise? then Raise(rows.exc) else Ok([CropDetect.DumpHeader] + rows.value)
  }

  /** The old header is dropped for the fixed one, and every other row
      stays in place, filled. */
  lemma RewriteSpec(file: seq<Row>, id: string)
    requires Rewrite(file, id).Ok?
    ensures var out := Rewrite(file, id).value;
      |out| == (if file == [] then 1 else |file|) && out[0] == CropDetect.DumpHeader
      && forall k :: 1 <= k < |file| ==> FillRow(file[k], id) == Ok(out[k])
  {
    var rows := if file == [] then [] else file[1..];
    FillRowsSpec(rows, id);
    var out := Rewrite(file, id).value;
    forall k | 1 <= k < |file| ensures FillRow(file[k], id) == Ok(out[k]) {
      assert file[k] == rows[k - 1];
    }
  }

  /** Rewriting a rewritten file changes nothing. */
  lemma RewriteTwice(file: seq<Row>, id: string)
    requires Rewrite(file, id).Ok?
    ensures Rewrite(Rewrite(file, id).value, id) == Rewrite(file, id)
  {
    var rows := if file == [] then [] else file[1..];
    var out := Rewrite(file, id).value;
    FillRowsTwice(rows, id);
    assert out[1..] == FillRows(rows, id).value;
  }

  /** One search result: skipped without an aspect ratio or an IMDb ID, or
      when the file is absent; the path is read with `res[...]` (KeyError);
      a failing read leaves the file as it was. */
  function ResultStep(files: Files, res: Fields, libP: string, realP: string): Result<Files> {
    if "Aspect Ratio" !in res || "IMDb ID" !in res then Ok(files)
    else if "Filename (path)" !in res then Raise(KeyError("Filename (path)"))
    else
      var p := JoinPath(TranslatePath(res["Filename (path)"], libP, realP), FileName());
      if p !in files then Ok(files)
      else
        var w := Rewrite(files[p], res["IMDb ID"]);
        if w.Raise? then Raise(w.exc) else Ok(files[p := w.value])
  }

  /** A step touches at most the one file of its result, which it rewrites
      in place of the old; no file is created. */
  lemma ResultStepTouches(files: Files, res: Fields, libP: string, realP: string)
    requires ResultStep(files, res, libP, realP).Ok?
    ensures var out := ResultStep(files, res, libP, realP).value;
      out.Keys == files.Keys
      && (("Aspect Ratio" !in res || "IMDb ID" !in res) ==> out == files)
      && ("Aspect Ratio" in res && "IMDb ID" in res ==>
        var p := JoinPath(TranslatePath(res["Filename (path)"], libP, realP), FileName());
        (forall q :: q in files && q != p ==> out[q] == files[q])
        && (p in files ==> Ok(out[p]) == Rewrite(files[p], res["IMDb ID"])))
  {
  }

  /** Where the pass stands: the files, and the exception that ended it. */
  datatype Pass = Pass(files: Files, failure: Option<Exception>)

  /** The script over the search results, in order. */
  function AddIds(results: seq<Fields>, files: Files, libP: string, realP: string): Pass {
    if results == [] then Pass(files, None)
    else
      var p := AddIds(results[..|results| - 1], files, libP, realP);
      if p.failure.Some? then p
      else
        var s := ResultStep(p.files, results[|results| - 1], libP, realP);
        if s.Raise? then p.(failure := Some(s.exc)) else Pass(s.value, None)
  }

  /** Running the script a second time over what the first left changes
      nothing, when the first ran to the end. */
  lemma {:induction false} StepTwice(files: Files, res: Fields, libP: string, realP: string)
    requires ResultStep(files, res, libP, realP).Ok?
    ensures ResultStep(ResultStep(files, res, libP, realP).value, res, libP, realP) == ResultStep(files, res, libP, realP)
  {
    if "Aspect Ratio" in res && "IMDb ID" in res {
      var p := JoinPath(TranslatePath(res["Filename (path)"], libP, realP), FileName());
      if p in files {
        RewriteTwice(files[p], res["IMDb ID"]);
        var out := ResultStep(files, res, libP, realP).value;
        assert out[p := out[p]] == out;
      }
    }
  }

  lemma AddIdsSnoc(results: seq<Fields>, i: nat, files: Files, libP: string, realP: string)
    requires i < |results|
    ensures AddIds(results[..i + 1], files, libP, realP) ==
      var p := AddIds(results[..i], files, libP, realP);
      if p.failure.Some? then p
      else
        var s := ResultStep(p.files, results[i], libP, realP);
        if s.Raise? then p.(failure := Some(s.exc)) else Pass(s.value, None)
  {
    assert results[..i + 1][..i] == results[..i];
  }

  lemma {:induction false} AddIdsStops(results: seq<Fields>, n: nat, files: Files, libP: string, realP: string)
    requires n <= |results| && AddIds(results[..n], files, libP, realP).failure.Some?
    ensures AddIds(results, files, libP, realP) == AddIds(results[..n], files, libP, realP)
  {
    if n < |results| {
      var init := results[..|results| - 1];
      assert init[..n] == results[..n];
      AddIdsStops(init, n, files, libP, realP);
    } else {
      assert results[..n] == results;
    }
  }

  /** No file is created or removed by the pass. */
  lemma {:induction false} AddIdsKeys(results: seq<Fields>, files: Files, libP: string, realP: string)
    ensures AddIds(results, files, libP, realP).files.Keys == files.Keys
  {
    if results != [] {
      var init := results[..|results| - 1];
      AddIdsKeys(init, files, libP, realP);
      var p := AddIds(init, files, libP, realP);
      if p.failure.None? {
        var s := ResultStep(p.files, results[|results| - 1], libP, realP);
        if s.Ok? {
          ResultStepTouches(p.files, results[|results| - 1], libP, realP);
        }
      }
    }
  }

  /** The read loop: every row after the header, filled in place, in order. */
  method ReadFilled(file: seq<Row>, id: string) returns (rows: Result<seq<Row>>)
    ensures rows == FillRows(if file == [] then [] else file[1..], id)
  {
    var data := if file == [] then [] else file[1..];
    var out: seq<Row> := [];
    var i := 1;
    while i < |file|
      invariant 1 <= i <= |file| || (file == [] && i == 1)
      invariant FillRows(data[..i - 1], id) == Ok(out)
    {
      FillRowsSnoc(data, i - 1, id);
      var r := file[i];
      assert r == data[i - 1];
      if |r| < 3 {
        FillRowsStops(data, i, id);
        return Raise(IndexError);
      }
      if r[2] == "" {
        r := r[2 := id];
      }
      out := out + [r];
      i := i + 1;
    }
    assert data[..i - 1] == data;
    return Ok(out);
  }

  lemma {:induction false} FillRowsStops(rows: seq<Row>, n: nat, id: string)
    requires n <= |rows| && FillRows(rows[..n], id).Raise?
    ensures FillRows(rows, id) == FillRows(rows[..n], id)
  {
    if n < |rows| {
      var init := rows[..|rows| - 1];
      assert init[..n] == rows[..n];
      FillRowsStops(init, n, id);
    } else {
      assert rows[..n] == rows;
    }
  }

  /** The script: each qualifying result's file is read, filled and written
      back under the fixed header. */
  method AddImdbIds(results: seq<Fields>, files: Files, libP: string, realP: string) returns (run: Pass)
    ensures run == AddIds(results, files, libP, realP)
  {
    var disk := files;
    var i := 0;
    while i < |results|
      invariant 0 <= i <= |results|
      invariant AddIds(results[..i], files, libP, realP) == Pass(disk, None)
    {
      AddIdsSnoc(results, i, files, libP, realP);
      var res := results[i];
      if "Aspect Ratio" in res && "IMDb ID" in res {
        if "Filename (path)" !in res {
          AddIdsStops(results, i + 1, files, libP, realP);
          return Pass(disk, Some(KeyError("Filename (path)")));
        }
        var output := JoinPath(TranslatePath(res["Filename (path)"], libP, realP), FileName());
        if output in disk {
          var rows := ReadFilled(disk[output], res["IMDb ID"]);
          if rows.Raise? {
            AddIdsStops(results, i + 1, files, libP, realP);
            return Pass(disk, Some(rows.exc));
          }
          disk := disk[output := [CropDetect.DumpHeader] + rows.value];
        }
      }
      i := i + 1;
    }
    assert results[..i] == results;
    return Pass(disk, None);
  }
}
