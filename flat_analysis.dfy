/** analyse_crop.py: one row per crop file that has data rows, naming the
    title, the file's limit and skip, its most frequent ffmpeg crop and its
    first non-empty `mc_crop`; `crop_analysis.csv` under real_p is rewritten
    with every row so far after each result that has crop files. */
module FlatAnalysis {
  import opened Wrappers
  import opened Text
  import opened Library
  import opened CropTally
  import CropDetect

  /** `out_cols.split(',')`. */
  const Header: seq<string> := ["name", "limit", "skip", "ffmpeg_crop", "mc_crop"]

  /** The rows one crop file adds: none when it has no data row, otherwise
      the title, limit `t[1]`, skip `t[2]`, the most frequent crop and the
      first non-empty `mc_crop`. A name without three parts raises
      IndexError, and Name is read (KeyError) only for a row. */
  function FileRows(res: Fields, dir: string, name: string, disk: Disk): Result<seq<Row>> {
    var t := NameParts(name);
    if |t| < 3 then Raise(IndexError)
    else
      var tally := FileTally(disk.rows(JoinPath(dir, name)), "");
      if tally.Raise? then Raise(tally.exc)
      else if tally.value.0.None? then Ok([])
      else if "Name" !in res then Raise(KeyError("Name"))
      else Ok([[res["Name"], t[1], t[2], tally.value.0.value, tally.value.1]])
  }

  /** A file with only a header (or nothing) adds no row; any other adds one
      five-cell row whose crop is the mode of the data rows. */
  lemma FileRowsSpec(res: Fields, dir: string, name: string, disk: Disk)
    requires FileRows(res, dir, name, disk).Ok?
    ensures var rows := disk.rows(JoinPath(dir, name));
      var out := FileRows(res, dir, name, disk).value;
      (|rows| <= 1 <==> out == [])
      && (|rows| > 1 ==>
        var ci := LastIndex(rows[0], "crop");
        |out| == 1 && |out[0]| == |Header|
        && out[0][..3] == [res["Name"], NameParts(name)[1], NameParts(name)[2]]
        && ci.Some? && (forall k :: 1 <= k < |rows| ==> ci.value < |rows[k]|)
        && Some(out[0][3]) == Mode(Column(rows[1..], ci.value)))
  {
    var rows := disk.rows(JoinPath(dir, name));
    var t := NameParts(name);
    FileTallySpec(rows, "");
    var tally := FileTally(rows, "").value;
    if |rows| > 1 {
      assert FileRows(res, dir, name, disk).value == [[res["Name"], t[1], t[2], tally.0.value, tally.1]];
    } else {
      assert tally.0.None?;
    }
  }

  /** For a file cropdetect wrote, the row's limit and skip are the setting's. */
  lemma FileRowsSetting(res: Fields, dir: string, limit: nat, skip: nat, disk: Disk)
    requires FileRows(res, dir, CropDetect.OutputName(limit, skip), disk).Ok?
    requires FileRows(res, dir, CropDetect.OutputName(limit, skip), disk).value != []
    ensures FileRows(res, dir, CropDetect.OutputName(limit, skip), disk).value[0][1..3]
      == [NatToString(limit), NatToString(skip)]
  {
    OutputNameParts(limit, skip);
  }

  /** The rows of every crop file of one result, in glob order. */
  function ResultRows(res: Fields, dir: string, names: seq<string>, disk: Disk): Result<seq<Row>> {
    if names == [] then Ok([])
    else
      var prev := ResultRows(res, dir, names[..|names| - 1], disk);
      if prev.Raise? then prev
      else
        var more := FileRows(res, dir, names[|names| - 1], disk);
        if more.Raise? then Raise(more.exc) else Ok(prev.value + more.value)
  }

  lemma ResultRowsSnoc(res: Fields, dir: string, names: seq<string>, i: nat, disk: Disk)
    requires i < |names| && ResultRows(res, dir, names[..i], disk).Ok?
    ensures ResultRows(res, dir, names[..i + 1], disk) ==
      var more := FileRows(res, dir, names[i], disk);
      if more.Raise? then Raise(more.exc) else Ok(ResultRows(res, dir, names[..i], disk).value + more.value)
  {
    assert names[..i + 1][..i] == names[..i];
  }

  lemma {:induction false} ResultRowsShape(res: Fields, dir: string, names: seq<string>, disk: Disk)
    requires ResultRows(res, dir, names, disk).Ok?
    ensures var out := ResultRows(res, dir, names, disk).value;
      |out| <= |names| && forall k :: 0 <= k < |out| ==> |out[k]| == |Header|
  {
    if names != [] {
      var init := names[..|names| - 1];
      ResultRowsShape(res, dir, init, disk);
      FileRowsSpec(res, dir, names[|names| - 1], disk);
    }
  }

  lemma {:induction false} ResultRowsRaiseExtends(res: Fields, dir: string, names: seq<string>, n: nat, disk: Disk)
    requires n <= |names| && ResultRows(res, dir, names[..n], disk).Raise?
    ensures ResultRows(res, dir, names, disk) == ResultRows(res, dir, names[..n], disk)
  {
    if n < |names| {
      var init := names[..|names| - 1];
      assert init[..n] == names[..n];
      ResultRowsRaiseExtends(res, dir, init, n, disk);
    } else {
      assert names[..n] == names;
    }
  }

  /** Where the run stands: the file's last written contents (None before the
      first write), the rows gathered so far, and the exception that ended
      the run, if one did. */
  datatype Progress = Progress(written: Option<seq<Row>>, data: seq<Row>, failure: Option<Exception>)

  /** One search result: a result with crop files adds its rows and rewrites
      the file; an exception stops the run and leaves the file as it was. */
  function ResultStep(p: Progress, res: Fields, libP: string, realP: string, disk: Disk): Progress {
    if p.failure.Some? then p
    else if "Filename (path)" !in res then p.(failure := Some(KeyError("Filename (path)")))
    else
      var dir := TranslatePath(res["Filename (path)"], libP, realP);
      var crops := CropFiles(disk.names(dir));
      if crops == [] then p
      else
        var rows := ResultRows(res, dir, crops, disk);
        if rows.Raise? then p.(failure := Some(rows.exc))
        else
          var data := p.data + rows.value;
          Progress(Some([Header] + data), data, None)
  }

  /** The whole script over the search results, in order. */
  function Analyse(results: seq<Fields>, libP: string, realP: string, disk: Disk): Progress {
    if results == [] then Progress(None, [], None)
    else ResultStep(Analyse(results[..|results| - 1], libP, realP, disk), results[|results| - 1], libP, realP, disk)
  }

  /** The file, once written, starts with the header and holds only
      five-cell rows; while the run goes on it is exactly the header followed
      by every row so far, in append order, and nothing is gathered before
      the first write. */
  lemma {:induction false} AnalyseFile(results: seq<Fields>, libP: string, realP: string, disk: Disk)
    ensures var p := Analyse(results, libP, realP, disk);
      (p.written.Some? ==>
        |p.written.value| >= 1 && p.written.value[0] == Header
        && forall k :: 0 <= k < |p.written.value| ==> |p.written.value[k]| == |Header|)
      && (p.failure.None? && p.written.None? ==> p.data == [])
      && (p.failure.None? && p.written.Some? ==> p.written.value == [Header] + p.data)
      && (p.failure.None? ==> forall k :: 0 <= k < |p.data| ==> |p.data[k]| == |Header|)
  {
    if results != [] {
      var init := results[..|results| - 1];
      var res := results[|results| - 1];
      AnalyseFile(init, libP, realP, disk);
      var p := Analyse(init, libP, realP, disk);
      if p.failure.None? && "Filename (path)" in res {
        var dir := TranslatePath(res["Filename (path)"], libP, realP);
        var crops := CropFiles(disk.names(dir));
        var rows := ResultRows(res, dir, crops, disk);
        if crops != [] && rows.Ok? {
          ResultRowsShape(res, dir, crops, disk);
          var data := p.data + rows.value;
          forall k | 0 <= k < |[Header] + data| ensures |([Header] + data)[k]| == |Header| {
            if k > 0 {
              assert ([Header] + data)[k] == data[k - 1];
            }
          }
        }
      }
    }
  }

  /** The rows of one result's crop files, each file tallied in turn. */
  method ReadResultFiles(res: Fields, dir: string, crops: seq<string>, disk: Disk) returns (r: Result<seq<Row>>)
    ensures r == ResultRows(res, dir, crops, disk)
  {
    var out: seq<Row> := [];
    var i := 0;
    while i < |crops|
      invariant 0 <= i <= |crops|
      invariant ResultRows(res, dir, crops[..i], disk) == Ok(out)
    {
      ResultRowsSnoc(res, dir, crops, i, disk);
      var t := NameParts(crops[i]);
      if |t| < 3 {
        ResultRowsRaiseExtends(res, dir, crops, i + 1, disk);
        return Raise(IndexError);
      }
      var limit, skip := t[1], t[2];
      var tally := ReadCropFile(disk.rows(JoinPath(dir, crops[i])), "");
      if tally.Raise? {
        ResultRowsRaiseExtends(res, dir, crops, i + 1, disk);
        return Raise(tally.exc);
      }
      if tally.value.0.Some? {
        if "Name" !in res {
          ResultRowsRaiseExtends(res, dir, crops, i + 1, disk);
          return Raise(KeyError("Name"));
        }
        var row := [res["Name"], limit, skip, tally.value.0.value, tally.value.1];
        assert FileRows(res, dir, crops[i], disk) == Ok([row]);
        out := out + [row];
      } else {
        assert FileRows(res, dir, crops[i], disk) == Ok([]);
        assert out + [] == out;
      }
      i := i + 1;
    }
    assert crops[..i] == crops;
    return Ok(out);
  }

  /** The script: for each result with crop files, gather its rows and
      rewrite the file with the header and every row so far. */
  method AnalyseFlat(results: seq<Fields>, libP: string, realP: string, disk: Disk) returns (p: Progress)
    ensures p == Analyse(results, libP, realP, disk)
  {
    var header := Header;
    var written: Option<seq<Row>> := None;
    var data: seq<Row> := [];
    var i := 0;
    while i < |results|
      invariant 0 <= i <= |results|
      invariant Analyse(results[..i], libP, realP, disk) == Progress(written, data, None)
    {
      var res := results[i];
      assert results[..i + 1][..i] == results[..i];
      if "Filename (path)" !in res {
        p := Progress(written, data, Some(KeyError("Filename (path)")));
        AnalyseStops(results, i + 1, libP, realP, disk);
        return;
      }
      var dir := TranslatePath(res["Filename (path)"], libP, realP);
      var crops := CropFiles(disk.names(dir));
      if crops != [] {
        var rows := ReadResultFiles(res, dir, crops, disk);
        if rows.Raise? {
          p := Progress(written, data, Some(rows.exc));
          AnalyseStops(results, i + 1, libP, realP, disk);
          return;
        }
        data := data + rows.value;
        written := Some([header] + data);
      }
      i := i + 1;
    }
    assert results[..i] == results;
    p := Progress(written, data, None);
  }

  /** After a failure nothing changes any more. */
  lemma {:induction false} AnalyseStops(results: seq<Fields>, n: nat, libP: string, realP: string, disk: Disk)
    requires n <= |results| && Analyse(results[..n], libP, realP, disk).failure.Some?
    ensures Analyse(results, libP, realP, disk) == Analyse(results[..n], libP, realP, disk)
  {
    if n < |results| {
      var init := results[..|results| - 1];
      assert init[..n] == results[..n];
      AnalyseStops(init, n, libP, realP, disk);
    } else {
      assert results[..n] == results;
    }
  }
}
