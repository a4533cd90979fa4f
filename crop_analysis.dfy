/** crop/analyse_crop.py: one row per media-server result that has crop
    files, holding its name, resolution and year, the stored `mc_crop`, the
    most frequent ffmpeg crop of each (limit, skip) setting, and whether all
    of these agree. */
module CropAnalysis {
  import opened Wrappers
  import opened Text
  import opened Library
  import opened CropTally
  import CropDetect

  /** `c_name(l, s)`: the column holding one setting's crop. */
  function CName(l: string, s: string): string {
    l + "_" + s + "_fcrop"
  }

  const Skips: seq<nat> := [8, 24]
  const Limits: seq<nat> := [18, 25]
  const Leading: seq<string> := ["name", "res", "year", "mc_crop"]

  /** The output columns, as the nested loop over skips, then limits, lays them out. */
  const OutCols: seq<string> :=
    Leading + [CName("18", "8"), CName("25", "8"), CName("18", "24"), CName("25", "24")] + ["exact"]

  lemma SettingTexts()
    ensures NatToString(8) == "8" && NatToString(24) == "24"
    ensures NatToString(18) == "18" && NatToString(25) == "25"
  {
    assert NatToString(2) == "2" && NatToString(1) == "1";
  }

  lemma OutColsLayout()
    ensures |OutCols| == 9 && OutCols[..4] == Leading && OutCols[8] == "exact"
    ensures forall i, j :: 0 <= i < 2 && 0 <= j < 2 ==>
      OutCols[4 + 2 * i + j] == CName(NatToString(Limits[j]), NatToString(Skips[i]))
  {
    SettingTexts();
    forall i, j | 0 <= i < 2 && 0 <= j < 2
      ensures OutCols[4 + 2 * i + j] == CName(NatToString(Limits[j]), NatToString(Skips[i]))
    {
      if i == 0 && j == 0 {
        assert OutCols[4] == CName("18", "8");
      } else if i == 0 {
        assert OutCols[5] == CName("25", "8");
      } else if j == 0 {
        assert OutCols[6] == CName("18", "24");
      } else {
        assert OutCols[7] == CName("25", "24");
      }
    }
  }

  /** Builds `out_cols`: the leading columns, then c_name(limit, skip) for
      every skip and, inside it, every limit, then `exact`. */
  method BuildOutCols() returns (cols: seq<string>)
    ensures |cols| == 9 && cols[..4] == Leading && cols[8] == "exact"
    ensures forall i, j :: 0 <= i < 2 && 0 <= j < 2 ==>
      cols[4 + 2 * i + j] == CName(NatToString(Limits[j]), NatToString(Skips[i]))
    ensures cols == OutCols
  {
    OutColsLayout();
    cols := Leading;
    var i := 0;
    while i < |Skips|
      invariant 0 <= i <= 2 && cols == OutCols[..4 + 2 * i]
    {
      var j := 0;
      while j < |Limits|
        invariant 0 <= j <= 2 && cols == OutCols[..4 + 2 * i + j]
      {
        assert OutCols[..4 + 2 * i + j + 1] == OutCols[..4 + 2 * i + j] + [OutCols[4 + 2 * i + j]];
        cols := cols + [CName(NatToString(Limits[j]), NatToString(Skips[i]))];
        j := j + 1;
      }
      i := i + 1;
    }
    cols := cols + ["exact"];
  }

  /** A column name built by c_name splits back into its two parts. */
  lemma CNameParts(l: string, s: string)
    requires '_' !in l && '_' !in s
    ensures Split(CName(l, s), '_') == [l, s, "fcrop"]
  {
    var parts := [l, s, "fcrop"];
    assert parts[1..][1..] == ["fcrop"];
    assert Join(parts[1..], '_') == s + "_" + "fcrop";
    assert Join(parts, '_') == CName(l, s);
    SplitJoin(parts, '_');
  }

  /** c_name is never one of the leading columns nor `exact`, and the four
      setting columns are those of the listed skips and limits. */
  lemma OutColsHolding(l: string, s: string)
    requires '_' !in l && '_' !in s
    ensures CName(l, s) in OutCols <==>
      (exists i, j :: 0 <= i < 2 && 0 <= j < 2 && l == NatToString(Limits[j]) && s == NatToString(Skips[i]))
    ensures forall c :: 0 <= c < |OutCols| && OutCols[c] == CName(l, s) ==> 4 <= c < 8
  {
    SettingTexts();
    var n := CName(l, s);
    assert n[|n| - 6..] == "_fcrop";
    assert OutCols[..4] == Leading;
    forall c | 0 <= c < |OutCols| && OutCols[c] == n ensures 4 <= c < 8 {
      if c < 4 || c == 8 {
        assert false;
      }
    }
    if n in OutCols {
      var c :| 0 <= c < |OutCols| && OutCols[c] == n;
      var i, j := (c - 4) / 2, (c - 4) % 2;
      assert c == 4 + 2 * i + j;
      var l0, s0 := NatToString(Limits[j]), NatToString(Skips[i]);
      NatStringAvoids(Limits[j], '_');
      NatStringAvoids(Skips[i], '_');
      assert OutCols[c] == CName(l0, s0);
      CNameParts(l, s);
      CNameParts(l0, s0);
    }
  }

  /** No two output columns share a name. */
  lemma OutColsDistinct()
    ensures forall a, b :: 0 <= a < b < |OutCols| ==> OutCols[a] != OutCols[b]
  {
    var names := ["name", "res", "year", "mc_crop", "18_8_fcrop", "25_8_fcrop", "18_24_fcrop", "25_24_fcrop", "exact"];
    assert CName("18", "8") == names[4] && CName("25", "8") == names[5];
    assert CName("18", "24") == names[6] && CName("25", "24") == names[7];
    assert OutCols == names;
    forall a, b | 0 <= a < b < |names| ensures names[a] != names[b] {
      assert |names[a]| != |names[b]| || names[a][0] != names[b][0];
    }
  }

  /** The column of a listed setting is found at its own position. */
  lemma OutColsSetting(i: nat, j: nat)
    requires i < 2 && j < 2
    ensures IndexOf(OutCols, CName(NatToString(Limits[j]), NatToString(Skips[i]))) == Some(4 + 2 * i + j)
  {
    OutColsLayout();
    OutColsDistinct();
    var c := 4 + 2 * i + j;
    assert OutCols[c] == CName(NatToString(Limits[j]), NatToString(Skips[i]));
  }

  // -----------------------------------------------------------------------
  // One crop file

  /** The column a crop file's name selects: `name[:-4].split('_')` must have
      three parts (IndexError otherwise); a setting with no column is None,
      where `out_cols.index` raises the ValueError that skips the file. */
  function FileColumn(name: string): (r: Result<Option<nat>>)
    ensures r.Raise? <==> |NameParts(name)| < 3
    ensures r.Raise? ==> r.exc == IndexError
    ensures r.Ok? && r.value.Some? ==>
      r.value.value < |OutCols| && OutCols[r.value.value] == CName(NameParts(name)[1], NameParts(name)[2])
  {
    var t := NameParts(name);
    if |t| < 3 then Raise(IndexError) else Ok(IndexOf(OutCols, CName(t[1], t[2])))
  }

  /** The file cropdetect writes for a setting selects that setting's column;
      any other setting's file is ignored. */
  lemma FileColumnOfOutput(limit: nat, skip: nat)
    ensures FileColumn(CropDetect.OutputName(limit, skip)).Ok?
    ensures var c := FileColumn(CropDetect.OutputName(limit, skip)).value;
      (c.Some? <==> limit in Limits && skip in Skips)
      && (c.Some? ==> 4 <= c.value < 8 && OutCols[c.value] == CName(NatToString(limit), NatToString(skip)))
  {
    OutputNameParts(limit, skip);
    var l, s := NatToString(limit), NatToString(skip);
    NatStringAvoids(limit, '_');
    NatStringAvoids(skip, '_');
    OutColsHolding(l, s);
    var name := CropDetect.OutputName(limit, skip);
    assert NameParts(name)[1] == l && NameParts(name)[2] == s;
    var c := FileColumn(name).value;
    if c.Some? {
      assert OutCols[c.value] == CName(l, s);
      assert CName(l, s) in OutCols;
      var i, j :| 0 <= i < 2 && 0 <= j < 2 && l == NatToString(Limits[j]) && s == NatToString(Skips[i]);
      NatToStringInjective(limit, Limits[j]);
      NatToStringInjective(skip, Skips[i]);
    }
    if limit in Limits && skip in Skips {
      var i := if skip == 8 then 0 else 1;
      var j := if limit == 18 then 0 else 1;
      assert limit == Limits[j] && skip == Skips[i];
    }
  }

  /** One file of the loop: tally it when its setting has a column, then
      store the chosen crop there; `d[3]` (mc_crop) is the tally's sticky value. */
  function FileStep(d: Row, dir: string, name: string, disk: Disk): (r: Result<Row>)
    requires |d| == |OutCols|
    ensures r.Ok? ==> |r.value| == |d|
  {
    var col := FileColumn(name);
    if col.Raise? then Raise(col.exc)
    else if col.value.None? then Ok(d)
    else
      var tally := FileTally(disk.rows(JoinPath(dir, name)), d[3]);
      if tally.Raise? then Raise(tally.exc)
      else Ok(Store(d, tally.value.1, col.value.value, tally.value.0))
  }

  /** `d[3] = mc`, then `d[c] = popular` when the tally chose a crop. */
  function Store(d: Row, mc: string, c: nat, choice: Option<string>): (e: Row)
    requires 3 < |d| && c < |d|
    ensures |e| == |d|
  {
    var seen := d[3 := mc];
    if choice.None? then seen else seen[c := choice.value]
  }

  /** Storing into a setting column changes `mc_crop` and that column only. */
  lemma StoreKeeps(d: Row, mc: string, c: nat, choice: Option<string>)
    requires |d| == |OutCols| && 4 <= c < 8
    ensures var e := Store(d, mc, c, choice);
      e[..3] == d[..3] && e[3] == mc && e[8] == d[8]
      && (choice.Some? ==> e[c] == choice.value)
      && forall k :: 4 <= k < 8 && e[k] != d[k] ==> k == c
  {
  }

  /** Every crop file in glob order. */
  function FilesPass(d: Row, dir: string, names: seq<string>, disk: Disk): (r: Result<Row>)
    requires |d| == |OutCols|
    ensures r.Ok? ==> |r.value| == |OutCols|
  {
    if names == [] then Ok(d)
    else
      var prev := FilesPass(d, dir, names[..|names| - 1], disk);
      if prev.Raise? then prev else FileStep(prev.value, dir, names[|names| - 1], disk)
  }

  /** A file changes only `mc_crop` and one setting column; a non-empty
      `mc_crop` is never overwritten. */
  lemma FileStepKeeps(d: Row, dir: string, name: string, disk: Disk)
    requires |d| == |OutCols| && FileStep(d, dir, name, disk).Ok?
    ensures var e := FileStep(d, dir, name, disk).value;
      |e| == |d| && e[..3] == d[..3] && e[8] == d[8]
      && (d[3] != "" ==> e[3] == d[3])
      && forall k :: 4 <= k < 8 && e[k] != d[k] ==> FileColumn(name) == Ok(Some(k))
  {
    var col := FileColumn(name);
    if col.value.Some? {
      var t := NameParts(name);
      var i := col.value.value;
      OutColsHolding(t[1], t[2]);
      var rows := disk.rows(JoinPath(dir, name));
      var tally := FileTally(rows, d[3]).value;
      if |rows| > 0 {
        ScanSpec(rows[1..], LastIndex(rows[0], "crop"), LastIndex(rows[0], "mc_crop"), d[3]);
      }
      assert d[3] != "" ==> tally.1 == d[3];
      StoreKeeps(d, tally.1, i, tally.0);
    }
  }

  lemma {:induction false} FilesPassKeeps(d: Row, dir: string, names: seq<string>, disk: Disk)
    requires |d| == |OutCols| && FilesPass(d, dir, names, disk).Ok?
    ensures var e := FilesPass(d, dir, names, disk).value;
      e[..3] == d[..3] && e[8] == d[8] && (d[3] != "" ==> e[3] == d[3])
  {
    if names != [] {
      var init := names[..|names| - 1];
      FilesPassKeeps(d, dir, init, disk);
      FileStepKeeps(FilesPass(d, dir, init, disk).value, dir, names[|names| - 1], disk);
    }
  }

  /** A failed file ends the pass: the failure stays whatever files follow. */
  lemma {:induction false} FilesPassRaiseExtends(d: Row, dir: string, names: seq<string>, n: nat, disk: Disk)
    requires |d| == |OutCols| && n <= |names| && FilesPass(d, dir, names[..n], disk).Raise?
    ensures FilesPass(d, dir, names, disk) == FilesPass(d, dir, names[..n], disk)
  {
    if n < |names| {
      var init := names[..|names| - 1];
      assert init[..n] == names[..n];
      FilesPassRaiseExtends(d, dir, init, n, disk);
    } else {
      assert names[..n] == names;
    }
  }

  /** A file whose name selects a column, and which has data rows, puts the
      most frequent crop of those rows into that column. */
  lemma FileStepChoice(d: Row, dir: string, name: string, disk: Disk)
    requires |d| == |OutCols| && FileStep(d, dir, name, disk).Ok?
    requires FileColumn(name).Ok? && FileColumn(name).value.Some?
    requires |disk.rows(JoinPath(dir, name))| > 1
    ensures var rows := disk.rows(JoinPath(dir, name));
      var ci := LastIndex(rows[0], "crop");
      var c := FileColumn(name).value.value;
      ci.Some? && (forall k :: 1 <= k < |rows| ==> ci.value < |rows[k]|)
      && c < |d| && Some(FileStep(d, dir, name, disk).value[c]) == Mode(Column(rows[1..], ci.value))
  {
    var rows := disk.rows(JoinPath(dir, name));
    FileTallySpec(rows, d[3]);
    var t := NameParts(name);
    OutColsHolding(t[1], t[2]);
    var c := FileColumn(name).value.value;
    var tally := FileTally(rows, d[3]).value;
    StoreKeeps(d, tally.1, c, tally.0);
    assert FileStep(d, dir, name, disk).value == Store(d, tally.1, c, tally.0);
  }

  // -----------------------------------------------------------------------
  // One search result

  /** `[''] * 9` with Name, Dimensions and Year (`0` when absent) filled in;
      a missing Name or Dimensions raises KeyError. */
  function StartRow(res: Fields): (r: Result<Row>)
    ensures r.Ok? <==> "Name" in res && "Dimensions" in res
    ensures r.Raise? ==> r.exc == if "Name" !in res then KeyError("Name") else KeyError("Dimensions")
    ensures r.Ok? ==> |r.value| == |OutCols|
    ensures r.Ok? ==> r.value[..3] == [res["Name"], res["Dimensions"], Get(res, "Year", "0")]
    ensures r.Ok? ==> forall k :: 3 <= k < |OutCols| ==> r.value[k] == ""
  {
    var name := Field(res, "Name");
    var dims := Field(res, "Dimensions");
    if name.Raise? then Raise(name.exc)
    else if dims.Raise? then Raise(dims.exc)
    else Ok([name.value, dims.value, Get(res, "Year", "0"), "", "", "", "", "", ""])
  }

  /** `len(set(d[3:-1])) == 1`. */
  predicate Exact(d: Row)
    requires |d| == |OutCols|
  {
    |set x | x in d[3..8]| == 1
  }

  /** The flag is set exactly when mc_crop and the four setting cells, blanks
      included, are all the same text. */
  lemma ExactAllEqual(d: Row)
    requires |d| == |OutCols|
    ensures Exact(d) <==> forall k :: 3 <= k < 8 ==> d[k] == d[3]
  {
    var cells := set x | x in d[3..8];
    assert d[3] in cells by { assert d[3..8][0] == d[3]; }
    if forall k :: 3 <= k < 8 ==> d[k] == d[3] {
      forall x | x in cells ensures x == d[3] {
        var k :| 0 <= k < 5 && d[3..8][k] == x;
        assert d[3 + k] == x;
      }
      assert cells == {d[3]};
    } else {
      var k :| 3 <= k < 8 && d[k] != d[3];
      assert d[k] == d[3..8][k - 3];
      var pair := {d[3], d[k]};
      assert pair <= cells;
      assert |pair| == 2;
      assert cells == pair + (cells - pair);
      assert |cells| == |pair| + |cells - pair|;
    }
  }

  /** The row for one result, or None when its directory has no crop file. */
  function ResultRow(res: Fields, libP: string, realP: string, disk: Disk): Result<Option<Row>> {
    var path := Field(res, "Filename (path)");
    if path.Raise? then Raise(path.exc)
    else
      var dir := TranslatePath(path.value, libP, realP);
      var crops := CropFiles(disk.names(dir));
      if crops == [] then Ok(None)
      else
        var start := StartRow(res);
        if start.Raise? then Raise(start.exc)
        else
          var d := FilesPass(start.value, dir, crops, disk);
          if d.Raise? then Raise(d.exc) else Ok(Some(d.value[8 := BoolText(Exact(d.value))]))
  }

  /** A result adds a row exactly when its directory has a crop file; the
      row's first cells come from the result and its last says whether the
      crops agree. */
  lemma ResultRowSpec(res: Fields, libP: string, realP: string, disk: Disk)
    requires ResultRow(res, libP, realP, disk).Ok?
    ensures var dir := TranslatePath(res["Filename (path)"], libP, realP);
      var r := ResultRow(res, libP, realP, disk).value;
      "Filename (path)" in res
      && (r.None? <==> CropFiles(disk.names(dir)) == [])
      && (r.Some? ==>
        |r.value| == |OutCols|
        && r.value[..3] == [res["Name"], res["Dimensions"], Get(res, "Year", "0")]
        && (r.value[8] == "True" <==> forall k :: 3 <= k < 8 ==> r.value[k] == r.value[3])
        && r.value[8] == BoolText(r.value[8] == "True"))
  {
    var dir := TranslatePath(res["Filename (path)"], libP, realP);
    var crops := CropFiles(disk.names(dir));
    if crops != [] {
      var start := StartRow(res).value;
      var d := FilesPass(start, dir, crops, disk).value;
      FilesPassKeeps(start, dir, crops, disk);
      assert d[..3] == start[..3];
      ExactAllEqual(d);
      var row := d[8 := BoolText(Exact(d))];
      assert forall k :: 0 <= k < 8 ==> row[k] == d[k];
    }
  }

  // -----------------------------------------------------------------------
  // The whole run

  /** `out_data`: the rows of the results, in search order. */
  function Table(results: seq<Fields>, libP: string, realP: string, disk: Disk): Result<seq<Row>> {
    if results == [] then Ok([])
    else
      var prev := Table(results[..|results| - 1], libP, realP, disk);
      if prev.Raise? then prev
      else
        var r := ResultRow(results[|results| - 1], libP, realP, disk);
        if r.Raise? then Raise(r.exc)
        else if r.value.None? then prev
        else Ok(prev.value + [r.value.value])
  }

  /** The contents of `crop_analysis.csv` under real_p: written once, at the end. */
  function AnalysisFile(results: seq<Fields>, libP: string, realP: string, disk: Disk): Result<seq<Row>> {
    var t := Table(results, libP, realP, disk);
    if t.Raise? then Raise(t.exc) else Ok([OutCols] + t.value)
  }

  /** Every table row has the nine columns and an exact flag that is True or False. */
  lemma {:induction false} TableShape(results: seq<Fields>, libP: string, realP: string, disk: Disk)
    requires Table(results, libP, realP, disk).Ok?
    ensures var t := Table(results, libP, realP, disk).value;
      |t| <= |results|
      && forall k :: 0 <= k < |t| ==> |t[k]| == |OutCols| && (t[k][8] == "True" || t[k][8] == "False")
  {
    if results != [] {
      var init := results[..|results| - 1];
      TableShape(init, libP, realP, disk);
      var r := ResultRow(results[|results| - 1], libP, realP, disk);
      if r.value.Some? {
        ResultRowSpec(results[|results| - 1], libP, realP, disk);
      }
    }
  }

  lemma {:induction false} TableRaiseExtends(results: seq<Fields>, n: nat, libP: string, realP: string, disk: Disk)
    requires n <= |results| && Table(results[..n], libP, realP, disk).Raise?
    ensures Table(results, libP, realP, disk) == Table(results[..n], libP, realP, disk)
  {
    if n < |results| {
      var init := results[..|results| - 1];
      assert init[..n] == results[..n];
      TableRaiseExtends(init, n, libP, realP, disk);
    } else {
      assert results[..n] == results;
    }
  }

  /** One crop file read into the row. */
  method ReadFile(d: Row, dir: string, name: string, disk: Disk) returns (r: Result<Row>)
    requires |d| == |OutCols|
    ensures r == FileStep(d, dir, name, disk)
  {
    var t := NameParts(name);
    if |t| < 3 {
      return Raise(IndexError);
    }
    var col := IndexOf(OutCols, CName(t[1], t[2]));
    if col.None? {
      return Ok(d);
    }
    var tally := ReadCropFile(disk.rows(JoinPath(dir, name)), d[3]);
    if tally.Raise? {
      return Raise(tally.exc);
    }
    var e := d[3 := tally.value.1];
    if tally.value.0.Some? {
      e := e[col.value := tally.value.0.value];
    }
    return Ok(e);
  }

  /** The files of one result, read in glob order into its row. */
  method ReadFiles(start: Row, dir: string, crops: seq<string>, disk: Disk) returns (r: Result<Row>)
    requires |start| == |OutCols|
    ensures r == FilesPass(start, dir, crops, disk)
  {
    var d := start;
    var i := 0;
    while i < |crops|
      invariant 0 <= i <= |crops|
      invariant FilesPass(start, dir, crops[..i], disk) == Ok(d)
    {
      assert crops[..i + 1][..i] == crops[..i];
      var e := ReadFile(d, dir, crops[i], disk);
      if e.Raise? {
        FilesPassRaiseExtends(start, dir, crops, i + 1, disk);
        return e;
      }
      d := e.value;
      i := i + 1;
    }
    assert crops[..i] == crops;
    return Ok(d);
  }

  /** The loop body for one search result. */
  method AnalyseResult(res: Fields, libP: string, realP: string, disk: Disk) returns (r: Result<Option<Row>>)
    ensures r == ResultRow(res, libP, realP, disk)
  {
    if "Filename (path)" !in res {
      return Raise(KeyError("Filename (path)"));
    }
    var dir := TranslatePath(res["Filename (path)"], libP, realP);
    var crops := CropFiles(disk.names(dir));
    if crops == [] {
      return Ok(None);
    }
    var start := StartRow(res);
    if start.Raise? {
      return Raise(start.exc);
    }
    var d := ReadFiles(start.value, dir, crops, disk);
    if d.Raise? {
      return Raise(d.exc);
    }
    var row := d.value;
    row := row[8 := BoolText(Exact(row))];
    return Ok(Some(row));
  }

  /** The script: the column layout, one row per result with crop files,
      and the file written at the end. */
  method AnalyseCrops(results: seq<Fields>, libP: string, realP: string, disk: Disk) returns (r: Result<seq<Row>>)
    ensures r == AnalysisFile(results, libP, realP, disk)
  {
    var cols := BuildOutCols();
    var data: seq<Row> := [];
    var i := 0;
    while i < |results|
      invariant 0 <= i <= |results|
      invariant Table(results[..i], libP, realP, disk) == Ok(data)
    {
      assert results[..i + 1][..i] == results[..i];
      var row := AnalyseResult(results[i], libP, realP, disk);
      if row.Raise? {
        TableRaiseExtends(results, i + 1, libP, realP, disk);
        return Raise(row.exc);
      }
      if row.value.Some? {
        data := data + [row.value.value];
      }
      i := i + 1;
    }
    assert results[..i] == results;
    return Ok([cols] + data);
  }
}
