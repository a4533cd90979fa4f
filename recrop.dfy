/** crop/recrop.py: copies `crop_analysis.csv` to `crop_analysis_28.csv`,
    replacing each data row's `mc_crop` cell with the Video Crop of the
    first search result that has the row's title and dimensions. */
module Recrop {
  import opened Wrappers
  import opened Text
  import opened Library

  /** The generator's test: the result's Name and Dimensions (blank when
      absent) are the row's cells 0 and 1. */
  predicate Matches(res: Fields, r: Row)
    requires |r| >= 2
  {
    Get(res, "Name", "") == r[0] && Get(res, "Dimensions", "") == r[1]
  }

  /** `next((res for res in results if ...), None)`, as a position. The `and`
      reads `r[1]` only for a result whose Name is `r[0]`, so a one-cell row
      raises IndexError exactly when such a result exists. */
  function FirstMatch(results: seq<Fields>, r: Row): (m: Result<Option<nat>>)
    requires |r| >= 1
    ensures m.Raise? <==> |r| < 2 && exists j :: 0 <= j < |results| && Get(results[j], "Name", "") == r[0]
    ensures m.Raise? ==> m.exc == IndexError
    ensures m.Ok? && m.value.Some? ==>
      |r| >= 2 && m.value.value < |results| && Matches(results[m.value.value], r)
      && forall j :: 0 <= j < m.value.value ==> !Matches(results[j], r)
    ensures m.Ok? && m.value.None? && |r| >= 2 ==> forall j :: 0 <= j < |results| ==> !Matches(results[j], r)
  {
    if results == [] then Ok(None)
    else if Get(results[0], "Name", "") != r[0] then
      var rest := FirstMatch(results[1..], r);
      if rest.Raise? then rest
      else if rest.value.None? then Ok(None)
      else Ok(Some(rest.value.value + 1))
    else if |r| < 2 then Raise(IndexError)
    else if Get(results[0], "Dimensions", "") == r[1] then Ok(Some(0))
    else
      var rest := FirstMatch(results[1..], r);
      if rest.Raise? then rest
      else if rest.value.None? then Ok(None)
      else Ok(Some(rest.value.value + 1))
  }

  /** `if match:` — the first matching result, unless there is none or it is
      an empty dictionary, which Python treats as false. */
  function Found(results: seq<Fields>, r: Row): (f: Result<Option<Fields>>)
    requires |r| >= 1
    ensures f.Raise? <==> FirstMatch(results, r).Raise?
    ensures f.Ok? && f.value.Some? ==>
      FirstMatch(results, r).Ok? && FirstMatch(results, r).value.Some? &&
      var i := FirstMatch(results, r).value.value;
      f.value.value == results[i] && results[i] != map[]
    ensures (FirstMatch(results, r).Ok? && FirstMatch(results, r).value.Some?
             && results[FirstMatch(results, r).value.value] != map[]) ==> f.Ok? && f.value.Some?
  {
    var m := FirstMatch(results, r);
    if m.Raise? then Raise(m.exc)
    else if m.value.None? || results[m.value.value] == map[] then Ok(None)
    else Ok(Some(results[m.value.value]))
  }

  /** One data row as written: cell `idx` takes the match's Video Crop
      (KeyError when it has none, IndexError when the row is too short for
      `idx`); a row without a match is written as it was. An empty row
      raises IndexError on `r[0]`. */
  function Fix(r: Row, idx: nat, results: seq<Fields>): Result<Row> {
    if |r| == 0 then Raise(IndexError)
    else
      var f := Found(results, r);
      if f.Raise? then Raise(f.exc)
      else if f.value.None? then Ok(r)
      else if "Video Crop" !in f.value.value then Raise(KeyError("Video Crop"))
      else if idx >= |r| then Raise(IndexError)
      else Ok(r[idx := f.value.value["Video Crop"]])
  }

  /** `print(f'Failed to find {r[0]}')`, for a row without a match. */
  function Report(r: Row, results: seq<Fields>): seq<string>
    requires |r| >= 1
  {
    if Found(results, r) == Ok(None) then ["Failed to find " + r[0]] else []
  }

  /** Only cell `idx` can change: it becomes the first matching result's
      Video Crop, and without a match the row is kept whole. */
  lemma FixSpec(r: Row, idx: nat, results: seq<Fields>)
    requires Fix(r, idx, results).Ok?
    ensures var row := Fix(r, idx, results).value;
      |row| == |r| && |r| >= 1
      && (forall j :: 0 <= j < |r| && j != idx ==> row[j] == r[j])
      && (Found(results, r).value.None? ==> row == r)
      && (Found(results, r).value.Some? ==>
        var i := FirstMatch(results, r).value.value;
        idx < |r| && row[idx] == results[i]["Video Crop"]
        && Matches(results[i], r) && forall j :: 0 <= j < i ==> !Matches(results[j], r))
  {
  }

  /** What was written and printed so far, and the exception that ended the
      copy, if one did. */
  datatype Copy = Copy(written: seq<Row>, log: seq<string>, failure: Option<Exception>)

  /** The data rows, each fixed and written in turn; the first exception stops
      the copy. */
  function Body(rows: seq<Row>, idx: nat, results: seq<Fields>): Copy {
    if rows == [] then Copy([], [], None)
    else
      var c := Body(rows[..|rows| - 1], idx, results);
      var r := rows[|rows| - 1];
      if c.failure.Some? then c
      else
        var f := Fix(r, idx, results);
        if f.Raise? then c.(failure := Some(f.exc))
        else Copy(c.written + [f.value], c.log + Report(r, results), None)
  }

  /** The script: the header is written as it is and gives the position of
      `mc_crop` (ValueError when it has none), then the data rows follow. */
  function Recrop(rows: seq<Row>, results: seq<Fields>): Copy {
    if rows == [] then Copy([], [], None)
    else
      var idx := IndexOf(rows[0], "mc_crop");
      if idx.None? then Copy([], [], Some(ValueError))
      else
        var c := Body(rows[1..], idx.value, results);
        Copy([rows[0]] + c.written, c.log, c.failure)
  }

  lemma BodySnoc(rows: seq<Row>, i: nat, idx: nat, results: seq<Fields>)
    requires i < |rows|
    ensures Body(rows[..i + 1], idx, results) ==
      var c := Body(rows[..i], idx, results);
      if c.failure.Some? then c
      else
        var f := Fix(rows[i], idx, results);
        if f.Raise? then c.(failure := Some(f.exc))
        else Copy(c.written + [f.value], c.log + Report(rows[i], results), None)
  {
    assert rows[..i + 1][..i] == rows[..i];
  }

  lemma {:induction false} BodyStops(rows: seq<Row>, n: nat, idx: nat, results: seq<Fields>)
    requires n <= |rows| && Body(rows[..n], idx, results).failure.Some?
    ensures Body(rows, idx, results) == Body(rows[..n], idx, results)
  {
    if n < |rows| {
      var init := rows[..|rows| - 1];
      assert init[..n] == rows[..n];
      BodyStops(init, n, idx, results);
    } else {
      assert rows[..n] == rows;
    }
  }

  /** The rows are written in order, each one fixed: all of them when no
      exception occurs, otherwise those before the row that raised it. */
  lemma {:induction false} BodyWrites(rows: seq<Row>, idx: nat, results: seq<Fields>)
    ensures var c := Body(rows, idx, results);
      (c.failure.None? ==> |c.written| == |rows|)
      && (c.failure.Some? ==> |c.written| < |rows| && Fix(rows[|c.written|], idx, results) == Raise(c.failure.value))
      && forall k :: 0 <= k < |c.written| ==> Fix(rows[k], idx, results) == Ok(c.written[k])
  {
    if rows != [] {
      var init := rows[..|rows| - 1];
      BodyWrites(init, idx, results);
      var c := Body(init, idx, results);
      if c.failure.None? {
        var f := Fix(rows[|rows| - 1], idx, results);
        if f.Ok? {
          var w := c.written + [f.value];
          forall k | 0 <= k < |w| ensures Fix(rows[k], idx, results) == Ok(w[k]) {
            if k < |c.written| {
              assert rows[k] == init[k];
            }
          }
        }
      } else {
        assert rows[|c.written|] == init[|c.written|];
      }
    }
  }

  /** Row count and order are kept, the header is written unchanged, and in
      a data row only the `mc_crop` cell can change. A header without
      `mc_crop` raises ValueError and nothing is written. */
  lemma RecropKeeps(rows: seq<Row>, results: seq<Fields>)
    ensures var c := Recrop(rows, results);
      (rows != [] && "mc_crop" !in rows[0] <==> c.failure == Some(ValueError) && c.written == [])
      && (c.failure.None? ==> |c.written| == |rows|)
      && |c.written| <= |rows|
      && (rows != [] && "mc_crop" in rows[0] ==>
        var idx := IndexOf(rows[0], "mc_crop").value;
        rows[0][idx] == "mc_crop"
        && c.written[0] == rows[0]
        && forall k :: 1 <= k < |c.written| ==>
          |c.written[k]| == |rows[k]|
          && forall j :: 0 <= j < |rows[k]| && j != idx ==> c.written[k][j] == rows[k][j])
  {
    if rows != [] && "mc_crop" in rows[0] {
      var idx := IndexOf(rows[0], "mc_crop").value;
      var data := rows[1..];
      var b := Body(data, idx, results);
      BodyWrites(data, idx, results);
      if b.failure == Some(ValueError) {
        assert Fix(data[|b.written|], idx, results) == Raise(ValueError);
        FixNeverValueError(data[|b.written|], idx, results);
      }
      var c := Recrop(rows, results);
      forall k | 1 <= k < |c.written|
        ensures |c.written[k]| == |rows[k]|
        ensures forall j :: 0 <= j < |rows[k]| && j != idx ==> c.written[k][j] == rows[k][j]
      {
        assert c.written[k] == b.written[k - 1] && rows[k] == data[k - 1];
        FixSpec(data[k - 1], idx, results);
      }
    }
  }

  /** A data row never raises ValueError: that is reserved for the header. */
  lemma FixNeverValueError(r: Row, idx: nat, results: seq<Fields>)
    ensures Fix(r, idx, results) != Raise(ValueError)
  {
  }

  /** One data row: look up the first match, then replace cell `idx` with its
      Video Crop, or report the row as not found. */
  method FixRow(r: Row, idx: nat, results: seq<Fields>) returns (fixed: Result<Row>, missed: seq<string>)
    ensures fixed == Fix(r, idx, results)
    ensures fixed.Ok? ==> missed == Report(r, results)
  {
    missed := [];
    if |r| == 0 {
      return Raise(IndexError), missed;
    }
    var hit := Found(results, r);
    if hit.Raise? {
      return Raise(hit.exc), missed;
    }
    var row := r;
    if hit.value.Some? {
      var m := hit.value.value;
      if "Video Crop" !in m {
        return Raise(KeyError("Video Crop")), missed;
      }
      if idx >= |row| {
        return Raise(IndexError), missed;
      }
      row := row[idx := m["Video Crop"]];
    } else {
      missed := ["Failed to find " + r[0]];
    }
    return Ok(row), missed;
  }

  /** One data row of the copy loop: fixed and written, or the exception
      that ends the copy. */
  method CopyRow(row: Row, ghost data: seq<Row>, k: nat, idx: nat, results: seq<Fields>, ghost written: seq<Row>, log: seq<string>)
    returns (r: Row, log': seq<string>, stop: Option<Exception>)
    requires k < |data| && data[k] == row && Body(data[..k], idx, results) == Copy(written, log, None)
    ensures stop.None? ==> Body(data[..k + 1], idx, results) == Copy(written + [r], log', None)
    ensures stop.Some? ==> log' == log && Body(data, idx, results) == Copy(written, log, stop)
  {
    BodySnoc(data, k, idx, results);
    var fixed, missed := FixRow(row, idx, results);
    if fixed.Raise? {
      BodyStops(data, k + 1, idx, results);
      return row, log, Some(fixed.exc);
    }
    return fixed.value, log + missed, None;
  }

  /** The copy loop after its first i rows: the header gave `idx` and was
      written, and the data rows so far are the model's. */
  predicate Copying(rows: seq<Row>, i: nat, idx: nat, results: seq<Fields>, written: seq<Row>, log: seq<string>)
    requires 0 < i <= |rows|
  {
    IndexOf(rows[0], "mc_crop") == Some(idx) && written != [] && written[0] == rows[0]
    && Body(rows[1..][..i - 1], idx, results) == Copy(written[1..], log, None)
  }

  lemma CopyingStart(rows: seq<Row>, idx: nat, results: seq<Fields>)
    requires rows != [] && IndexOf(rows[0], "mc_crop") == Some(idx)
    ensures Copying(rows, 1, idx, results, [rows[0]], [])
  {
    assert rows[1..][..0] == [];
    assert [rows[0]][1..] == [];
  }

  lemma CopyingStep(rows: seq<Row>, i: nat, idx: nat, results: seq<Fields>, written: seq<Row>, log: seq<string>, r: Row, log': seq<string>)
    requires 0 < i < |rows| && Copying(rows, i, idx, results, written, log)
    requires Body(rows[1..][..i], idx, results) == Copy(written[1..] + [r], log', None)
    ensures Copying(rows, i + 1, idx, results, written + [r], log')
  {
    assert (written + [r])[1..] == written[1..] + [r];
  }

  lemma CopyingStop(rows: seq<Row>, i: nat, idx: nat, results: seq<Fields>, written: seq<Row>, log: seq<string>, stop: Option<Exception>)
    requires 0 < i <= |rows| && Copying(rows, i, idx, results, written, log)
    requires Body(rows[1..], idx, results) == Copy(written[1..], log, stop)
    ensures Recrop(rows, results) == Copy(written, log, stop)
  {
    assert written == [rows[0]] + written[1..];
  }

  lemma CopyingDone(rows: seq<Row>, idx: nat, results: seq<Fields>, written: seq<Row>, log: seq<string>)
    requires rows != [] && Copying(rows, |rows|, idx, results, written, log)
    ensures Recrop(rows, results) == Copy(written, log, None)
  {
    assert rows[1..][..|rows| - 1] == rows[1..];
    CopyingStop(rows, |rows|, idx, results, written, log, None);
  }

  /** The copy loop: the first row sets `idx`, each later row is fixed and
      written; the output so far is the model's. */
  method RecropFile(rows: seq<Row>, results: seq<Fields>) returns (c: Copy)
    ensures c == Recrop(rows, results)
  {
    var written: seq<Row> := [];
    var log: seq<string> := [];
    var idx: nat := 0;
    var i := 0;
    while i < |rows|
      invariant 0 <= i <= |rows|
      invariant i == 0 ==> written == [] && log == []
      invariant i > 0 ==> Copying(rows, i, idx, results, written, log)
    {
      var r := rows[i];
      if i == 0 {
        var found := IndexOf(r, "mc_crop");
        if found.None? {
          return Copy([], [], Some(ValueError));
        }
        idx := found.value;
        CopyingStart(rows, idx, results);
      } else {
        var stop, log';
        r, log', stop := CopyRow(r, rows[1..], i - 1, idx, results, written[1..], log);
        if stop.Some? {
          CopyingStop(rows, i, idx, results, written, log, stop);
          return Copy(written, log, stop);
        }
        CopyingStep(rows, i, idx, results, written, log, r, log');
        log := log';
      }
      written := written + [r];
      i := i + 1;
    }
    if rows == [] {
      return Copy([], [], None);
    }
    CopyingDone(rows, idx, results, written, log);
    return Copy(written, log, None);
  }
}
