/** gen_pattern.py: each patch set directory holds `<set>_100.csv`, one
    patch per row (index, then red, green and blue in percent). Every patch
    is rendered through the cache, and when all of them succeed the script
    writes verify.csv, the concat list (led by white patches in a verify
    set) and the chapter metadata, then joins the videos. */
module GenPattern {
  import opened Wrappers
  import opened Text
  import opened Library
  import opened Patch

  /** What the model takes as given for one row and one colour: the row's
      colour (`float(row[1]) / 100` and so on, rounded to 10 bits; Raise when
      a cell is missing or not a number), the external tools' behaviour for
      a colour, and the overlay text for a colour. */
  datatype Tools = Tools(colour: Row -> Result<Rgb>, render: Rgb -> Render, overlay: Rgb -> string)

  /** Where the patch loop stands: the indices whose patch failed, the
      successful patches in order, the files on disk, and the exception that
      escaped the loop, if one did. */
  datatype Batch = Batch(failed: seq<int>, done: seq<Patched>, files: set<string>, stop: Option<Exception>)

  /** The name of the patch set's definition file. */
  function DefName(setName: string): string {
    setName + "_100.csv"
  }

  /** One csv row: `int(row[0])` and the colour are read outside the try, so
      their errors end the loop; any failure of process_patch only records
      the index. */
  function PatchRow(b: Batch, row: Row, cache: string, force: bool, tools: Tools): Batch {
    if b.stop.Some? then b
    else
      var idx := Index(row);
      if idx.Raise? then b.(stop := Some(idx.exc))
      else
        var c := tools.colour(row);
        if c.Raise? then b.(stop := Some(c.exc))
        else
          Record(b, idx.value, ProcessPatch(cache, c.value, force, b.files, tools.render(c.value), tools.overlay(c.value), false))
  }

  /** The try block's outcome: a failure records the index, a success the patch. */
  function Record(b: Batch, idx: int, p: (Result<Patched>, set<string>)): Batch {
    if p.0.Raise? then Batch(b.failed + [idx], b.done, p.1, b.stop)
    else Batch(b.failed, b.done + [p.0.value], p.1, b.stop)
  }

  /** One row adds to exactly one of the two lists, or stops the loop. */
  lemma PatchRowSpec(b: Batch, row: Row, cache: string, force: bool, tools: Tools)
    requires b.stop.None?
    ensures var b' := PatchRow(b, row, cache, force, tools);
      b.files <= b'.files
      && (b'.stop.None? ==> |b'.failed| + |b'.done| == |b.failed| + |b.done| + 1)
      && b.done <= b'.done && (b'.done != b.done ==> b'.done == b.done + [b'.done[|b.done|]] && WellFormed(b'.done[|b.done|]))
  {
    var idx := Index(row);
    var c := tools.colour(row);
    if idx.Ok? && c.Ok? {
      var p := ProcessPatch(cache, c.value, force, b.files, tools.render(c.value), tools.overlay(c.value), false);
      assert PatchRow(b, row, cache, force, tools) == Record(b, idx.value, p);
      if p.0.Ok? {
        ProcessPatchSpec(cache, c.value, force, b.files, tools.render(c.value), tools.overlay(c.value), false);
        assert (b.done + [p.0.value])[|b.done|] == p.0.value;
      }
    }
  }

  /** The loop over the csv rows, in file order. */
  function Collect(rows: seq<Row>, cache: string, force: bool, files: set<string>, tools: Tools): Batch {
    if rows == [] then Batch([], [], files, None)
    else PatchRow(Collect(rows[..|rows| - 1], cache, force, files, tools), rows[|rows| - 1], cache, force, tools)
  }

  lemma CollectSnoc(rows: seq<Row>, i: nat, cache: string, force: bool, files: set<string>, tools: Tools)
    requires i < |rows|
    ensures Collect(rows[..i + 1], cache, force, files, tools) == PatchRow(Collect(rows[..i], cache, force, files, tools), rows[i], cache, force, tools)
  {
    assert rows[..i + 1][..i] == rows[..i];
  }

  /** Once an exception escapes, the remaining rows are not read. */
  lemma {:induction false} CollectStops(rows: seq<Row>, n: nat, cache: string, force: bool, files: set<string>, tools: Tools)
    requires n <= |rows| && Collect(rows[..n], cache, force, files, tools).stop.Some?
    ensures Collect(rows, cache, force, files, tools) == Collect(rows[..n], cache, force, files, tools)
  {
    if n < |rows| {
      var init := rows[..|rows| - 1];
      assert init[..n] == rows[..n];
      CollectStops(init, n, cache, force, files, tools);
    } else {
      assert rows[..n] == rows;
    }
  }

  /** Every row read either fails or succeeds, files are only ever added,
      and every success carries a seven-value verify row whose last value is
      the delta of the others. */
  lemma {:induction false} CollectSpec(rows: seq<Row>, cache: string, force: bool, files: set<string>, tools: Tools)
    ensures var b := Collect(rows, cache, force, files, tools);
      files <= b.files
      && (b.stop.None? ==> |b.failed| + |b.done| == |rows|)
      && forall k :: 0 <= k < |b.done| ==> WellFormed(b.done[k])
  {
    if rows != [] {
      var init := rows[..|rows| - 1];
      CollectSpec(init, cache, force, files, tools);
      var b := Collect(init, cache, force, files, tools);
      if b.stop.None? {
        PatchRowSpec(b, rows[|rows| - 1], cache, force, tools);
      }
    }
  }

  // -----------------------------------------------------------------------
  // generate_pattern

  /** The white patch's video, spelt out in generate_pattern. */
  function WhitePath(cache: string): string {
    JoinPath(cache, "1023_1023_1023/1023_1023_1023.mp4")
  }

  /** A patch's video is the white one exactly when its colour is white. */
  lemma WhitePathIff(cache: string, c: Rgb)
    ensures PatchVid(cache, c) == WhitePath(cache) <==> c == White
  {
    WhiteVid(cache);
    if PatchVid(cache, c) == WhitePath(cache) {
      VidInjective(cache, c, White);
    }
  }

  /** How many white copies lead a verify set: three when its first patch is
      the white one already, four otherwise. */
  function WhiteCount(cache: string, vids: seq<string>): nat
    requires vids != []
  {
    if vids[0] != WhitePath(cache) then 4 else 3
  }

  /** ffmpeg_input.txt: in a verify set the white copies, then every video
      in order. */
  function ConcatFile(cache: string, vids: seq<string>, isVerify: bool): seq<string>
    requires vids != []
  {
    var w := "file '" + WhitePath(cache) + "'";
    (if isVerify then seq(WhiteCount(cache, vids), _ => w) else []) + ConcatLines(vids)
  }

  /** The concat list is the white lead-in followed by exactly one line per
      video, in order. */
  lemma ConcatFileSpec(cache: string, vids: seq<string>, isVerify: bool)
    requires vids != []
    ensures var lines := ConcatFile(cache, vids, isVerify);
      var w := if isVerify then WhiteCount(cache, vids) else 0;
      |lines| == w + |vids|
      && (forall k :: 0 <= k < w ==> lines[k] == "file '" + WhitePath(cache) + "'")
      && forall k :: 0 <= k < |vids| ==> lines[w + k] == "file '" + vids[k] + "'"
  {
    ConcatLinesAt(vids);
  }

  /** generate_pattern's loops writing ffmpeg_input.txt. */
  method WriteConcat(cache: string, vids: seq<string>, isVerify: bool) returns (lines: seq<string>)
    requires vids != []
    ensures lines == ConcatFile(cache, vids, isVerify)
  {
    var white := WhitePath(cache);
    var whitePatches := if vids[0] != white then 4 else 3;
    var lead: seq<string> := [];
    if isVerify {
      var j := 0;
      while j < whitePatches
        invariant 0 <= j <= whitePatches
        invariant lead == seq(j, _ => "file '" + white + "'")
      {
        lead := lead + ["file '" + white + "'"];
        j := j + 1;
      }
    }
    lines := lead;
    var i := 0;
    while i < |vids|
      invariant 0 <= i <= |vids|
      invariant lines == lead + ConcatLines(vids[..i])
    {
      assert vids[..i + 1][..i] == vids[..i];
      lines := lines + ["file '" + vids[i] + "'"];
      i := i + 1;
    }
    assert vids[..i] == vids;
  }

  // -----------------------------------------------------------------------
  // process_patchset

  /** What one patch set leaves behind: verify.csv, ffmpeg_input.txt and the
      chapter lines of ffmpeg_meta.txt when each was written, the files on
      disk, and the exception that ended it, if one did. */
  datatype Outcome = Outcome(verify: Option<seq<Row>>, concat: Option<seq<string>>, chapters: Option<seq<string>>,
                             files: set<string>, failure: Option<Exception>)

  /** process_patchset. `rows` is the definition file (None when it does not
      exist), `joined` the failure of the final concatenation, if any. Any
      failed patch raises ValueError before anything is written; a set with
      no patch at all fails on `vids[0]` after verify.csv is written. */
  function Patchset(rows: Option<seq<Row>>, cache: string, frameCount: int, force: bool, isVerify: bool,
                    files: set<string>, tools: Tools, joined: Option<Exception>): Outcome
  {
    if rows.None? then Outcome(None, None, None, files, Some(OSError))
    else
      var b := Collect(rows.value, cache, force, files, tools);
      if b.stop.Some? then Outcome(None, None, None, b.files, b.stop)
      else if b.failed != [] then Outcome(None, None, None, b.files, Some(ValueError))
      else
        var verify := VerifyRows(Rgbs(b.done));
        if b.done == [] then Outcome(Some(verify), None, None, b.files, Some(IndexError))
        else
          Outcome(Some(verify), Some(ConcatFile(cache, Vids(b.done), isVerify)),
                  Some(ChapterList(b.done, ChapterMs(frameCount))), b.files, joined)
  }

  /** A single failed patch keeps every output file from being written; a
      clean run writes one verify row, one concat line and one chapter per
      patch, numbered and timed over the patches in csv order. */
  lemma PatchsetSpec(rows: Option<seq<Row>>, cache: string, frameCount: int, force: bool, isVerify: bool,
                     files: set<string>, tools: Tools, joined: Option<Exception>)
    ensures var out := Patchset(rows, cache, frameCount, force, isVerify, files, tools, joined);
      ((rows.Some? && Collect(rows.value, cache, force, files, tools).stop.None?
        && Collect(rows.value, cache, force, files, tools).failed != [])
        ==> out.failure == Some(ValueError) && out.verify.None? && out.concat.None? && out.chapters.None?)
      && (out.concat.Some? ==>
        rows.Some? &&
        var b := Collect(rows.value, cache, force, files, tools);
        b.failed == [] && |b.done| == |rows.value|
        && out.verify == Some(VerifyRows(Rgbs(b.done)))
        && out.chapters == Some(ChapterList(b.done, ChapterMs(frameCount)))
        && |out.verify.value| == |rows.value| + 1
        && |out.chapters.value| == 6 * |rows.value|
        && out.failure == joined)
  {
    if rows.Some? {
      CollectSpec(rows.value, cache, force, files, tools);
    }
  }

  /** The k-th successful patch gets verify row k + 1, numbered k, and the
      chapter whose first line is 6k, starting at k chapter lengths. */
  lemma PatchNumbering(done: seq<Patched>, d: int, k: nat)
    requires k < |done|
    ensures VerifyRows(Rgbs(done))[k + 1] == VerifyRow(k, done[k].rgb)
    ensures ParseInt(VerifyRows(Rgbs(done))[k + 1][0]) == Some(k)
    ensures ChapterList(done, d)[6 * k..6 * k + 6] == ChapterLines(k, d, done[k].overlay)
    ensures StartOf(ChapterList(done, d)[6 * k..6 * k + 6]) == Some(k * d)
  {
    ListsAt(done);
    VerifyRowsAt(Rgbs(done));
    VerifyRowNumber(k, done[k].rgb);
    ChapterListAt(done, d);
    ChaptersMeet(k, d, done[k].overlay, done[k].overlay);
  }

  /** The six chapter lines of a success, with the counter bumped between
      the START and END lines as process_patchset does. */
  method AddChapter(chapters: seq<string>, success: nat, d: int, overlay: string) returns (out: seq<string>, next: nat)
    ensures out == chapters + ChapterLines(success, d, overlay) && next == success + 1
  {
    out := chapters + ["[CHAPTER]", "TIMEBASE=1/1000", "START=" + IntToString(success * d)];
    next := success + 1;
    out := out + ["END=" + IntToString(next * d - 1), "title=" + NatToString(next) + " - " + overlay, ""];
  }

  /** The loop of process_patchset over the csv rows. */
  method PatchLoop(data: seq<Row>, cache: string, d: int, force: bool, files0: set<string>, tools: Tools)
    returns (failed: seq<int>, success: nat, vids: seq<string>, rgbs: seq<seq<int>>, chapters: seq<string>,
             files: set<string>, stop: Option<Exception>)
    ensures var b := Collect(data, cache, force, files0, tools);
      failed == b.failed && files == b.files && stop == b.stop
      && (stop.None? ==> success == |b.done| && vids == Vids(b.done) && rgbs == Rgbs(b.done) && chapters == ChapterList(b.done, d))
  {
    failed, success, vids, rgbs, chapters, files, stop := [], 0, [], [], [], files0, None;
    ghost var done: seq<Patched> := [];
    var i := 0;
    while i < |data|
      invariant 0 <= i <= |data|
      invariant Collect(data[..i], cache, force, files0, tools) == Batch(failed, done, files, None)
      invariant success == |done| && vids == Vids(done) && rgbs == Rgbs(done) && chapters == ChapterList(done, d)
    {
      CollectSnoc(data, i, cache, force, files0, tools);
      var row := data[i];
      var idx := Index(row);
      if idx.Raise? {
        CollectStops(data, i + 1, cache, force, files0, tools);
        stop := Some(idx.exc);
        return;
      }
      var c := tools.colour(row);
      if c.Raise? {
        CollectStops(data, i + 1, cache, force, files0, tools);
        stop := Some(c.exc);
        return;
      }
      ghost var before := Batch(failed, done, files, None);
      var p := ProcessPatch(cache, c.value, force, files, tools.render(c.value), tools.overlay(c.value), false);
      assert Collect(data[..i + 1], cache, force, files0, tools) == Record(before, idx.value, p);
      files := p.1;
      if p.0.Raise? {
        failed := failed + [idx.value];
      } else {
        var q := p.0.value;
        Appended(done, q, d);
        vids := vids + [q.vid];
        rgbs := rgbs + [q.rgb];
        chapters, success := AddChapter(chapters, success, d, q.overlay);
        done := done + [q];
      }
      i := i + 1;
    }
    assert data[..i] == data;
  }

  /** process_patchset: the loop, then the outputs. */
  method ProcessPatchset(rows: Option<seq<Row>>, cache: string, frameCount: int, force: bool, isVerify: bool,
                         files0: set<string>, tools: Tools, joined: Option<Exception>) returns (out: Outcome)
    ensures out == Patchset(rows, cache, frameCount, force, isVerify, files0, tools, joined)
  {
    if rows.None? {
      return Outcome(None, None, None, files0, Some(OSError));
    }
    var d := ChapterMs(frameCount);
    var failed, success, vids, rgbs, chapters, files, stop := PatchLoop(rows.value, cache, d, force, files0, tools);
    if stop.Some? {
      return Outcome(None, None, None, files, stop);
    }
    if failed != [] {
      return Outcome(None, None, None, files, Some(ValueError));
    }
    var verify := WriteVerify(rgbs);
    if vids == [] {
      return Outcome(Some(verify), None, None, files, Some(IndexError));
    }
    var concat := WriteConcat(cache, vids, isVerify);
    out := Outcome(Some(verify), Some(concat), Some(chapters), files, joined);
  }

  // -----------------------------------------------------------------------
  // The main loop

  /** The sets whose processing raised, in order, and the exit status. */
  function FailedSets(names: seq<string>, outcomes: seq<Outcome>): (failed: seq<string>)
    requires |names| == |outcomes|
    ensures |failed| <= |names|
  {
    if names == [] then []
    else
      var prev := FailedSets(names[..|names| - 1], outcomes[..|outcomes| - 1]);
      if outcomes[|outcomes| - 1].failure.Some? then prev + [names[|names| - 1]] else prev
  }

  /** The positions of the sets that raised, in increasing order. */
  function FailedPositions(outcomes: seq<Outcome>): (pos: seq<nat>)
    ensures forall k :: 0 <= k < |pos| ==> pos[k] < |outcomes| && outcomes[pos[k]].failure.Some?
    ensures forall k, l :: 0 <= k < l < |pos| ==> pos[k] < pos[l]
    ensures forall i :: 0 <= i < |outcomes| && outcomes[i].failure.Some? ==> i in pos
  {
    if outcomes == [] then []
    else
      var n := |outcomes| - 1;
      var init := FailedPositions(outcomes[..n]);
      assert forall i :: 0 <= i < n ==> outcomes[..n][i] == outcomes[i];
      if outcomes[n].failure.Some? then init + [n] else init
  }

  /** The failed list is the names of the sets that raised, in the order
      the sets were processed, each once per set. */
  lemma {:induction false} FailedSetsInOrder(names: seq<string>, outcomes: seq<Outcome>)
    requires |names| == |outcomes|
    ensures |FailedSets(names, outcomes)| == |FailedPositions(outcomes)|
    ensures forall k :: 0 <= k < |FailedSets(names, outcomes)| ==>
      FailedSets(names, outcomes)[k] == names[FailedPositions(outcomes)[k]]
  {
    if names != [] {
      var n := |names| - 1;
      var pn, po := names[..n], outcomes[..n];
      FailedSetsInOrder(pn, po);
      var pos := FailedPositions(po);
      var fs := FailedSets(pn, po);
      if outcomes[n].failure.Some? {
        assert FailedSets(names, outcomes) == fs + [names[n]];
        assert FailedPositions(outcomes) == pos + [n];
      } else {
        assert FailedSets(names, outcomes) == fs;
        assert FailedPositions(outcomes) == pos;
      }
      forall k | 0 <= k < |fs|
        ensures FailedSets(names, outcomes)[k] == names[FailedPositions(outcomes)[k]]
      {
        assert fs[k] == pn[pos[k]];
      }
    }
  }

  function ExitStatus(names: seq<string>, outcomes: seq<Outcome>): int
    requires |names| == |outcomes|
  {
    if FailedSets(names, outcomes) == [] then 0 else 1
  }

  /** Every set is processed whatever the others do; a set is listed as
      failed exactly when it raised, and the exit status is 0 exactly when
      none did. */
  lemma {:induction false} FailedSetsSpec(names: seq<string>, outcomes: seq<Outcome>)
    requires |names| == |outcomes|
    ensures (forall s :: s in FailedSets(names, outcomes) ==> s in names)
    ensures (forall s :: s in FailedSets(names, outcomes) ==>
               exists k :: 0 <= k < |names| && names[k] == s && outcomes[k].failure.Some?)
    ensures (forall k :: 0 <= k < |names| && outcomes[k].failure.Some? ==> names[k] in FailedSets(names, outcomes))
    ensures ExitStatus(names, outcomes) == 0 <==> forall k :: 0 <= k < |outcomes| ==> outcomes[k].failure.None?
  {
    if names != [] {
      var n, o := names[..|names| - 1], outcomes[..|outcomes| - 1];
      FailedSetsSpec(n, o);
      assert forall k :: 0 <= k < |n| ==> n[k] == names[k] && o[k] == outcomes[k];
      var prev := FailedSets(n, o);
      if outcomes[|outcomes| - 1].failure.Some? {
        assert names[|names| - 1] in prev + [names[|names| - 1]];
      }
    }
  }
}
