/** pattern/gen_pattern.py: gen_pattern.py with an optional HDR mode
    (`--hdr p3` or `--hdr 2020`, modelled as a string, "" for none), which
    keeps its own cache sub-directory and suffixed output names. A verify
    set gains its white patches at the csv row with index 0, and the patch
    step do_patch records a failure in the module-level list of failures,
    not in the patch set's own. */
module HdrPattern {
  import opened Wrappers
  import opened Text
  import opened Library
  import opened Patch
  import GenPattern

  // -----------------------------------------------------------------------
  // Names

  /** `cache_dir / hdr` when HDR is on. */
  function CacheFor(cache: string, hdr: string): string {
    if hdr == "" then cache else JoinPath(cache, hdr)
  }

  /** `f'{base}_{hdr}'` when HDR is on. */
  function Suffixed(base: string, hdr: string): string {
    if hdr == "" then base else base + "_" + hdr
  }

  function ConcatName(hdr: string): string {
    Suffixed("ffmpeg_input", hdr) + ".txt"
  }

  function VerifyName(hdr: string): string {
    Suffixed("verify", hdr) + ".csv"
  }

  function VideoName(setName: string, hdr: string): string {
    Suffixed(setName, hdr) + ".mp4"
  }

  /** Without HDR the names are gen_pattern.py's; each HDR mode gets names
      of its own, so the outputs of different modes never overwrite one
      another. */
  lemma SuffixedSpec(base: string, h1: string, h2: string)
    ensures Suffixed(base, "") == base
    ensures Suffixed(base, h1) == Suffixed(base, h2) ==> h1 == h2
  {
    var n := |base| + 1;
    if h1 != "" {
      assert |Suffixed(base, h1)| >= n && Suffixed(base, h1)[n..] == h1;
    }
    if h2 != "" {
      assert |Suffixed(base, h2)| >= n && Suffixed(base, h2)[n..] == h2;
    }
  }

  lemma NamesSpec(setName: string, h1: string, h2: string)
    ensures ConcatName("") == "ffmpeg_input.txt" && VerifyName("") == "verify.csv" && VideoName(setName, "") == setName + ".mp4"
    ensures ConcatName(h1) == ConcatName(h2) ==> h1 == h2
    ensures VerifyName(h1) == VerifyName(h2) ==> h1 == h2
    ensures VideoName(setName, h1) == VideoName(setName, h2) ==> h1 == h2
  {
    SuffixedSpec("ffmpeg_input", h1, h2);
    SuffixedSpec("verify", h1, h2);
    SuffixedSpec(setName, h1, h2);
    if ConcatName(h1) == ConcatName(h2) {
      SuffixDrop(Suffixed("ffmpeg_input", h1), Suffixed("ffmpeg_input", h2), ".txt");
    }
    if VerifyName(h1) == VerifyName(h2) {
      SuffixDrop(Suffixed("verify", h1), Suffixed("verify", h2), ".csv");
    }
    if VideoName(setName, h1) == VideoName(setName, h2) {
      SuffixDrop(Suffixed(setName, h1), Suffixed(setName, h2), ".mp4");
    }
  }

  lemma SuffixDrop(a: string, b: string, ext: string)
    requires a + ext == b + ext
    ensures a == b
  {
    assert |a| == |b|;
    assert (a + ext)[..|a|] == a;
    assert (b + ext)[..|b|] == b;
  }

  // -----------------------------------------------------------------------
  // The patch loop

  /** As GenPattern.Tools, with the csv row's `is_white` test (all three
      channels close to 100%). */
  datatype Tools = Tools(colour: Row -> Result<Rgb>, render: Rgb -> Render, overlay: Rgb -> string, isWhite: Row -> bool)

  /** Where the loop stands: the successful patches in order, the files on
      disk, the indices do_patch recorded as failed, the current
      `extra_patches`, and the exception that escaped the loop, if any. */
  datatype Loop = Loop(done: seq<Patched>, files: set<string>, failed: seq<int>, extra: int, stop: Option<Exception>)

  /** do_patch: a success is added to the lists; a failure is recorded in
      the failure list and the loop goes on. */
  function DoPatch(l: Loop, idx: int, c: Rgb, cache: string, force: bool, tools: Tools): Loop {
    Record(l, idx, ProcessPatch(cache, c, force, l.files, tools.render(c), tools.overlay(c), true))
  }

  function Record(l: Loop, idx: int, p: (Result<Patched>, set<string>)): Loop {
    if p.0.Raise? then Loop(l.done, p.1, l.failed + [idx], l.extra, l.stop)
    else Loop(l.done + [p.0.value], p.1, l.failed, l.extra, l.stop)
  }

  /** One do_patch call adds exactly one entry: the patch, or its index;
      and the only patches it adds are well-formed ones for its colour. */
  lemma DoPatchSpec(l: Loop, idx: int, c: Rgb, cache: string, force: bool, tools: Tools)
    ensures var l' := DoPatch(l, idx, c, cache, force, tools);
      l.files <= l'.files && l'.extra == l.extra && l'.stop == l.stop
      && ((l'.done == l.done && l'.failed == l.failed + [idx])
          || (l'.failed == l.failed && |l'.done| == |l.done| + 1 && l'.done[..|l.done|] == l.done
              && l'.done[|l.done|].vid == PatchVid(cache, c) && WellFormed(l'.done[|l.done|])))
  {
    var p := ProcessPatch(cache, c, force, l.files, tools.render(c), tools.overlay(c), true);
    if p.0.Ok? {
      ProcessPatchSpec(cache, c, force, l.files, tools.render(c), tools.overlay(c), true);
      assert (l.done + [p.0.value])[..|l.done|] == l.done;
    }
  }

  lemma DoPatchKeeps(l: Loop, idx: int, c: Rgb, cache: string, force: bool, tools: Tools)
    ensures var l' := DoPatch(l, idx, c, cache, force, tools);
      l' == Loop(l'.done, l'.files, l'.failed, l.extra, l.stop)
  {
  }

  /** `for i in range(extra_patches): do_patch(i, 1.0, 1.0, 1.0, ...)`. */
  function Whites(l: Loop, n: nat, cache: string, force: bool, tools: Tools): Loop {
    if n == 0 then l else DoPatch(Whites(l, n - 1, cache, force, tools), n - 1, White, cache, force, tools)
  }

  /** From `l` to `w` the lead-in's `n` calls keep the files, the offset and
      the stop, add `n` entries after the old ones, every patch they add is
      the white one, and every index they record is below `n`. */
  predicate Grows(l: Loop, w: Loop, n: nat, cache: string) {
    l.files <= w.files && w.extra == l.extra && w.stop == l.stop
    && |w.done| + |w.failed| == |l.done| + |l.failed| + n
    && |l.done| <= |w.done| && w.done[..|l.done|] == l.done
    && (forall k :: |l.done| <= k < |w.done| ==> w.done[k].vid == PatchVid(cache, White))
    && |l.failed| <= |w.failed| && w.failed[..|l.failed|] == l.failed
    && (forall k :: |l.failed| <= k < |w.failed| ==> 0 <= w.failed[k] < n)
  }

  lemma GrowsStep(l: Loop, v: Loop, w: Loop, n: nat, cache: string)
    requires n > 0 && Grows(l, v, n - 1, cache)
    requires v.files <= w.files && w.extra == v.extra && w.stop == v.stop
    requires (w.done == v.done && w.failed == v.failed + [n - 1])
             || (w.failed == v.failed && |w.done| == |v.done| + 1 && w.done[..|v.done|] == v.done
                 && w.done[|v.done|].vid == PatchVid(cache, White))
    ensures Grows(l, w, n, cache)
  {
    assert w.done[..|v.done|][..|l.done|] == w.done[..|l.done|];
    assert w.failed[..|v.failed|][..|l.failed|] == w.failed[..|l.failed|];
    forall k | |l.done| <= k < |w.done| ensures w.done[k].vid == PatchVid(cache, White) {
      if k < |v.done| {
        assert w.done[k] == w.done[..|v.done|][k];
      }
    }
    forall k | |l.failed| <= k < |w.failed| ensures 0 <= w.failed[k] < n {
      if k < |v.failed| {
        assert w.failed[k] == w.failed[..|v.failed|][k];
      }
    }
  }

  /** The lead-in adds n entries, every patch it adds is the white one, and
      every index it records is below n. */
  lemma {:induction false} WhitesSpec(l: Loop, n: nat, cache: string, force: bool, tools: Tools)
    ensures Grows(l, Whites(l, n, cache, force, tools), n, cache)
  {
    if n == 0 {
      assert l.done[..|l.done|] == l.done && l.failed[..|l.failed|] == l.failed;
    } else {
      WhitesSpec(l, n - 1, cache, force, tools);
      var v := Whites(l, n - 1, cache, force, tools);
      DoPatchSpec(v, n - 1, White, cache, force, tools);
      GrowsStep(l, v, DoPatch(v, n - 1, White, cache, force, tools), n, cache);
    }
  }

  /** The white lead-in of a verify set, run at the row with index 0: three
      patches when the row itself is white, four otherwise; the count becomes
      the offset added to this row's index and every later one. */
  function LeadIn(l: Loop, row: Row, idx: int, isVerify: bool, cache: string, force: bool, tools: Tools): Loop {
    if idx == 0 && isVerify then
      var n := if tools.isWhite(row) then 3 else 4;
      Whites(l, n, cache, force, tools).(extra := n)
    else l
  }

  /** One csv row: its index and colour are read outside do_patch, so their
      errors end the loop. */
  function RowStep(l: Loop, row: Row, isVerify: bool, cache: string, force: bool, tools: Tools): Loop {
    if l.stop.Some? then l
    else
      var idx := Index(row);
      if idx.Raise? then l.(stop := Some(idx.exc))
      else
        var c := tools.colour(row);
        if c.Raise? then l.(stop := Some(c.exc))
        else
          var m := LeadIn(l, row, idx.value, isVerify, cache, force, tools);
          DoPatch(m, idx.value + m.extra, c.value, cache, force, tools)
  }

  lemma RowStepParsed(l: Loop, row: Row, idx: int, c: Rgb, isVerify: bool, cache: string, force: bool, tools: Tools,
                      m: Loop, j: int, l': Loop)
    requires l.stop.None? && Index(row) == Ok(idx) && tools.colour(row) == Ok(c)
    requires m == LeadIn(l, row, idx, isVerify, cache, force, tools) && j == idx + m.extra
    requires l' == DoPatch(m, j, c, cache, force, tools)
    ensures RowStep(l, row, isVerify, cache, force, tools) == l'
  {
  }

  /** The loop over the csv rows. */
  function Run(rows: seq<Row>, isVerify: bool, cache: string, force: bool, files: set<string>, tools: Tools): Loop {
    if rows == [] then Loop([], files, [], 0, None)
    else RowStep(Run(rows[..|rows| - 1], isVerify, cache, force, files, tools), rows[|rows| - 1], isVerify, cache, force, tools)
  }

  lemma RunSnoc(rows: seq<Row>, i: nat, isVerify: bool, cache: string, force: bool, files: set<string>, tools: Tools)
    requires i < |rows|
    ensures Run(rows[..i + 1], isVerify, cache, force, files, tools)
      == RowStep(Run(rows[..i], isVerify, cache, force, files, tools), rows[i], isVerify, cache, force, tools)
  {
    assert rows[..i + 1][..i] == rows[..i];
  }

  lemma {:induction false} RunStops(rows: seq<Row>, n: nat, isVerify: bool, cache: string, force: bool, files: set<string>, tools: Tools)
    requires n <= |rows| && Run(rows[..n], isVerify, cache, force, files, tools).stop.Some?
    ensures Run(rows, isVerify, cache, force, files, tools) == Run(rows[..n], isVerify, cache, force, files, tools)
  {
    if n < |rows| {
      var init := rows[..|rows| - 1];
      assert init[..n] == rows[..n];
      RunStops(init, n, isVerify, cache, force, files, tools);
    } else {
      assert rows[..n] == rows;
    }
  }

  /** Outside verify sets no white patch is added: each row read makes one
      do_patch call, and its index is the row's own. */
  lemma {:induction false} RunPlain(rows: seq<Row>, cache: string, force: bool, files: set<string>, tools: Tools)
    ensures var l := Run(rows, false, cache, force, files, tools);
      l.extra == 0 && files <= l.files && (l.stop.None? ==> |l.done| + |l.failed| == |rows|)
  {
    if rows != [] {
      var init := rows[..|rows| - 1];
      RunPlain(init, cache, force, files, tools);
      var l := Run(init, false, cache, force, files, tools);
      var row := rows[|rows| - 1];
      assert Run(rows, false, cache, force, files, tools) == RowStep(l, row, false, cache, force, tools);
      if l.stop.None? && Index(row).Ok? && tools.colour(row).Ok? {
        var idx, c := Index(row).value, tools.colour(row).value;
        RowStepParsed(l, row, idx, c, false, cache, force, tools, l, idx, DoPatch(l, idx, c, cache, force, tools));
        DoPatchSpec(l, idx, c, cache, force, tools);
      }
    }
  }

  // -----------------------------------------------------------------------
  // process_patchset

  datatype SetInput = SetInput(rows: Option<seq<Row>>, isVerify: bool, joined: Option<Exception>)

  /** process_patchset as written, with the indices do_patch recorded. Its
      own `failed` list is never appended to, so a run whose patches failed
      still writes verify.csv, the concat list and the chapters of the
      patches that worked. This script's concat list, in every mode, has
      no white lead-in and no `vids[0]`. */
  function Patchset(s: SetInput, cache: string, hdr: string, frameCount: int, force: bool, files: set<string>, tools: Tools): (r: (GenPattern.Outcome, seq<int>))
  {
    if s.rows.None? then (GenPattern.Outcome(None, None, None, files, Some(OSError)), [])
    else
      var l := Run(s.rows.value, s.isVerify, CacheFor(cache, hdr), force, files, tools);
      if l.stop.Some? then (GenPattern.Outcome(None, None, None, l.files, l.stop), l.failed)
      else
        (GenPattern.Outcome(Some(VerifyRows(Rgbs(l.done))), Some(ConcatLines(Vids(l.done))),
                            Some(ChapterList(l.done, ChapterMs(frameCount))), l.files, s.joined), l.failed)
  }

  /** process_patchset as evidently intended: a failed patch raises
      ValueError and nothing is written. */
  function PatchsetFixed(s: SetInput, cache: string, hdr: string, frameCount: int, force: bool, files: set<string>, tools: Tools): (r: (GenPattern.Outcome, seq<int>))
  {
    if s.rows.None? then Patchset(s, cache, hdr, frameCount, force, files, tools)
    else
      var l := Run(s.rows.value, s.isVerify, CacheFor(cache, hdr), force, files, tools);
      if l.stop.None? && l.failed != [] then (GenPattern.Outcome(None, None, None, l.files, Some(ValueError)), l.failed)
      else Patchset(s, cache, hdr, frameCount, force, files, tools)
  }

  /** As written, a set whose patches failed is reported as processed
      (only the final concatenation can fail it) and its outputs hold only
      the patches that worked. */
  lemma PatchFailuresIgnored(s: SetInput, cache: string, hdr: string, frameCount: int, force: bool, files: set<string>, tools: Tools)
    requires s.rows.Some?
    requires Run(s.rows.value, s.isVerify, CacheFor(cache, hdr), force, files, tools).stop.None?
    requires Run(s.rows.value, s.isVerify, CacheFor(cache, hdr), force, files, tools).failed != []
    ensures var (out, failed) := Patchset(s, cache, hdr, frameCount, force, files, tools);
      var l := Run(s.rows.value, s.isVerify, CacheFor(cache, hdr), force, files, tools);
      failed != [] && out.failure == s.joined
      && out.verify == Some(VerifyRows(Rgbs(l.done))) && |out.verify.value| == |l.done| + 1
  {
  }

  /** Once corrected, the set fails with ValueError exactly when a patch
      failed (the definition file read and every row parsed), and then
      writes nothing. */
  lemma PatchsetFixedSpec(s: SetInput, cache: string, hdr: string, frameCount: int, force: bool, files: set<string>, tools: Tools)
    requires s.rows.Some?
    requires Run(s.rows.value, s.isVerify, CacheFor(cache, hdr), force, files, tools).stop.None?
    requires s.joined != Some(ValueError)
    ensures var (out, failed) := PatchsetFixed(s, cache, hdr, frameCount, force, files, tools);
      (out.failure == Some(ValueError) <==> failed != [])
      && (failed != [] ==> out.verify.None? && out.concat.None? && out.chapters.None?)
      && (failed == [] ==> out == Patchset(s, cache, hdr, frameCount, force, files, tools).0)
  {
  }

  // -----------------------------------------------------------------------
  // The main loop

  /** The module-level failure list holds both patch indices (from
      do_patch) and patch set names (from the main loop). */
  datatype Failure = PatchIdx(idx: int) | SetName(name: string)

  function AsFailures(idx: seq<int>): (fs: seq<Failure>)
    ensures |fs| == |idx|
    ensures forall k :: 0 <= k < |fs| ==> fs[k] == PatchIdx(idx[k])
  {
    if idx == [] then [] else AsFailures(idx[..|idx| - 1]) + [PatchIdx(idx[|idx| - 1])]
  }

  /** The main loop over the patch sets, threading the files on disk and the
      module-level failure list; `fixed` selects the corrected set step, whose
      patch failures stay in the set. */
  function RunAll(names: seq<string>, sets: seq<SetInput>, cache: string, hdr: string, frameCount: int, force: bool,
                  files: set<string>, tools: Tools, fixed: bool): (r: (set<string>, seq<Failure>))
    requires |names| == |sets|
  {
    if sets == [] then (files, [])
    else
      var prev := RunAll(names[..|names| - 1], sets[..|sets| - 1], cache, hdr, frameCount, force, files, tools, fixed);
      var s := sets[|sets| - 1];
      var step := if fixed then PatchsetFixed(s, cache, hdr, frameCount, force, prev.0, tools)
                  else Patchset(s, cache, hdr, frameCount, force, prev.0, tools);
      var recorded := if fixed then [] else AsFailures(step.1);
      var named := if step.0.failure.Some? then [SetName(names[|names| - 1])] else [];
      (step.0.files, prev.1 + recorded + named)
  }

  /** `", ".join(failed)` and the exit status: 0 with nothing failed, 1 after
      the warning, and a TypeError when the list holds a patch index. */
  function Exit(failed: seq<Failure>): Result<int> {
    if failed == [] then Ok(0)
    else if exists k :: 0 <= k < |failed| && failed[k].PatchIdx? then Raise(TypeError)
    else Ok(1)
  }

  /** Corrected, set k raises when run in the files the sets before it
      left. */
  predicate FixedSetFails(names: seq<string>, sets: seq<SetInput>, cache: string, hdr: string, frameCount: int,
                          force: bool, files: set<string>, tools: Tools, k: nat)
    requires |names| == |sets| && k < |sets|
  {
    var before := RunAll(names[..k], sets[..k], cache, hdr, frameCount, force, files, tools, true).0;
    PatchsetFixed(sets[k], cache, hdr, frameCount, force, before, tools).0.failure.Some?
  }

  /** The corrected loop's outcome for each set, each run in the files the
      sets before it left. */
  function FixedOutcomes(names: seq<string>, sets: seq<SetInput>, cache: string, hdr: string, frameCount: int,
                         force: bool, files: set<string>, tools: Tools): (os: seq<GenPattern.Outcome>)
    requires |names| == |sets|
    ensures |os| == |sets|
  {
    if sets == [] then []
    else
      var n := |sets| - 1;
      var before := RunAll(names[..n], sets[..n], cache, hdr, frameCount, force, files, tools, true).0;
      FixedOutcomes(names[..n], sets[..n], cache, hdr, frameCount, force, files, tools)
      + [PatchsetFixed(sets[n], cache, hdr, frameCount, force, before, tools).0]
  }

  /** Whether set k fails does not depend on the sets after it. */
  lemma FixedSetFailsPrefix(names: seq<string>, sets: seq<SetInput>, cache: string, hdr: string, frameCount: int,
                            force: bool, files: set<string>, tools: Tools, n: nat, k: nat)
    requires |names| == |sets| && k < n <= |sets|
    ensures FixedSetFails(names[..n], sets[..n], cache, hdr, frameCount, force, files, tools, k)
      == FixedSetFails(names, sets, cache, hdr, frameCount, force, files, tools, k)
  {
    assert names[..n][..k] == names[..k] && sets[..n][..k] == sets[..k] && sets[..n][k] == sets[k];
  }

  /** The last outcome is that of the last set, run after the others. */
  lemma FixedOutcomesLast(names: seq<string>, sets: seq<SetInput>, cache: string, hdr: string, frameCount: int,
                          force: bool, files: set<string>, tools: Tools)
    requires |names| == |sets| && sets != []
    ensures var n := |sets| - 1;
      FixedOutcomes(names, sets, cache, hdr, frameCount, force, files, tools)[n].failure.Some?
        == FixedSetFails(names, sets, cache, hdr, frameCount, force, files, tools, n)
  {
  }

  /** The sets after set k do not change its outcome. */
  lemma FixedOutcomesPrefix(names: seq<string>, sets: seq<SetInput>, cache: string, hdr: string, frameCount: int,
                            force: bool, files: set<string>, tools: Tools, k: nat)
    requires |names| == |sets| && k < |sets| - 1
    ensures var n := |sets| - 1;
      FixedOutcomes(names, sets, cache, hdr, frameCount, force, files, tools)[k]
        == FixedOutcomes(names[..n], sets[..n], cache, hdr, frameCount, force, files, tools)[k]
  {
  }

  /** Outcome k is that of set k, run in the files the sets before it left. */
  lemma {:induction false} FixedOutcomesAt(names: seq<string>, sets: seq<SetInput>, cache: string, hdr: string, frameCount: int,
                                           force: bool, files: set<string>, tools: Tools, k: nat)
    requires |names| == |sets| && k < |sets|
    ensures FixedOutcomes(names, sets, cache, hdr, frameCount, force, files, tools)[k].failure.Some?
      == FixedSetFails(names, sets, cache, hdr, frameCount, force, files, tools, k)
    decreases |sets|
  {
    var n := |sets| - 1;
    if k < n {
      FixedOutcomesAt(names[..n], sets[..n], cache, hdr, frameCount, force, files, tools, k);
      FixedSetFailsPrefix(names, sets, cache, hdr, frameCount, force, files, tools, n, k);
      FixedOutcomesPrefix(names, sets, cache, hdr, frameCount, force, files, tools, k);
    } else {
      FixedOutcomesLast(names, sets, cache, hdr, frameCount, force, files, tools);
    }
  }

  /** Set names as module-level list entries. */
  function AsSetNames(names: seq<string>): (fs: seq<Failure>)
    ensures |fs| == |names|
    ensures forall j :: 0 <= j < |fs| ==> fs[j] == SetName(names[j])
  {
    if names == [] then [] else AsSetNames(names[..|names| - 1]) + [SetName(names[|names| - 1])]
  }

  lemma AsSetNamesSnoc(names: seq<string>, name: string)
    ensures AsSetNames(names + [name]) == AsSetNames(names) + [SetName(name)]
  {
    assert (names + [name])[..|names|] == names;
  }

  /** The corrected loop adds the last set's name after the others' exactly
      when its outcome is a failure. */
  lemma RunAllFixedStep(names: seq<string>, sets: seq<SetInput>, cache: string, hdr: string, frameCount: int,
                        force: bool, files: set<string>, tools: Tools)
    requires |names| == |sets| && sets != []
    ensures var n := |sets| - 1;
      FixedOutcomes(names, sets, cache, hdr, frameCount, force, files, tools)[..n]
        == FixedOutcomes(names[..n], sets[..n], cache, hdr, frameCount, force, files, tools)
      && RunAll(names, sets, cache, hdr, frameCount, force, files, tools, true).1
         == RunAll(names[..n], sets[..n], cache, hdr, frameCount, force, files, tools, true).1
            + (if FixedOutcomes(names, sets, cache, hdr, frameCount, force, files, tools)[n].failure.Some? then [SetName(names[n])] else [])
  {
  }

  /** The corrected main loop's list is the names of the failed sets, in
      order, as the failed list of gen_pattern.py is. */
  lemma {:induction false} RunAllFixedFailures(names: seq<string>, sets: seq<SetInput>, cache: string, hdr: string, frameCount: int,
                                               force: bool, files: set<string>, tools: Tools)
    requires |names| == |sets|
    ensures RunAll(names, sets, cache, hdr, frameCount, force, files, tools, true).1
            == AsSetNames(GenPattern.FailedSets(names, FixedOutcomes(names, sets, cache, hdr, frameCount, force, files, tools)))
  {
    if sets != [] {
      var n := |sets| - 1;
      RunAllFixedFailures(names[..n], sets[..n], cache, hdr, frameCount, force, files, tools);
      RunAllFixedStep(names, sets, cache, hdr, frameCount, force, files, tools);
      var os := FixedOutcomes(names, sets, cache, hdr, frameCount, force, files, tools);
      var prev := GenPattern.FailedSets(names[..n], os[..n]);
      AsSetNamesSnoc(prev, names[n]);
      assert GenPattern.FailedSets(names, os) == if os[n].failure.Some? then prev + [names[n]] else prev;
    }
  }

  /** The corrected main loop names every set that failed. */
  lemma RunAllFixedComplete(names: seq<string>, sets: seq<SetInput>, cache: string, hdr: string, frameCount: int,
                            force: bool, files: set<string>, tools: Tools)
    requires |names| == |sets|
    ensures var fs := RunAll(names, sets, cache, hdr, frameCount, force, files, tools, true).1;
      forall k {:trigger FixedSetFails(names, sets, cache, hdr, frameCount, force, files, tools, k)} ::
        0 <= k < |sets| && FixedSetFails(names, sets, cache, hdr, frameCount, force, files, tools, k) ==> SetName(names[k]) in fs
  {
    var os := FixedOutcomes(names, sets, cache, hdr, frameCount, force, files, tools);
    var fs := RunAll(names, sets, cache, hdr, frameCount, force, files, tools, true).1;
    RunAllFixedFailures(names, sets, cache, hdr, frameCount, force, files, tools);
    GenPattern.FailedSetsSpec(names, os);
    var failed := GenPattern.FailedSets(names, os);
    forall k | 0 <= k < |sets| && FixedSetFails(names, sets, cache, hdr, frameCount, force, files, tools, k)
      ensures SetName(names[k]) in fs
    {
      FixedOutcomesAt(names, sets, cache, hdr, frameCount, force, files, tools, k);
      var j :| 0 <= j < |failed| && failed[j] == names[k];
      assert fs[j] == SetName(names[k]);
    }
  }

  /** The corrected main loop records set names only, and only those of
      sets that failed; RunAllFixedComplete adds that every failed set is
      named. */
  lemma RunAllFixedNames(names: seq<string>, sets: seq<SetInput>, cache: string, hdr: string, frameCount: int,
                         force: bool, files: set<string>, tools: Tools)
    requires |names| == |sets|
    ensures var fs := RunAll(names, sets, cache, hdr, frameCount, force, files, tools, true).1;
      |fs| <= |sets| && forall k :: 0 <= k < |fs| ==> fs[k].SetName?
    ensures var fs := RunAll(names, sets, cache, hdr, frameCount, force, files, tools, true).1;
      forall j :: 0 <= j < |fs| ==>
        exists k {:trigger FixedSetFails(names, sets, cache, hdr, frameCount, force, files, tools, k)} ::
          0 <= k < |sets| && FixedSetFails(names, sets, cache, hdr, frameCount, force, files, tools, k) && fs[j] == SetName(names[k])
  {
    var os := FixedOutcomes(names, sets, cache, hdr, frameCount, force, files, tools);
    var fs := RunAll(names, sets, cache, hdr, frameCount, force, files, tools, true).1;
    RunAllFixedFailures(names, sets, cache, hdr, frameCount, force, files, tools);
    GenPattern.FailedSetsInOrder(names, os);
    var failed := GenPattern.FailedSets(names, os);
    var pos := GenPattern.FailedPositions(os);
    forall j | 0 <= j < |fs|
      ensures exists k {:trigger FixedSetFails(names, sets, cache, hdr, frameCount, force, files, tools, k)} ::
                0 <= k < |sets| && FixedSetFails(names, sets, cache, hdr, frameCount, force, files, tools, k) && fs[j] == SetName(names[k])
    {
      var k := pos[j];
      FixedOutcomesAt(names, sets, cache, hdr, frameCount, force, files, tools, k);
      assert fs[j] == SetName(failed[j]) && failed[j] == names[k];
    }
    forall j | 0 <= j < |fs|
      ensures fs[j].SetName?
    {
      assert fs[j] == SetName(failed[j]);
    }
  }

  /** Corrected, the list stays empty exactly when no set failed. */
  lemma RunAllFixedEmpty(names: seq<string>, sets: seq<SetInput>, cache: string, hdr: string, frameCount: int,
                         force: bool, files: set<string>, tools: Tools)
    requires |names| == |sets|
    ensures RunAll(names, sets, cache, hdr, frameCount, force, files, tools, true).1 == []
            <==> forall k :: 0 <= k < |sets| ==> !FixedSetFails(names, sets, cache, hdr, frameCount, force, files, tools, k)
  {
    var fs := RunAll(names, sets, cache, hdr, frameCount, force, files, tools, true).1;
    if fs == [] {
      RunAllFixedComplete(names, sets, cache, hdr, frameCount, force, files, tools);
    } else {
      var os := FixedOutcomes(names, sets, cache, hdr, frameCount, force, files, tools);
      RunAllFixedFailures(names, sets, cache, hdr, frameCount, force, files, tools);
      GenPattern.FailedSetsInOrder(names, os);
      FixedOutcomesAt(names, sets, cache, hdr, frameCount, force, files, tools, GenPattern.FailedPositions(os)[0]);
    }
  }

  /** As written, one failed patch anywhere makes the closing report raise
      TypeError instead of listing the failed sets. */
  lemma {:induction false} AsWrittenExit(names: seq<string>, sets: seq<SetInput>, cache: string, hdr: string, frameCount: int,
                                         force: bool, files: set<string>, tools: Tools)
    requires |names| == |sets|
    ensures var fs := RunAll(names, sets, cache, hdr, frameCount, force, files, tools, false).1;
      (exists k :: 0 <= k < |fs| && fs[k].PatchIdx?) ==> Exit(fs) == Raise(TypeError)
  {
  }

  /** Corrected, the script never raises at the end: it exits 0 when no set
      failed and 1 otherwise. */
  lemma FixedExit(names: seq<string>, sets: seq<SetInput>, cache: string, hdr: string, frameCount: int,
                  force: bool, files: set<string>, tools: Tools)
    requires |names| == |sets|
    ensures var fs := RunAll(names, sets, cache, hdr, frameCount, force, files, tools, true).1;
      Exit(fs) == (if fs == [] then Ok(0) else Ok(1))
    ensures var fs := RunAll(names, sets, cache, hdr, frameCount, force, files, tools, true).1;
      Exit(fs) == if exists k :: 0 <= k < |sets| && FixedSetFails(names, sets, cache, hdr, frameCount, force, files, tools, k)
                  then Ok(1) else Ok(0)
  {
    RunAllFixedNames(names, sets, cache, hdr, frameCount, force, files, tools);
    RunAllFixedEmpty(names, sets, cache, hdr, frameCount, force, files, tools);
  }

  /** A patch failure in a set that otherwise ran to the end reaches the
      module-level list as a patch index. */
  lemma PatchIndexRecorded(names: seq<string>, sets: seq<SetInput>, cache: string, hdr: string, frameCount: int,
                           force: bool, files: set<string>, tools: Tools)
    requires |names| == |sets| && sets != []
    requires var prev := RunAll(names[..|names| - 1], sets[..|sets| - 1], cache, hdr, frameCount, force, files, tools, false);
      Patchset(sets[|sets| - 1], cache, hdr, frameCount, force, prev.0, tools).1 != []
    ensures var fs := RunAll(names, sets, cache, hdr, frameCount, force, files, tools, false).1;
      Exit(fs) == Raise(TypeError)
  {
    var prev := RunAll(names[..|names| - 1], sets[..|sets| - 1], cache, hdr, frameCount, force, files, tools, false);
    var step := Patchset(sets[|sets| - 1], cache, hdr, frameCount, force, prev.0, tools);
    var fs := RunAll(names, sets, cache, hdr, frameCount, force, files, tools, false).1;
    var named := if step.0.failure.Some? then [SetName(names[|names| - 1])] else [];
    assert fs == prev.1 + AsFailures(step.1) + named;
    assert fs[|prev.1|] == AsFailures(step.1)[0];
  }

  // -----------------------------------------------------------------------
  // The imperative loop

  /** The loop's variables other than the lists. */
  predicate State(l: Loop, files: set<string>, failed: seq<int>, extra: int, stop: Option<Exception>) {
    l.files == files && l.failed == failed && l.extra == extra && l.stop == stop
  }

  /** The caller's lists describe the successful patches: their count,
      their videos, their verify rows and their chapters. */
  predicate Lists(done: seq<Patched>, d: int, success: nat, vids: seq<string>, rgbs: seq<seq<int>>, chapters: seq<string>) {
    success == |done| && vids == Vids(done) && rgbs == Rgbs(done) && chapters == ChapterList(done, d)
  }

  /** do_patch on the caller's lists: the chapter lines use the success
      count it is given, and it reports whether the patch worked. */
  method DoPatchLists(idx: int, c: Rgb, cache: string, force: bool, tools: Tools, d: int,
                      vids: seq<string>, rgbs: seq<seq<int>>, chapters: seq<string>, success: nat,
                      files: set<string>, failed: seq<int>, ghost l: Loop)
    returns (success': nat, vids': seq<string>, rgbs': seq<seq<int>>, chapters': seq<string>, files': set<string>, failed': seq<int>, ghost l': Loop)
    requires l.files == files && l.failed == failed
    requires Lists(l.done, d, success, vids, rgbs, chapters)
    ensures l' == DoPatch(l, idx, c, cache, force, tools)
    ensures State(l', files', failed', l.extra, l.stop)
    ensures Lists(l'.done, d, success', vids', rgbs', chapters')
  {
    l' := DoPatch(l, idx, c, cache, force, tools);
    var p := ProcessPatch(cache, c, force, files, tools.render(c), tools.overlay(c), true);
    files' := p.1;
    if p.0.Raise? {
      success', vids', rgbs', chapters', failed' := success, vids, rgbs, chapters, failed + [idx];
    } else {
      var q := p.0.value;
      Appended(l.done, q, d);
      vids' := vids + [q.vid];
      rgbs' := rgbs + [q.rgb];
      var next;
      chapters', next := GenPattern.AddChapter(chapters, success, d, q.overlay);
      success', failed' := success + 1, failed;
    }
  }

  /** `for i in range(extra_patches)`: the white lead-in. */
  method WhiteLoop(n: nat, cache: string, force: bool, tools: Tools, d: int,
                   vids0: seq<string>, rgbs0: seq<seq<int>>, chapters0: seq<string>, success0: nat,
                   files0: set<string>, failed0: seq<int>, ghost l0: Loop)
    returns (vids: seq<string>, rgbs: seq<seq<int>>, chapters: seq<string>, files: set<string>, failed: seq<int>, success: nat)
    requires l0.files == files0 && l0.failed == failed0
    requires Lists(l0.done, d, success0, vids0, rgbs0, chapters0)
    ensures var w := Whites(l0, n, cache, force, tools);
      files == w.files && failed == w.failed
      && Lists(w.done, d, success, vids, rgbs, chapters)
  {
    vids, rgbs, chapters, files, failed, success := vids0, rgbs0, chapters0, files0, failed0, success0;
    ghost var l := l0;
    var i := 0;
    while i < n
      invariant 0 <= i <= n
      invariant l == Whites(l0, i, cache, force, tools) && l.files == files && l.failed == failed
      invariant Lists(l.done, d, success, vids, rgbs, chapters)
    {
      success, vids, rgbs, chapters, files, failed, l := DoPatchLists(i, White, cache, force, tools, d, vids, rgbs, chapters, success, files, failed, l);
      i := i + 1;
    }
  }

  /** The white lead-in on the caller's lists, when this row starts it. */
  method LeadInLists(row: Row, idx: int, isVerify: bool, cache: string, force: bool, tools: Tools, d: int,
                     vids0: seq<string>, rgbs0: seq<seq<int>>, chapters0: seq<string>, success0: nat,
                     files0: set<string>, failed0: seq<int>, extra0: int, ghost l: Loop)
    returns (vids: seq<string>, rgbs: seq<seq<int>>, chapters: seq<string>, files: set<string>, failed: seq<int>, success: nat, extra: int,
             ghost m: Loop)
    requires State(l, files0, failed0, extra0, None)
    requires Lists(l.done, d, success0, vids0, rgbs0, chapters0)
    ensures m == LeadIn(l, row, idx, isVerify, cache, force, tools)
    ensures State(m, files, failed, extra, None)
    ensures Lists(m.done, d, success, vids, rgbs, chapters)
  {
    vids, rgbs, chapters, files, failed, success, extra, m := vids0, rgbs0, chapters0, files0, failed0, success0, extra0, l;
    if idx == 0 && isVerify {
      extra := if tools.isWhite(row) then 3 else 4;
      vids, rgbs, chapters, files, failed, success := WhiteLoop(extra, cache, force, tools, d, vids, rgbs, chapters, success, files, failed, l);
      WhitesSpec(l, extra, cache, force, tools);
      ghost var w := Whites(l, extra, cache, force, tools);
      m := w.(extra := extra);
      assert State(m, files, failed, extra, None);
    }
  }

  /** One row of the loop: its index and colour are read, then the lead-in
      and do_patch run on the caller's lists. */
  method Step(row: Row, isVerify: bool, cache: string, force: bool, tools: Tools, d: int,
              vids0: seq<string>, rgbs0: seq<seq<int>>, chapters0: seq<string>, success0: nat,
              files0: set<string>, failed0: seq<int>, extra0: int, ghost l: Loop)
    returns (vids: seq<string>, rgbs: seq<seq<int>>, chapters: seq<string>, files: set<string>, failed: seq<int>, success: nat, extra: int,
             stop: Option<Exception>, ghost l': Loop)
    requires State(l, files0, failed0, extra0, None)
    requires Lists(l.done, d, success0, vids0, rgbs0, chapters0)
    ensures l' == RowStep(l, row, isVerify, cache, force, tools)
    ensures State(l', files, failed, extra, stop)
    ensures stop.None? ==> Lists(l'.done, d, success, vids, rgbs, chapters)
  {
    vids, rgbs, chapters, files, failed, success, extra, stop := vids0, rgbs0, chapters0, files0, failed0, success0, extra0, None;
    var idx := Index(row);
    if idx.Raise? {
      stop := Some(idx.exc);
      l' := l.(stop := stop);
      return;
    }
    var c := tools.colour(row);
    if c.Raise? {
      stop := Some(c.exc);
      l' := l.(stop := stop);
      return;
    }
    vids, rgbs, chapters, files, failed, success, extra, l' := ParsedStep(row, idx.value, c.value, isVerify, cache, force, tools, d,
                                                                           vids, rgbs, chapters, success, files, failed, extra, l);
  }

  /** A row whose index and colour have been read. */
  method ParsedStep(row: Row, idx: int, c: Rgb, isVerify: bool, cache: string, force: bool, tools: Tools, d: int,
                    vids0: seq<string>, rgbs0: seq<seq<int>>, chapters0: seq<string>, success0: nat,
                    files0: set<string>, failed0: seq<int>, extra0: int, ghost l: Loop)
    returns (vids: seq<string>, rgbs: seq<seq<int>>, chapters: seq<string>, files: set<string>, failed: seq<int>, success: nat, extra: int,
             ghost l': Loop)
    requires Index(row) == Ok(idx) && tools.colour(row) == Ok(c)
    requires State(l, files0, failed0, extra0, None)
    requires Lists(l.done, d, success0, vids0, rgbs0, chapters0)
    ensures l' == RowStep(l, row, isVerify, cache, force, tools)
    ensures State(l', files, failed, extra, None)
    ensures Lists(l'.done, d, success, vids, rgbs, chapters)
  {
    ghost var m;
    vids, rgbs, chapters, files, failed, success, extra, m := LeadInLists(row, idx, isVerify, cache, force, tools, d,
                                                                         vids0, rgbs0, chapters0, success0, files0, failed0, extra0, l);
    var j := idx + extra;
    success, vids, rgbs, chapters, files, failed, l' := DoPatchLists(j, c, cache, force, tools, d, vids, rgbs, chapters, success, files, failed, m);
    RowStepParsed(l, row, idx, c, isVerify, cache, force, tools, m, j, l');
  }

  /** The loop of process_patchset: rows in order, the white lead-in at a
      verify set's index 0, and do_patch for each row. */
  method RunLoop(data: seq<Row>, isVerify: bool, cache: string, d: int, force: bool, files0: set<string>, tools: Tools)
    returns (vids: seq<string>, rgbs: seq<seq<int>>, chapters: seq<string>, files: set<string>, failed: seq<int>, stop: Option<Exception>)
    ensures var l := Run(data, isVerify, cache, force, files0, tools);
      files == l.files && failed == l.failed && stop == l.stop
      && (stop.None? ==> vids == Vids(l.done) && rgbs == Rgbs(l.done) && chapters == ChapterList(l.done, d))
  {
    vids, rgbs, chapters, files, failed, stop := [], [], [], files0, [], None;
    var success := 0;
    var extra := 0;
    ghost var l := Loop([], files0, [], 0, None);
    var i := 0;
    while i < |data| && stop.None?
      invariant 0 <= i <= |data|
      invariant Run(data[..i], isVerify, cache, force, files0, tools) == l
      invariant State(l, files, failed, extra, stop)
      invariant stop.None? ==> Lists(l.done, d, success, vids, rgbs, chapters)
    {
      RunSnoc(data, i, isVerify, cache, force, files0, tools);
      vids, rgbs, chapters, files, failed, success, extra, stop, l := Step(data[i], isVerify, cache, force, tools, d,
                                                                         vids, rgbs, chapters, success, files, failed, extra, l);
      i := i + 1;
    }
    if stop.Some? {
      RunStops(data, i, isVerify, cache, force, files0, tools);
    } else {
      assert data[..i] == data;
    }
  }
}
