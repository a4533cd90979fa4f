/** The helpers gen_pattern.py and pattern/gen_pattern.py share: the
    create-or-reuse rule for cached files, the cache names of a patch, the
    verdict on a patch's 10-bit round trip, the overlay's text colour, a
    patch's chapter lines, process_patch itself, and the rows of
    verify.csv. Colours are 10-bit integers and durations integer
    milliseconds. */
module Patch {
  import opened Wrappers
  import opened Text
  import opened Seqs
  import opened Library

  const Fps: nat := 25

  // -----------------------------------------------------------------------
  // run_if_necessary

  /** The three log lines of run_if_necessary. */
  datatype Action = Creating | Recreating | Reusing

  /** A missing file is created, an existing one recreated only when forced. */
  function Decide(present: bool, force: bool): (a: Action)
    ensures (a != Reusing) <==> (!present || force)
    ensures a == Creating <==> !present
  {
    if !present then Creating else if force then Recreating else Reusing
  }

  /** run_if_necessary on a file system given as the set of existing paths.
      `made` is what running func gives: Raise when it raises, otherwise
      whether the file is there afterwards (`resolve(strict=True)` raises
      OSError when it is not). The path comes back either way. */
  function RunIfNecessary(path: string, files: set<string>, force: bool, made: Result<bool>): (r: (Result<string>, set<string>))
    ensures r.0.Ok? ==> r.0.value == path && path in r.1
    ensures r.1 == files || r.1 == files + {path}
    ensures Decide(path in files, force) == Reusing ==> r == (Ok(path), files)
  {
    if Decide(path in files, force) == Reusing then (Ok(path), files)
    else if made.Raise? then (Raise(made.exc), files)
    else if !made.value then (Raise(OSError), files)
    else (Ok(path), files + {path})
  }

  /** func runs exactly when the file is absent or force is set: only then
      can its failure be seen. */
  lemma FuncRunsIff(path: string, files: set<string>, force: bool)
    ensures RunIfNecessary(path, files, force, Raise(CalledProcessError)).0.Raise? <==> (path !in files || force)
  {
  }

  // -----------------------------------------------------------------------
  // Cache names

  /** A colour, each channel `round(c * 1023)`. */
  datatype Rgb = Rgb(r: int, g: int, b: int)

  const White := Rgb(1023, 1023, 1023)

  /** `f'{r_10}_{g_10}_{b_10}'`, the name of a patch's directory and files. */
  function Stem(c: Rgb): string {
    IntToString(c.r) + "_" + IntToString(c.g) + "_" + IntToString(c.b)
  }

  function PatchDir(cache: string, c: Rgb): string {
    JoinPath(cache, Stem(c))
  }

  function PatchPng(cache: string, c: Rgb): string {
    JoinPath(PatchDir(cache, c), Stem(c) + ".patch.png")
  }

  function PatchVid(cache: string, c: Rgb): string {
    JoinPath(PatchDir(cache, c), Stem(c) + ".mp4")
  }

  function PatchCheck(cache: string, c: Rgb): string {
    JoinPath(PatchDir(cache, c), Stem(c) + ".check.png")
  }

  /** The stem splits back into the three channels. */
  lemma StemParts(c: Rgb)
    ensures Split(Stem(c), '_') == [IntToString(c.r), IntToString(c.g), IntToString(c.b)]
  {
    var parts := [IntToString(c.r), IntToString(c.g), IntToString(c.b)];
    IntStringAvoids(c.r, '_');
    IntStringAvoids(c.g, '_');
    IntStringAvoids(c.b, '_');
    assert Join(parts[2..], '_') == parts[2];
    assert Join(parts[1..], '_') == parts[1] + "_" + parts[2];
    assert Join(parts, '_') == Stem(c);
    SplitJoin(parts, '_');
  }

  /** Distinct colours have distinct stems. */
  lemma StemInjective(c1: Rgb, c2: Rgb)
    requires Stem(c1) == Stem(c2)
    ensures c1 == c2
  {
    StemParts(c1);
    StemParts(c2);
    IntToStringInjective(c1.r, c2.r);
    IntToStringInjective(c1.g, c2.g);
    IntToStringInjective(c1.b, c2.b);
  }

  /** A stem holds no '/', so it is the first component of what follows the cache. */
  lemma StemFirstComponent(c: Rgb, rest: string)
    ensures Split(Stem(c) + "/" + rest, '/')[0] == Stem(c)
  {
    IntStringAvoids(c.r, '/');
    IntStringAvoids(c.g, '/');
    IntStringAvoids(c.b, '/');
    assert '/' !in Stem(c);
    assert Stem(c) + "/" + rest == Stem(c) + ("/" + rest);
    SplitPrefix(Stem(c), "/" + rest, '/');
    assert ("/" + rest)[1..] == rest;
    assert Split("/" + rest, '/')[0] == "";
    assert Stem(c) + "" == Stem(c);
  }

  /** Distinct colours never share a cached video: the cache is keyed by colour. */
  lemma VidInjective(cache: string, c1: Rgb, c2: Rgb)
    requires PatchVid(cache, c1) == PatchVid(cache, c2)
    ensures c1 == c2
  {
    var tail1, tail2 := VidTail(c1), VidTail(c2);
    VidSplit(cache, c1);
    VidSplit(cache, c2);
    SamePrefixTail(cache + "/", tail1, tail2);
    StemFirstComponent(c1, Stem(c1) + ".mp4");
    StemFirstComponent(c2, Stem(c2) + ".mp4");
    StemInjective(c1, c2);
  }

  /** What follows the cache directory in a patch's video path. */
  function VidTail(c: Rgb): string {
    Stem(c) + "/" + (Stem(c) + ".mp4")
  }

  lemma VidSplit(cache: string, c: Rgb)
    ensures PatchVid(cache, c) == (cache + "/") + VidTail(c)
  {
  }

  lemma SamePrefixTail<T>(p: seq<T>, a: seq<T>, b: seq<T>)
    requires p + a == p + b
    ensures a == b
  {
    assert a == (p + a)[|p|..];
    assert b == (p + b)[|p|..];
  }

  lemma WhiteChannel()
    ensures IntToString(1023) == "1023"
  {
    assert NatToString(1) == "1";
    assert NatToString(10) == "1" + "0";
    assert NatToString(102) == "10" + "2";
    assert NatToString(1023) == "102" + "3";
  }

  /** The white patch's video, as gen_pattern.py spells it out. */
  lemma WhiteVid(cache: string)
    ensures PatchVid(cache, White) == JoinPath(cache, "1023_1023_1023/1023_1023_1023.mp4")
  {
    WhiteChannel();
    assert Stem(White) == "1023_1023_1023";
  }

  // -----------------------------------------------------------------------
  // The round-trip verdict

  datatype Verdict = Matched | Rounding | Mismatch

  function Abs(x: int): nat {
    if x < 0 then -x else x
  }

  /** `abs(delta_r) + abs(delta_g) + abs(delta_b)`. */
  function DeltaSum(want: Rgb, got: Rgb): nat {
    Abs(got.r - want.r) + Abs(got.g - want.g) + Abs(got.b - want.b)
  }

  /** MATCHED at 0, ROUNDING under 4, ERROR otherwise. */
  function Classify(delta: int): Verdict {
    if delta == 0 then Matched else if delta < 4 then Rounding else Mismatch
  }

  /** A patch matches exactly when it came back unchanged; ROUNDING means it
      moved by one to three steps in all; ERROR means four or more. */
  lemma ClassifyDelta(want: Rgb, got: Rgb)
    ensures Classify(DeltaSum(want, got)) == Matched <==> want == got
    ensures Classify(DeltaSum(want, got)) == Rounding <==> 1 <= DeltaSum(want, got) <= 3
    ensures Classify(DeltaSum(want, got)) == Mismatch <==> DeltaSum(want, got) >= 4
    ensures Classify(DeltaSum(want, got)) == Rounding ==>
      Abs(got.r - want.r) <= 3 && Abs(got.g - want.g) <= 3 && Abs(got.b - want.b) <= 3
  {
  }

  // -----------------------------------------------------------------------
  // The overlay's text colour

  function HexDigit(d: nat): (c: char)
    requires d < 16
  {
    if d < 10 then (48 + d) as char else (87 + d) as char
  }

  /** Lower-case hexadecimal digits without leading zeros. */
  function HexDigits(n: nat): (s: string)
    ensures |s| >= 1
    decreases n
  {
    if n < 16 then [HexDigit(n)] else HexDigits(n / 16) + [HexDigit(n % 16)]
  }

  /** `hex(n)`. */
  function Hex(n: int): string {
    if n < 0 then "-0x" + HexDigits(-n) else "0x" + HexDigits(n)
  }

  /** The patch's grey (as_grey, in thousandths) moved 0.3 away from the middle. */
  function Shifted(grey: int): int {
    if grey < 500 then grey + 300 else grey - 300
  }

  /** `round(grey * 255)`. */
  function TextByte(grey: int): int {
    RoundHalfEven(Shifted(grey) * 255, 1000)
  }

  /** `f'{hex_grey}{hex_grey[2:]}{hex_grey[2:]}'`. */
  function TextColour(grey: int): string {
    var h := Hex(TextByte(grey));
    h + h[2..] + h[2..]
  }

  /** For a grey in [0, 1] the byte lies in 51..204, which has two hex digits,
      so the colour is `0x` followed by one byte repeated for the three channels. */
  lemma TextColourSpec(grey: int)
    requires 0 <= grey <= 1000
    ensures 51 <= TextByte(grey) <= 204
    ensures var b := TextByte(grey);
      var d := [HexDigit(b / 16), HexDigit(b % 16)];
      TextColour(grey) == "0x" + d + d + d
  {
    var s := Shifted(grey);
    assert 200 <= s < 800;
    var b := TextByte(grey);
    RoundHalfEvenNearest(s * 255, 1000);
    assert 51 <= b <= 204;
    assert HexDigits(b / 16) == [HexDigit(b / 16)];
    var d := [HexDigit(b / 16), HexDigit(b % 16)];
    assert HexDigits(b) == d;
    assert ("0x" + d)[2..] == d;
  }

  // -----------------------------------------------------------------------
  // Chapters

  /** `chapter_duration(frame_count, FPS) * 1000`: the frames at 25 per
      second, in milliseconds. */
  function ChapterMs(frameCount: int): (d: int)
    ensures Fps * d == 1000 * frameCount
  {
    40 * frameCount
  }

  /** The metadata lines of the k-th successful patch (0-based). */
  function ChapterLines(k: nat, d: int, overlay: string): (lines: seq<string>)
    ensures |lines| == 6
  {
    Chapter(k * d, (k + 1) * d - 1, k + 1, overlay)
  }

  /** One `[CHAPTER]` block: its start, its end, its number and its title. */
  function Chapter(start: int, end: int, number: nat, overlay: string): (lines: seq<string>)
    ensures |lines| == 6
  {
    ["[CHAPTER]", "TIMEBASE=1/1000", "START=" + IntToString(start), "END=" + IntToString(end),
     "title=" + NatToString(number) + " - " + overlay, ""]
  }

  /** The number a `START=` line or an `END=` line carries. */
  function StartOf(lines: seq<string>): Option<int>
    requires |lines| == 6
  {
    if |lines[2]| < 6 then None else ParseInt(lines[2][6..])
  }

  function EndOf(lines: seq<string>): Option<int>
    requires |lines| == 6
  {
    if |lines[3]| < 4 then None else ParseInt(lines[3][4..])
  }

  lemma AfterPrefix(p: string, s: string)
    ensures (p + s)[|p|..] == s
  {
  }

  /** A block's START line reads back as the block's start, its END line
      as its end. */
  lemma ChapterStart(start: int, end: int, number: nat, o: string)
    ensures StartOf(Chapter(start, end, number, o)) == Some(start)
  {
    ParseAfter(Chapter(start, end, number, o)[2], "START=", start);
  }

  lemma ChapterEnd(start: int, end: int, number: nat, o: string)
    ensures EndOf(Chapter(start, end, number, o)) == Some(end)
  {
    ParseAfter(Chapter(start, end, number, o)[3], "END=", end);
  }

  /** The text after a prefix and a number is read back as that number. */
  lemma ParseAfter(line: string, p: string, v: int)
    requires line == p + IntToString(v)
    ensures |line| >= |p| && ParseInt(line[|p|..]) == Some(v)
  {
    AfterPrefix(p, IntToString(v));
    IntRoundTrip(v);
  }

  lemma StartIs(k: nat, d: int, o: string)
    ensures StartOf(ChapterLines(k, d, o)) == Some(k * d)
  {
    ChapterStart(k * d, (k + 1) * d - 1, k + 1, o);
  }

  lemma EndIs(k: nat, d: int, o: string)
    ensures EndOf(ChapterLines(k, d, o)) == Some((k + 1) * d - 1)
  {
    ChapterEnd(k * d, (k + 1) * d - 1, k + 1, o);
  }

  /** Chapter k starts at k·d, and each chapter ends one millisecond before
      the next one starts. */
  lemma ChaptersMeet(k: nat, d: int, o1: string, o2: string)
    ensures StartOf(ChapterLines(k, d, o1)) == Some(k * d)
    ensures EndOf(ChapterLines(k, d, o1)) == Some((k + 1) * d - 1)
    ensures StartOf(ChapterLines(k + 1, d, o2)) == Some((k + 1) * d)
  {
    StartIs(k, d, o1);
    EndIs(k, d, o1);
    StartIs(k + 1, d, o2);
  }

  // -----------------------------------------------------------------------
  // process_patch

  /** What process_patch returns: the video's path, the verify row (the
      three input channels, the three read back, and the delta sum), and
      the overlay text. */
  datatype Patched = Patched(vid: string, rgb: seq<int>, overlay: string)

  /** What the external tools do for one patch: whether each cached file
      ends up made (Raise when the tool fails), the failure of the duration
      probe if it has one, and the channels read back from the check image
      (Raise when a tool or the parse fails). */
  datatype Render = Render(png: Result<bool>, mp4: Result<bool>, probe: Option<Exception>, check: Result<bool>, readback: Result<seq<int>>)

  /** process_patch, with the files that exist afterwards. The patch image,
      video and check image are each made only when needed; pattern/gen_pattern.py
      (`probed`) runs ffprobe on the video before the check image, where a
      failure raises and a wrong duration is only logged; the read-back must
      hold three channels (ValueError when empty, IndexError when short). */
  function ProcessPatch(cache: string, c: Rgb, force: bool, files: set<string>, tools: Render, overlay: string, probed: bool): (r: (Result<Patched>, set<string>))
    ensures files <= r.1
  {
    var png := RunIfNecessary(PatchPng(cache, c), files, force, tools.png);
    if png.0.Raise? then (Raise(png.0.exc), png.1)
    else
      var vid := RunIfNecessary(PatchVid(cache, c), png.1, force, tools.mp4);
      if vid.0.Raise? then (Raise(vid.0.exc), vid.1)
      else if probed && tools.probe.Some? then (Raise(tools.probe.value), vid.1)
      else
        var check := RunIfNecessary(PatchCheck(cache, c), vid.1, force, tools.check);
        if check.0.Raise? then (Raise(check.0.exc), check.1)
        else if tools.readback.Raise? then (Raise(tools.readback.exc), check.1)
        else
          var rb := tools.readback.value;
          if |rb| == 0 then (Raise(ValueError), check.1)
          else if |rb| < 3 then (Raise(IndexError), check.1)
          else
            var got := Rgb(rb[0], rb[1], rb[2]);
            (Ok(Patched(vid.0.value, [c.r, c.g, c.b, rb[0], rb[1], rb[2], DeltaSum(c, got)], overlay)), check.1)
  }

  /** A verify row of seven values whose last is the delta of the others. */
  predicate WellFormed(p: Patched) {
    |p.rgb| == 7 && p.rgb[6] == DeltaSum(Rgb(p.rgb[0], p.rgb[1], p.rgb[2]), Rgb(p.rgb[3], p.rgb[4], p.rgb[5]))
  }

  /** A patch that succeeds yields its cached video, a well-formed verify
      row starting with its own channels, and the overlay, and leaves its
      three files on disk. */
  lemma ProcessPatchSpec(cache: string, c: Rgb, force: bool, files: set<string>, tools: Render, overlay: string, probed: bool)
    requires ProcessPatch(cache, c, force, files, tools, overlay, probed).0.Ok?
    ensures var r := ProcessPatch(cache, c, force, files, tools, overlay, probed);
      var p := r.0.value;
      p.vid == PatchVid(cache, c) && p.overlay == overlay
      && WellFormed(p) && p.rgb[..3] == [c.r, c.g, c.b]
      && PatchPng(cache, c) in r.1 && PatchVid(cache, c) in r.1 && PatchCheck(cache, c) in r.1
  {
  }

  /** Without force, a colour whose three files are cached makes no file
      again: only the probe and the read-back matter. */
  lemma ProcessPatchReuses(cache: string, c: Rgb, files: set<string>, t1: Render, t2: Render, overlay: string, probed: bool)
    requires PatchPng(cache, c) in files && PatchVid(cache, c) in files && PatchCheck(cache, c) in files
    requires t1.probe == t2.probe && t1.readback == t2.readback
    ensures ProcessPatch(cache, c, false, files, t1, overlay, probed) == ProcessPatch(cache, c, false, files, t2, overlay, probed)
  {
  }

  // -----------------------------------------------------------------------
  // The bookkeeping over successful patches

  /** The chapters of the successful patches, numbered over successes only. */
  function ChapterList(done: seq<Patched>, d: int): (lines: seq<string>)
    ensures |lines| == 6 * |done|
  {
    if done == [] then []
    else ChapterList(done[..|done| - 1], d) + ChapterLines(|done| - 1, d, done[|done| - 1].overlay)
  }

  /** The k-th success owns lines 6k..6k+5: chapter k with its overlay. */
  lemma ChapterListAt(done: seq<Patched>, d: int)
    ensures forall k :: 0 <= k < |done| ==> ChapterList(done, d)[6 * k..6 * k + 6] == ChapterLines(k, d, done[k].overlay)
  {
    ChapterListBlocks(done, d);
    BlocksAt(ChapterOf(d), done);
  }

  /** Chapter k of the list, as a function of k and the k-th success. */
  function ChapterOf(d: int): (nat, Patched) -> seq<string> {
    (k: nat, p: Patched) => ChapterLines(k, d, p.overlay)
  }

  lemma {:induction false} ChapterListBlocks(done: seq<Patched>, d: int)
    ensures ChapterList(done, d) == Blocks(ChapterOf(d), done)
    decreases |done|
  {
    if done != [] {
      ChapterListBlocks(done[..|done| - 1], d);
    }
  }

  function Vids(done: seq<Patched>): (vids: seq<string>)
    ensures |vids| == |done|
  {
    if done == [] then [] else Vids(done[..|done| - 1]) + [done[|done| - 1].vid]
  }

  function Rgbs(done: seq<Patched>): (rgbs: seq<seq<int>>)
    ensures |rgbs| == |done|
  {
    if done == [] then [] else Rgbs(done[..|done| - 1]) + [done[|done| - 1].rgb]
  }

  /** The k-th video and verify row are the k-th success's. */
  lemma {:induction false} ListsAt(done: seq<Patched>)
    ensures forall k :: 0 <= k < |done| ==> Vids(done)[k] == done[k].vid && Rgbs(done)[k] == done[k].rgb
  {
    if done != [] {
      var init := done[..|done| - 1];
      ListsAt(init);
      assert forall k :: 0 <= k < |init| ==> init[k] == done[k];
    }
  }

  /** Appending one success extends each list by its part. */
  lemma Appended(done: seq<Patched>, p: Patched, d: int)
    ensures Vids(done + [p]) == Vids(done) + [p.vid]
    ensures Rgbs(done + [p]) == Rgbs(done) + [p.rgb]
    ensures ChapterList(done + [p], d) == ChapterList(done, d) + ChapterLines(|done|, d, p.overlay)
  {
    assert (done + [p])[..|done|] == done;
  }

  const VerifyHeader: Row := ["idx", "in_r", "in_g", "in_b", "out_r", "out_g", "out_b", "delta"]

  function Cells(xs: seq<int>): (cells: seq<string>)
    ensures |cells| == |xs|
  {
    if xs == [] then [] else Cells(xs[..|xs| - 1]) + [IntToString(xs[|xs| - 1])]
  }

  /** `[i] + list(rgb)` for the i-th verify row. */
  function VerifyRow(i: nat, rgb: seq<int>): Row {
    [NatToString(i)] + Cells(rgb)
  }

  /** verify.csv: the header, then one row per success, numbered from 0. */
  function VerifyRows(rgbs: seq<seq<int>>): (rows: seq<Row>)
    ensures |rows| == |rgbs| + 1 && rows[0] == VerifyHeader
  {
    if rgbs == [] then [VerifyHeader] else VerifyRows(rgbs[..|rgbs| - 1]) + [VerifyRow(|rgbs| - 1, rgbs[|rgbs| - 1])]
  }

  /** Row i + 1 is numbered i and carries the i-th success's values. */
  lemma {:induction false} VerifyRowsAt(rgbs: seq<seq<int>>)
    ensures forall i :: 0 <= i < |rgbs| ==> VerifyRows(rgbs)[i + 1] == VerifyRow(i, rgbs[i])
  {
    if rgbs != [] {
      var init := rgbs[..|rgbs| - 1];
      VerifyRowsAt(init);
      assert forall i :: 0 <= i < |init| ==> init[i] == rgbs[i];
    }
  }

  /** The first cell of a verify row reads back as its number. */
  lemma VerifyRowNumber(i: nat, rgb: seq<int>)
    ensures ParseInt(VerifyRow(i, rgb)[0]) == Some(i)
  {
    IntRoundTrip(i);
  }

  /** The csv writer's loop over `enumerate(rgbs)`. */
  method WriteVerify(rgbs: seq<seq<int>>) returns (rows: seq<Row>)
    ensures rows == VerifyRows(rgbs)
  {
    rows := [VerifyHeader];
    var i := 0;
    while i < |rgbs|
      invariant 0 <= i <= |rgbs|
      invariant rows == VerifyRows(rgbs[..i])
    {
      assert rgbs[..i + 1][..i] == rgbs[..i];
      var row := VerifyRow(i, rgbs[i]);
      rows := rows + [row];
      i := i + 1;
    }
    assert rgbs[..i] == rgbs;
  }

  /** `f"file '{vid}'\n"` for each video, in order. */
  function ConcatLines(vids: seq<string>): (lines: seq<string>)
    ensures |lines| == |vids|
  {
    if vids == [] then [] else ConcatLines(vids[..|vids| - 1]) + ["file '" + vids[|vids| - 1] + "'"]
  }

  lemma {:induction false} ConcatLinesAt(vids: seq<string>)
    ensures forall k :: 0 <= k < |vids| ==> ConcatLines(vids)[k] == "file '" + vids[k] + "'"
  {
    if vids != [] {
      var init := vids[..|vids| - 1];
      ConcatLinesAt(init);
      assert forall k :: 0 <= k < |init| ==> init[k] == vids[k];
    }
  }

  /** `int(row[0])`: IndexError on an empty row, ValueError on text that is
      not an integer. */
  function Index(row: Row): Result<int> {
    if |row| == 0 then Raise(IndexError)
    else
      var n := ParseInt(row[0]);
      if n.None? then Raise(ValueError) else Ok(n.value)
  }

  // -----------------------------------------------------------------------
  // ffmpeg_meta.txt

  /** Each chapter line followed by a newline, in order. */
  function Lines(cs: seq<string>): string {
    if cs == [] then "" else cs[0] + "\n" + Lines(cs[1..])
  }

  /** ffmpeg_meta.txt as generate_pattern writes it: the three header
      writes carry no newline, so they run together with the first chapter
      line. */
  function MetaText(patchset: string, chapters: seq<string>): string {
    ";FFMETADATA1" + "title=" + patchset + "artist=mk" + Lines(chapters)
  }

  /** The header lines each ended by a newline, as the ffmetadata format
      has them. */
  function MetaTextFixed(patchset: string, chapters: seq<string>): string {
    ";FFMETADATA1" + "\n" + ("title=" + patchset) + "\n" + "artist=mk" + "\n" + Lines(chapters)
  }

  /** The first line of a text that starts with a line without a newline. */
  lemma FirstLine(a: string, rest: string)
    requires '\n' !in a
    ensures Split(a + "\n" + rest, '\n') == [a] + Split(rest, '\n')
  {
    assert a + "\n" + rest == a + ("\n" + rest);
    SplitPrefix(a, "\n" + rest, '\n');
    assert ("\n" + rest)[1..] == rest;
    assert a + "" == a;
  }

  lemma FirstChapter(done: seq<Patched>, d: int)
    requires done != []
    ensures ChapterList(done, d)[0] == "[CHAPTER]"
  {
    ChapterListAt(done, d);
    assert ChapterList(done, d)[0] == ChapterList(done, d)[6 * 0..6 * 0 + 6][0];
  }

  /** As written, the first line of the metadata file is one comment line
      holding the header, the title, the artist and the first `[CHAPTER]`
      marker, so the reader loses the title, the artist and the first chapter. */
  lemma MetaMergesFirstChapter(patchset: string, done: seq<Patched>, d: int)
    requires '\n' !in patchset && done != []
    ensures Split(MetaText(patchset, ChapterList(done, d)), '\n')[0] == ";FFMETADATA1" + "title=" + patchset + "artist=mk" + "[CHAPTER]"
  {
    var cs := ChapterList(done, d);
    FirstChapter(done, d);
    var x := ";FFMETADATA1" + "title=" + patchset + "artist=mk";
    var rest := Lines(cs[1..]);
    Reassoc(x, cs[0], "\n", rest);
    FirstLine(x + cs[0], rest);
  }

  /** Three lines without newlines, each ended by one, before a body. */
  lemma ThreeLines(a: string, b: string, c: string, body: string)
    requires '\n' !in a && '\n' !in b && '\n' !in c
    ensures Split(a + "\n" + b + "\n" + c + "\n" + body, '\n') == [a, b, c] + Split(body, '\n')
  {
    var r2 := c + "\n" + body;
    var r1 := b + "\n" + r2;
    Reassoc(a + "\n" + b + "\n", c, "\n", body);
    Reassoc(a + "\n", b, "\n", r2);
    FirstLine(a, r1);
    FirstLine(b, r2);
    FirstLine(c, body);
    assert [a] + ([b] + ([c] + Split(body, '\n'))) == [a, b, c] + Split(body, '\n');
  }

  /** The fixed text splits into the three header lines, then the chapters' lines. */
  lemma MetaFixedSplit(patchset: string, cs: seq<string>)
    requires '\n' !in patchset
    ensures Split(MetaTextFixed(patchset, cs), '\n') == [";FFMETADATA1", "title=" + patchset, "artist=mk"] + Split(Lines(cs), '\n')
  {
    ThreeLines(";FFMETADATA1", "title=" + patchset, "artist=mk", Lines(cs));
  }

  /** With the newlines in place the file opens with the header, the title
      and the artist on lines of their own, and the first chapter marker
      on the fourth line. */
  lemma MetaFixedLines(patchset: string, done: seq<Patched>, d: int)
    requires '\n' !in patchset
    ensures var lines := Split(MetaTextFixed(patchset, ChapterList(done, d)), '\n');
      |lines| >= 4 && lines[..3] == [";FFMETADATA1", "title=" + patchset, "artist=mk"]
      && (done != [] ==> lines[3] == "[CHAPTER]")
  {
    var cs := ChapterList(done, d);
    MetaFixedSplit(patchset, cs);
    if done != [] {
      FirstChapter(done, d);
      assert Lines(cs) == "[CHAPTER]" + "\n" + Lines(cs[1..]);
      FirstLine("[CHAPTER]", Lines(cs[1..]));
    }
  }
}
