/** greyscale/greyscale.py: a 3840x2160 ramp of 101 grey columns, written
    as a 16-bit PNG when absent and then encoded into HDR and SDR videos,
    each step skipped when its output already exists. The channel value of
    each column (a PQ code value scaled to 16 bits) and the outcome of each
    external command are parameters. */
module Greyscale {
  import opened Wrappers
  import opened Seqs
  import opened Chart

  const W: nat := 3840
  const H: nat := 2160
  const Steps: nat := 100

  /** `cols = list(range(0, steps + 1))`: columns 0 to 100. */
  const Cols: nat := Steps + 1

  // -----------------------------------------------------------------------
  // The ramp row

  /** `panel_width + (0 if patch_num != len(cols) - 1 else width_padding)`:
      only the last column carries the padding. */
  function ColumnWidth(n: nat, panel: nat, pad: nat, k: nat): nat {
    panel + (if k != n - 1 then 0 else pad)
  }

  /** The widths of the n columns, in order. */
  function Widths(n: nat, panel: nat, pad: nat): (s: seq<nat>)
    ensures |s| == n
  {
    seq(n, k requires 0 <= k => ColumnWidth(n, panel, pad, k))
  }

  /** `[rgb_value] * 3`. */
  function Triplet(v: int): seq<int> {
    [v, v, v]
  }

  /** The triple of each column, given the channel value of each. */
  function Triplets(rgb: nat -> int, n: nat): (s: seq<seq<int>>)
    ensures |s| == n && forall k :: 0 <= k < n ==> |s[k]| == 3
  {
    var s := seq(n, k requires 0 <= k => Triplet(rgb(k)));
    assert forall k :: 0 <= k < n ==> s[k] == Triplet(rgb(k));
    s
  }

  /** The ramp row: each column's triple repeated across its width, column
      after column. */
  function RampRow(rgb: nat -> int, n: nat, panel: nat, pad: nat): seq<int> {
    Tile(Triplets(rgb, n), Widths(n, panel, pad))
  }

  lemma {:induction false} SumConstant(s: seq<nat>, v: nat)
    requires forall i :: 0 <= i < |s| ==> s[i] == v
    ensures Sum(s) == v * |s|
    decreases |s|
  {
    if s != [] {
      SumConstant(s[..|s| - 1], v);
      MulAdd(v, |s| - 1, 1);
    }
  }

  /** The columns before column j take `panel * j` pixels; the last column
      ends at `panel * n + pad`. */
  lemma ColumnStart(n: nat, panel: nat, pad: nat, j: nat)
    requires j < n
    ensures Sum(Widths(n, panel, pad)[..j]) == panel * j
    ensures Sum(Widths(n, panel, pad)[..j + 1]) == if j == n - 1 then panel * n + pad else panel * (j + 1)
  {
    var ws := Widths(n, panel, pad);
    SumConstant(ws[..j], panel);
    assert ws[..j + 1][..j] == ws[..j];
    MulAdd(panel, j, 1);
  }

  /** The widths cover panel * n + pad pixels. */
  lemma WidthsSum(n: nat, panel: nat, pad: nat)
    requires n > 0
    ensures Sum(Widths(n, panel, pad)) == panel * n + pad
  {
    ColumnStart(n, panel, pad, n - 1);
    assert Widths(n, panel, pad)[..n] == Widths(n, panel, pad);
  }

  /** The row holds three values per pixel, and the pixels from
      `panel * j` to the end of column j hold column j's value in all three
      channels. */
  lemma RampRowSpec(rgb: nat -> int, n: nat, panel: nat, pad: nat, j: nat, x: nat, m: nat)
    requires n > 0 && j < n && m < 3
    requires panel * j <= x < (if j == n - 1 then panel * n + pad else panel * (j + 1))
    ensures |RampRow(rgb, n, panel, pad)| == 3 * (panel * n + pad)
    ensures 3 * x + m < |RampRow(rgb, n, panel, pad)| && RampRow(rgb, n, panel, pad)[3 * x + m] == rgb(j)
  {
    var ts := Triplets(rgb, n);
    TileLength(ts, Widths(n, panel, pad), 3);
    WidthsSum(n, panel, pad);
    ColumnStart(n, panel, pad, j);
    TileAt(ts, Widths(n, panel, pad), 3, j, x, m);
  }

  /** With `panel_width = int(w / 101)` and `width_padding` the rest, the
      ramp row spans exactly the image width: 11520 values. Each column is
      38 pixels wide, except the last, which is 40. */
  lemma RampRowWidth(rgb: nat -> int)
    ensures W / Cols == 38 && Padding(W, Cols) == 2
    ensures |RampRow(rgb, Cols, W / Cols, Padding(W, Cols))| == 3 * W
  {
    TileLength(Triplets(rgb, Cols), Widths(Cols, 38, 2), 3);
    WidthsSum(Cols, 38, 2);
  }

  /** One more column extends the row by that column's pixels. */
  lemma RowGrows(rgb: nat -> int, n: nat, panel: nat, pad: nat, k: nat, row: seq<int>)
    requires k < n && row == Tile(Triplets(rgb, n)[..k], Widths(n, panel, pad)[..k])
    ensures row + Repeat(Triplet(rgb(k)), ColumnWidth(n, panel, pad, k))
         == Tile(Triplets(rgb, n)[..k + 1], Widths(n, panel, pad)[..k + 1])
  {
    var ts, ws := Triplets(rgb, n), Widths(n, panel, pad);
    assert ts[..k + 1] == ts[..k] + [Triplet(rgb(k))];
    assert ws[..k + 1] == ws[..k] + [ColumnWidth(n, panel, pad, k)];
    TileSnoc(ts[..k], ws[..k], Triplet(rgb(k)), ColumnWidth(n, panel, pad, k));
  }

  /** The `for patch_num in cols` loop: `row.extend(rgb_triplet * column_width)`. */
  method BuildRow(rgb: nat -> int, n: nat, panel: nat, pad: nat) returns (row: seq<int>)
    ensures row == RampRow(rgb, n, panel, pad)
  {
    row := [];
    var k := 0;
    while k < n
      invariant k <= n
      invariant row == Tile(Triplets(rgb, n)[..k], Widths(n, panel, pad)[..k])
    {
      var triplet := Triplet(rgb(k));
      var columnWidth := panel + (if k != n - 1 then 0 else pad);
      RowGrows(rgb, n, panel, pad, k, row);
      row := row + Repeat(triplet, columnWidth);
      k := k + 1;
    }
    assert Triplets(rgb, n)[..n] == Triplets(rgb, n);
    assert Widths(n, panel, pad)[..n] == Widths(n, panel, pad);
  }

  /** `[row for _ in range(h)]`: h copies of the same row. */
  function Frame(row: seq<int>, h: nat): (f: seq<seq<int>>)
    ensures |f| == h && forall y :: 0 <= y < h ==> f[y] == row
  {
    seq(h, _ => row)
  }

  // -----------------------------------------------------------------------
  // Encoding

  /** `f"ffmpeg -y -stream_loop 60 -i {file_1} -c copy -map_chapters -1 {file_60}"`. */
  function LoopCommand(file1: string, file60: string): string {
    "ffmpeg -y -stream_loop 60 -i " + file1 + " -c copy -map_chapters -1 " + file60
  }

  /** `encode`: each file is made only when absent, by `cmd` and then by
      the loop command, each through `subprocess.run(check=True)`, which
      raises CalledProcessError when `ok` says the command failed. A command
      that succeeds leaves its output file behind. `ran` lists the commands
      in the order they ran. */
  method Encode(cmd: string, file1: string, file60: string, files: set<string>, ok: string -> bool)
    returns (err: Option<Exception>, files': set<string>, ran: seq<string>)
    ensures ran == EncodeRuns(cmd, file1, file60, files, ok)
    ensures err.Some? <==> exists c :: c in ran && !ok(c)
    ensures err.Some? ==> err.value == CalledProcessError && !ok(ran[|ran| - 1])
    ensures err.Some? ==> files' == files + (if |ran| == 2 then {file1} else {})
    ensures err.None? ==> files' == files + {file1, file60}
  {
    files' := files;
    ran := [];
    if file1 !in files' {
      ran := ran + [cmd];
      if !ok(cmd) {
        return Some(CalledProcessError), files', ran;
      }
      files' := files' + {file1};
    }
    if file60 !in files' {
      var loop := LoopCommand(file1, file60);
      ran := ran + [loop];
      if !ok(loop) {
        return Some(CalledProcessError), files', ran;
      }
      files' := files' + {file60};
    }
    err := None;
  }

  /** The commands `encode` runs: `cmd` when file1 is absent, then, unless
      it failed, the loop command when file60 is absent. */
  function EncodeRuns(cmd: string, file1: string, file60: string, files: set<string>, ok: string -> bool): seq<string> {
    var first := if file1 !in files then [cmd] else [];
    if first != [] && !ok(cmd) then first
    else first + (if file60 !in files + {file1} then [LoopCommand(file1, file60)] else [])
  }

  /** `cmd` runs exactly when file1 is missing, and the loop command, after
      it, exactly when file60 is missing after `cmd` succeeded or was
      skipped: nothing runs when both files exist. */
  lemma EncodeRunsIff(cmd: string, file1: string, file60: string, files: set<string>, ok: string -> bool)
    ensures var ran := EncodeRuns(cmd, file1, file60, files, ok);
      var first := file1 !in files;
      var loop := file60 !in files + {file1} && (file1 in files || ok(cmd));
      |ran| == (if first then 1 else 0) + (if loop then 1 else 0)
      && (first ==> ran[0] == cmd)
      && (loop ==> ran[|ran| - 1] == LoopCommand(file1, file60))
      && (file1 in files && file60 in files ==> ran == [])
  {
  }

  // -----------------------------------------------------------------------
  // The script

  const RampFile := "greyscale_100_1000.png"
  const HdrFile1 := "greyscale_100_1000_1.mkv"
  const HdrFile := "greyscale_100_1000.mkv"
  const SdrFile1 := "greyscale_100_1000_sdr_1.mkv"
  const SdrFile := "greyscale_100_1000_sdr.mkv"

  const X265Params := "crf=12:colorprim=bt2020:transfer=smpte2084:colormatrix=bt2020nc:master-display=\"G(13250,34500)B(7500,3000)R(34000,16000)WP(15635,16450)L(10000000,1)\":max-cll=\"1000,400\""
  const VfParams := "scale=out_color_matrix=bt2020:out_h_chr_pos=0:out_v_chr_pos=0,format=yuv420p10,loop=-1:1"

  /** The one-second HDR encode of the ramp. */
  const HdrCommand := "ffmpeg -y -framerate 24000/1001 -i " + RampFile + " -c:v libx265 -x265-params \"" + X265Params + "\" -t 1 -vf \"" + VfParams + "\" " + HdrFile1

  /** The one-second lossless SDR encode of the ramp. */
  const SdrCommand := "ffmpeg -y -framerate 24000/1001 -i " + RampFile + " -c:v libx265 -x265-params \"lossless=1\" -t 1 -vf \"colorspace=all=bt709:iall=bt601-6-625:fast=1:format=yuv420p10,loop=-1:1\" -colorspace 1 -color_primaries 1 -color_trc 1 -sws_flags accurate_rnd+full_chroma_int " + SdrFile1

  /** The script: build the ramp, write the PNG when absent (`image` is what
      was written), then encode the HDR and the SDR videos. */
  method Generate(rgb: nat -> int, files: set<string>, ok: string -> bool)
    returns (err: Option<Exception>, image: Option<seq<seq<int>>>, files': set<string>, ran: seq<string>)
    ensures image.Some? <==> RampFile !in files
    ensures image.Some? ==> image.value == Frame(RampRow(rgb, Cols, W / Cols, Padding(W, Cols)), H)
    ensures files + (if RampFile in files then {} else {RampFile}) <= files'
    ensures files' <= files + {RampFile, HdrFile1, HdrFile, SdrFile1, SdrFile}
    ensures err.None? ==> {RampFile, HdrFile1, HdrFile, SdrFile1, SdrFile} <= files'
    ensures err.Some? ==> err.value == CalledProcessError
    ensures err.None? ==> ran == EncodeRuns(HdrCommand, HdrFile1, HdrFile, files + {RampFile}, ok)
                               + EncodeRuns(SdrCommand, SdrFile1, SdrFile, files + {RampFile, HdrFile1, HdrFile}, ok)
  {
    var panel := W / Cols;
    var pad := W - panel * Cols;
    var row := BuildRow(rgb, Cols, panel, pad);
    var pixels := Frame(row, H);
    files' := files;
    image := None;
    if RampFile !in files' {
      image := Some(pixels);
      files' := files' + {RampFile};
    }
    assert files' == files + {RampFile};
    var hdr, sdr: seq<string>;
    err, files', hdr := Encode(HdrCommand, HdrFile1, HdrFile, files', ok);
    if err.Some? {
      return err, image, files', hdr;
    }
    assert files' == files + {RampFile, HdrFile1, HdrFile};
    err, files', sdr := Encode(SdrCommand, SdrFile1, SdrFile, files', ok);
    ran := hdr + sdr;
  }

  /** After an `encode` without error, running it again writes nothing and
      runs nothing. */
  lemma EncodeIdempotent(cmd: string, file1: string, file60: string, files: set<string>, ok: string -> bool)
    ensures EncodeRuns(cmd, file1, file60, files + {file1, file60}, ok) == []
  {
  }
}
