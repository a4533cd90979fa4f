/** The colour-chart PNG of patch/pattern.py: every csv row after its first
    field is cut into RGB triples, each triple becomes a panel, and the
    panels tile a w x h frame, column padding on the first column and row
    padding on the first band. */
module Chart {
  import opened Wrappers
  import opened Text
  import opened Seqs

  /** The frame the script renders. */
  const Width: nat := 1920
  const Height: nat := 1080

  // -----------------------------------------------------------------------
  // chunk

  /** `list(chunk())`: consecutive slices `d[i:i + 3]` for i = 0, 3, 6, ... */
  function Chunks<T>(d: seq<T>): seq<seq<T>>
    decreases |d|
  {
    if d == [] then []
    else if |d| <= 3 then [d]
    else [d[..3]] + Chunks(d[3..])
  }

  /** The chunks laid end to end. */
  function Flatten<T>(cs: seq<seq<T>>): seq<T>
    decreases |cs|
  {
    if cs == [] then [] else cs[0] + Flatten(cs[1..])
  }

  /** The chunks put back together give the fields they came from. */
  lemma {:induction false} ChunksFlatten<T>(d: seq<T>)
    ensures Flatten(Chunks(d)) == d
    decreases |d|
  {
    if |d| > 3 {
      var cs := Chunks(d);
      assert cs[1..] == Chunks(d[3..]);
      ChunksFlatten(d[3..]);
      assert d == d[..3] + d[3..];
    } else if d != [] {
      assert Chunks(d)[1..] == [];
    }
  }

  /** Every chunk but the last is a full triple; the last holds one to three
      fields; there are ceil(|d| / 3) of them. */
  lemma {:induction false} ChunksShape<T>(d: seq<T>)
    ensures var cs := Chunks(d);
      |cs| == (|d| + 2) / 3
      && (forall j :: 0 <= j < |cs| - 1 ==> |cs[j]| == 3)
      && (cs != [] ==> 1 <= |cs[|cs| - 1]| <= 3)
    decreases |d|
  {
    if |d| > 3 {
      ChunksShape(d[3..]);
      var cs := Chunks(d);
      var rest := Chunks(d[3..]);
      assert cs == [d[..3]] + rest;
      forall j | 0 <= j < |cs| - 1 ensures |cs[j]| == 3 {
        if j > 0 {
          assert cs[j] == rest[j - 1];
        }
      }
    }
  }

  /** The generator as the loop it runs. */
  method Chunk<T>(d: seq<T>) returns (cs: seq<seq<T>>)
    ensures cs == Chunks(d)
  {
    cs := [];
    var i := 0;
    while i < |d|
      invariant 0 <= i <= |d|
      invariant cs + Chunks(d[i..]) == Chunks(d)
      decreases |d| - i
    {
      var t := d[i..];
      if |t| <= 3 {
        assert Chunks(t) == [t];
        cs := cs + [t];
        i := |d|;
        assert d[i..] == [];
      } else {
        assert t[..3] == d[i..i + 3] && t[3..] == d[i + 3..];
        assert Chunks(t) == [d[i..i + 3]] + Chunks(d[i + 3..]);
        cs := cs + [d[i..i + 3]];
        i := i + 3;
      }
    }
  }

  // -----------------------------------------------------------------------
  // Panel sizes

  /** `w - panel_width * cols` with `panel_width = int(w / cols)`. */
  function Padding(total: nat, n: nat): (pad: nat)
    requires n > 0
    ensures pad < n
  {
    total - (total / n) * n
  }

  /** The padding is the remainder of the division. */
  lemma PaddingRemainder(total: nat, n: nat)
    requires n > 0
    ensures Padding(total, n) == total % n
  {
  }

  /** The sizes along one axis: `panel` each, the first one `panel + pad`. */
  function Sizes(n: nat, panel: nat, pad: nat): (s: seq<nat>)
    ensures |s| == n
    decreases n
  {
    if n == 0 then [] else Sizes(n - 1, panel, pad) + [if n == 1 then panel + pad else panel]
  }

  /** Only the first panel carries the padding. */
  lemma {:induction false} SizesAt(n: nat, panel: nat, pad: nat, j: nat)
    requires j < n
    ensures Sizes(n, panel, pad)[j] == if j == 0 then panel + pad else panel
    decreases n
  {
    if j < n - 1 {
      SizesAt(n - 1, panel, pad, j);
    }
  }

  function Sum(s: seq<nat>): nat
    decreases |s|
  {
    if s == [] then 0 else Sum(s[..|s| - 1]) + s[|s| - 1]
  }

  lemma {:induction false} SumSizes(n: nat, panel: nat, pad: nat)
    requires n > 0
    ensures Sum(Sizes(n, panel, pad)) == panel * n + pad
    decreases n
  {
    var s := Sizes(n, panel, pad);
    assert s[..n - 1] == Sizes(n - 1, panel, pad);
    if n > 1 {
      SumSizes(n - 1, panel, pad);
      MulAdd(panel, n - 1, 1);
    }
  }

  /** Splitting `total` into n panels this way covers it exactly. */
  lemma SizesTile(total: nat, n: nat)
    requires n > 0
    ensures Sum(Sizes(n, total / n, Padding(total, n))) == total
  {
    SumSizes(n, total / n, Padding(total, n));
  }

  // -----------------------------------------------------------------------
  // Tiling

  /** `tuple(t) * n`. */
  function Repeat<T>(t: seq<T>, n: nat): seq<T>
    decreases n
  {
    if n == 0 then [] else Repeat(t, n - 1) + t
  }

  /** Each part repeated its own number of times, parts in order. */
  function Tile<T>(parts: seq<seq<T>>, sizes: seq<nat>): seq<T>
    requires |parts| == |sizes|
    decreases |parts|
  {
    if parts == [] then []
    else Tile(parts[..|parts| - 1], sizes[..|sizes| - 1]) + Repeat(parts[|parts| - 1], sizes[|sizes| - 1])
  }

  /** Appending one part and its size appends its repetitions. */
  lemma TileSnoc<T>(parts: seq<seq<T>>, sizes: seq<nat>, p: seq<T>, s: nat)
    requires |parts| == |sizes|
    ensures Tile(parts + [p], sizes + [s]) == Tile(parts, sizes) + Repeat(p, s)
  {
    assert (parts + [p])[..|parts|] == parts;
    assert (sizes + [s])[..|sizes|] == sizes;
  }

  lemma {:induction false} RepeatAt<T>(t: seq<T>, k: nat, n: nat, q: nat, m: nat)
    requires |t| == k && q < n && m < k
    ensures k * q + m < |Repeat(t, n)| && Repeat(t, n)[k * q + m] == t[m]
    decreases n
  {
    var init := Repeat(t, n - 1);
    RepeatLength(t, k, n - 1);
    MulAdd(k, n - 1, 1);
    if q < n - 1 {
      RepeatAt(t, k, n - 1, q, m);
      assert (init + t)[k * q + m] == init[k * q + m];
    } else {
      AppendAt(init, t, k * q + m, m);
    }
  }

  lemma {:induction false} RepeatLength<T>(t: seq<T>, k: nat, n: nat)
    requires |t| == k
    ensures |Repeat(t, n)| == k * n
    decreases n
  {
    if n > 0 {
      RepeatLength(t, k, n - 1);
      MulAdd(k, n - 1, 1);
    }
  }

  lemma {:induction false} TileLength<T>(parts: seq<seq<T>>, sizes: seq<nat>, k: nat)
    requires |parts| == |sizes| && forall j :: 0 <= j < |parts| ==> |parts[j]| == k
    ensures |Tile(parts, sizes)| == k * Sum(sizes)
    decreases |parts|
  {
    if parts != [] {
      var n := |parts|;
      TileLength(parts[..n - 1], sizes[..n - 1], k);
      RepeatLength(parts[n - 1], k, sizes[n - 1]);
      assert Sum(sizes) == Sum(sizes[..n - 1]) + sizes[n - 1];
      MulAdd(k, Sum(sizes[..n - 1]), sizes[n - 1]);
    }
  }

  /** Part j fills positions Sum(sizes[..j]) up to Sum(sizes[..j + 1]) of
      the tiling, counted in units of k elements: the parts appear in their
      own order, each as wide as its size. */
  lemma {:induction false} TileAt<T>(parts: seq<seq<T>>, sizes: seq<nat>, k: nat, j: nat, x: nat, m: nat)
    requires |parts| == |sizes| && forall i :: 0 <= i < |parts| ==> |parts[i]| == k
    requires j < |parts| && Sum(sizes[..j]) <= x < Sum(sizes[..j + 1]) && m < k
    ensures k * x + m < |Tile(parts, sizes)| && Tile(parts, sizes)[k * x + m] == parts[j][m]
    decreases |parts|
  {
    var n := |parts|;
    var init, last := parts[..n - 1], parts[n - 1];
    var a := Tile(init, sizes[..n - 1]);
    var b := Repeat(last, sizes[n - 1]);
    assert Tile(parts, sizes) == a + b;
    var s := Sum(sizes[..n - 1]);
    assert Sum(sizes) == s + sizes[n - 1];
    TileLength(init, sizes[..n - 1], k);
    assert |a| == k * s;
    if j < n - 1 {
      assert sizes[..n - 1][..j] == sizes[..j];
      assert sizes[..n - 1][..j + 1] == sizes[..j + 1];
      TileAt(init, sizes[..n - 1], k, j, x, m);
      assert (a + b)[k * x + m] == a[k * x + m];
    } else {
      assert sizes[..j + 1] == sizes && sizes[..j] == sizes[..n - 1];
      var q := x - s;
      RepeatAt(last, k, sizes[n - 1], q, m);
      TileLastAt(a, b, k, s, x, q, m);
    }
  }

  /** Position k * x + m of a + b, past a's k * s elements. */
  lemma TileLastAt<T>(a: seq<T>, b: seq<T>, k: nat, s: nat, x: nat, q: nat, m: nat)
    requires |a| == k * s && x == s + q && k * q + m < |b|
    ensures k * x + m < |a + b| && (a + b)[k * x + m] == b[k * q + m]
  {
    OffsetSplit(k, s, x, q, m);
    AppendAt(a, b, k * x + m, k * q + m);
  }

  lemma MulAdd(k: nat, a: nat, b: nat)
    ensures k * a + k * b == k * (a + b)
  {
  }

  lemma AppendAt<T>(a: seq<T>, b: seq<T>, i: nat, o: nat)
    requires i == |a| + o && o < |b|
    ensures i < |a + b| && (a + b)[i] == b[o]
  {
  }

  lemma OffsetSplit(k: nat, s: nat, x: nat, q: nat, m: nat)
    requires x == s + q
    ensures k * x + m == k * s + (k * q + m)
  {
  }

  // -----------------------------------------------------------------------
  // The chart

  /** `row[1:]`. */
  function Tail(row: seq<string>): seq<string> {
    if row == [] then [] else row[1..]
  }

  /** `list(chunk())` of one csv row. */
  function Triples(row: seq<string>): seq<seq<string>> {
    Chunks(Tail(row))
  }

  /** `patchlist`: each csv row's triples, rows in file order. */
  function Patchlist(rows: seq<seq<string>>): (pl: seq<seq<seq<string>>>)
    ensures |pl| == |rows|
  {
    Map(Triples, rows)
  }

  /** `int(c)` for one field. */
  function IntOf(parse: string -> Option<int>, s: string): Result<int> {
    var v := parse(s);
    if v.Some? then Ok(v.value) else Raise(ValueError)
  }

  /** `[int(c) for c in column]`. */
  function Ints(parse: string -> Option<int>, column: seq<string>): Result<seq<int>> {
    Sequence(s => IntOf(parse, s), column)
  }

  /** `[int(c) for c in column]` as a function of the column. */
  function PanelInts(parse: string -> Option<int>): seq<string> -> Result<seq<int>> {
    column => Ints(parse, column)
  }

  /** The values of every panel of one row. */
  function RowValues(parse: string -> Option<int>, row: seq<seq<string>>): Result<seq<seq<int>>> {
    Sequence(PanelInts(parse), row)
  }

  /** `row_data`: each panel's values repeated across its width. */
  function RowData(parse: string -> Option<int>, row: seq<seq<string>>, panel: nat, pad: nat): Result<seq<int>> {
    var vs := RowValues(parse, row);
    if vs.Raise? then Raise(vs.exc) else Ok(Tile(vs.value, Sizes(|row|, panel, pad)))
  }

  /** `row_data` as a function of the row. */
  function RowDataOf(parse: string -> Option<int>, panel: nat, pad: nat): seq<seq<string>> -> Result<seq<int>> {
    r => RowData(parse, r, panel, pad)
  }

  /** The data of every row. */
  function AllRowData(parse: string -> Option<int>, pl: seq<seq<seq<string>>>, panel: nat, pad: nat): Result<seq<seq<int>>> {
    Sequence(RowDataOf(parse, panel, pad), pl)
  }

  /** `int` is applied to every field: the list exists exactly when every
      field parses, and then holds their values in order; otherwise it is
      a ValueError. */
  lemma IntsSpec(parse: string -> Option<int>, column: seq<string>)
    ensures Ints(parse, column).Ok? <==> forall c :: 0 <= c < |column| ==> parse(column[c]).Some?
    ensures Ints(parse, column).Ok? ==> (|Ints(parse, column).value| == |column|
      && forall c :: 0 <= c < |column| ==> parse(column[c]) == Some(Ints(parse, column).value[c]))
    ensures Ints(parse, column).Raise? ==> Ints(parse, column).exc == ValueError
  {
    SequenceSpec(s => IntOf(parse, s), column);
  }

  /** A row's values exist exactly when every panel's do. */
  lemma RowValuesSpec(parse: string -> Option<int>, row: seq<seq<string>>)
    ensures RowValues(parse, row).Ok? <==> forall j :: 0 <= j < |row| ==> Ints(parse, row[j]).Ok?
    ensures RowValues(parse, row).Ok? ==> (|RowValues(parse, row).value| == |row|
      && forall j :: 0 <= j < |row| ==> Ints(parse, row[j]) == Ok(RowValues(parse, row).value[j]))
    ensures RowValues(parse, row).Raise? ==> RowValues(parse, row).exc == ValueError
  {
    SequenceSpec(PanelInts(parse), row);
    if RowValues(parse, row).Raise? {
      var j :| 0 <= j < |row| && PanelInts(parse)(row[j]) == Raise(RowValues(parse, row).exc);
      IntsSpec(parse, row[j]);
    }
  }

  /** All rows' data exist exactly when every row's does. */
  lemma AllRowDataSpec(parse: string -> Option<int>, pl: seq<seq<seq<string>>>, panel: nat, pad: nat)
    ensures AllRowData(parse, pl, panel, pad).Ok? <==> forall j :: 0 <= j < |pl| ==> RowData(parse, pl[j], panel, pad).Ok?
    ensures AllRowData(parse, pl, panel, pad).Ok? ==> (|AllRowData(parse, pl, panel, pad).value| == |pl|
      && forall j :: 0 <= j < |pl| ==> RowData(parse, pl[j], panel, pad) == Ok(AllRowData(parse, pl, panel, pad).value[j]))
    ensures AllRowData(parse, pl, panel, pad).Raise? ==> AllRowData(parse, pl, panel, pad).exc == ValueError
  {
    var f := RowDataOf(parse, panel, pad);
    SequenceSpec(f, pl);
    if AllRowData(parse, pl, panel, pad).Raise? {
      var j :| 0 <= j < |pl| && f(pl[j]) == Raise(AllRowData(parse, pl, panel, pad).exc);
      RowValuesSpec(parse, pl[j]);
    }
  }

  /** One element per band: the row data it repeats. */
  function Singletons<T>(data: seq<T>): (s: seq<seq<T>>)
    ensures |s| == |data| && forall j :: 0 <= j < |data| ==> s[j] == [data[j]]
    decreases |data|
  {
    if data == [] then [] else Singletons(data[..|data| - 1]) + [[data[|data| - 1]]]
  }

  /** Each element repeated its own number of times: element j fills the
      positions Sum(hs[..j]) up to Sum(hs[..j + 1]). */
  lemma TileBands<T>(data: seq<T>, hs: seq<nat>, j: nat, y: nat)
    requires |data| == |hs| && j < |data| && Sum(hs[..j]) <= y < Sum(hs[..j + 1])
    ensures |Tile(Singletons(data), hs)| == Sum(hs)
    ensures y < |Tile(Singletons(data), hs)| && Tile(Singletons(data), hs)[y] == data[j]
  {
    var parts := Singletons(data);
    TileLength(parts, hs, 1);
    assert 1 * Sum(hs) == Sum(hs);
    TileAt(parts, hs, 1, j, y, 0);
    var t := Tile(parts, hs);
    assert 1 * y + 0 == y;
    assert t[y] == parts[j][0];
    assert parts[j][0] == data[j];
  }

  /** The frame built from the patch list once its panel sizes are known:
      every row's data, each repeated over its band of pixel rows. */
  function Frame(parse: string -> Option<int>, pl: seq<seq<seq<string>>>,
                 panelWidth: nat, widthPadding: nat, panelHeight: nat, heightPadding: nat): Result<seq<seq<int>>>
  {
    var data := AllRowData(parse, pl, panelWidth, widthPadding);
    if data.Raise? then Raise(data.exc)
    else Ok(Tile(Singletons(data.value), Sizes(|pl|, panelHeight, heightPadding)))
  }

  /** `pixels`, or the exception the script stops with: no csv rows leaves
      `patchlist[0]` out of range, a first row without fields after the
      first divides by zero, a field that is not an integer fails `int`. */
  function Pixels(parse: string -> Option<int>, rows: seq<seq<string>>, w: nat, h: nat): Result<seq<seq<int>>> {
    var pl := Patchlist(rows);
    if pl == [] then Raise(IndexError)
    else if |pl[0]| == 0 then Raise(ZeroDivisionError)
    else
      var cols, n := |pl[0]|, |pl|;
      Frame(parse, pl, w / cols, Padding(w, cols), h / n, Padding(h, n))
  }

  /** The frame stops exactly when some field does not parse, and then
      with a ValueError. */
  lemma FrameRaises(parse: string -> Option<int>, pl: seq<seq<seq<string>>>,
                    panelWidth: nat, widthPadding: nat, panelHeight: nat, heightPadding: nat)
    ensures var f := Frame(parse, pl, panelWidth, widthPadding, panelHeight, heightPadding);
      (f.Raise? ==> f.exc == ValueError)
      && (f.Raise? <==> exists i, j, c :: 0 <= i < |pl| && 0 <= j < |pl[i]| && 0 <= c < |pl[i][j]| && parse(pl[i][j][c]).None?)
  {
    AllRowDataSpec(parse, pl, panelWidth, widthPadding);
    if AllRowData(parse, pl, panelWidth, widthPadding).Raise? {
      var i :| 0 <= i < |pl| && RowData(parse, pl[i], panelWidth, widthPadding).Raise?;
      RowValuesSpec(parse, pl[i]);
      var j :| 0 <= j < |pl[i]| && Ints(parse, pl[i][j]).Raise?;
      IntsSpec(parse, pl[i][j]);
      var c :| 0 <= c < |pl[i][j]| && parse(pl[i][j][c]).None?;
    } else {
      forall i, j, c | 0 <= i < |pl| && 0 <= j < |pl[i]| && 0 <= c < |pl[i][j]|
        ensures parse(pl[i][j][c]).Some?
      {
        RowValuesSpec(parse, pl[i]);
        IntsSpec(parse, pl[i][j]);
      }
    }
  }

  /** Row i of the patch list holds the triples of csv row i; the first one
      is empty exactly when the first csv row has no field after its first. */
  lemma PatchlistRows(rows: seq<seq<string>>)
    ensures forall i :: 0 <= i < |rows| ==> Patchlist(rows)[i] == Chunks(Tail(rows[i]))
    ensures rows != [] ==> (|Patchlist(rows)[0]| == 0 <==> |rows[0]| <= 1)
  {
    MapAll(Triples, rows);
    if rows != [] {
      ChunksShape(Tail(rows[0]));
    }
  }

  /** The error cases, each in both directions: IndexError for no rows,
      ZeroDivisionError for an empty first row, and ValueError exactly when
      some field of the patch list does not parse. */
  lemma PixelsErrors(parse: string -> Option<int>, rows: seq<seq<string>>, w: nat, h: nat)
    ensures Pixels(parse, rows, w, h) == Raise(IndexError) <==> rows == []
    ensures Pixels(parse, rows, w, h) == Raise(ZeroDivisionError) <==> rows != [] && |rows[0]| <= 1
    ensures Pixels(parse, rows, w, h).Raise? ==> Pixels(parse, rows, w, h).exc in {IndexError, ZeroDivisionError, ValueError}
    ensures rows != [] && |rows[0]| > 1 ==>
      (Pixels(parse, rows, w, h) == Raise(ValueError) <==>
        var pl := Patchlist(rows);
        exists i, j, c :: 0 <= i < |pl| && 0 <= j < |pl[i]| && 0 <= c < |pl[i][j]| && parse(pl[i][j][c]).None?)
  {
    PatchlistRows(rows);
    var pl := Patchlist(rows);
    if rows != [] && |pl[0]| != 0 {
      var cols, n := |pl[0]|, |pl|;
      FrameRaises(parse, pl, w / cols, Padding(w, cols), h / n, Padding(h, n));
    }
  }

  /** The frame is the bands' heights tall; band j covers the rows
      Sum(hs[..j]) up to Sum(hs[..j + 1]), in patch-list order, and each of
      them is that row's data. */
  lemma FrameBands(parse: string -> Option<int>, pl: seq<seq<seq<string>>>,
                   panelWidth: nat, widthPadding: nat, panelHeight: nat, heightPadding: nat, j: nat, y: nat)
    requires Frame(parse, pl, panelWidth, widthPadding, panelHeight, heightPadding).Ok?
    requires var hs := Sizes(|pl|, panelHeight, heightPadding);
      j < |pl| && Sum(hs[..j]) <= y < Sum(hs[..j + 1])
    ensures var p := Frame(parse, pl, panelWidth, widthPadding, panelHeight, heightPadding).value;
      y < |p| && RowData(parse, pl[j], panelWidth, widthPadding) == Ok(p[y])
  {
    AllRowDataSpec(parse, pl, panelWidth, widthPadding);
    var data := AllRowData(parse, pl, panelWidth, widthPadding).value;
    TileBands(data, Sizes(|pl|, panelHeight, heightPadding), j, y);
  }

  /** The frame is as tall as its bands together. */
  lemma FrameHeight(parse: string -> Option<int>, pl: seq<seq<seq<string>>>,
                    panelWidth: nat, widthPadding: nat, panelHeight: nat, heightPadding: nat)
    requires Frame(parse, pl, panelWidth, widthPadding, panelHeight, heightPadding).Ok?
    ensures |Frame(parse, pl, panelWidth, widthPadding, panelHeight, heightPadding).value|
      == Sum(Sizes(|pl|, panelHeight, heightPadding))
  {
    var data := AllRowData(parse, pl, panelWidth, widthPadding).value;
    TileLength(Singletons(data), Sizes(|pl|, panelHeight, heightPadding), 1);
  }

  /** The rendered frame is exactly h pixel rows. */
  lemma PixelsHeight(parse: string -> Option<int>, rows: seq<seq<string>>, w: nat, h: nat)
    requires Pixels(parse, rows, w, h).Ok?
    ensures |Pixels(parse, rows, w, h).value| == h
  {
    var pl := Patchlist(rows);
    var cols, n := |pl[0]|, |pl|;
    FrameHeight(parse, pl, w / cols, Padding(w, cols), h / n, Padding(h, n));
    SizesTile(h, n);
  }

  /** With full triples a row of `cols` panels is exactly 3 * w values wide. */
  lemma RowDataWidth(parse: string -> Option<int>, row: seq<seq<string>>, w: nat)
    requires |row| > 0 && RowData(parse, row, w / |row|, Padding(w, |row|)).Ok?
    requires forall i :: 0 <= i < |row| ==> |row[i]| == 3
    ensures |RowData(parse, row, w / |row|, Padding(w, |row|)).value| == 3 * w
  {
    var n := |row|;
    var panel, pad := w / n, Padding(w, n);
    RowTriples(parse, row, panel, pad);
    TileLength(RowValues(parse, row).value, Sizes(n, panel, pad), 3);
    SizesTile(w, n);
  }

  /** The values of a row of full triples are triples, in csv column
      order, and the row's data tiles them: with TileAt, panel j covers the
      pixel columns Sum(ws[..j]) up to Sum(ws[..j + 1]), three values per
      pixel. */
  lemma RowTriples(parse: string -> Option<int>, row: seq<seq<string>>, panel: nat, pad: nat)
    requires RowData(parse, row, panel, pad).Ok?
    requires forall i :: 0 <= i < |row| ==> |row[i]| == 3
    ensures RowValues(parse, row).Ok? && |RowValues(parse, row).value| == |row|
    ensures forall i :: 0 <= i < |row| ==> |RowValues(parse, row).value[i]| == 3
    ensures forall i :: 0 <= i < |row| ==> Ints(parse, row[i]) == Ok(RowValues(parse, row).value[i])
    ensures RowData(parse, row, panel, pad).value == Tile(RowValues(parse, row).value, Sizes(|row|, panel, pad))
  {
    RowValuesSpec(parse, row);
    var vs := RowValues(parse, row).value;
    forall i | 0 <= i < |vs|
      ensures |vs[i]| == 3
    {
      IntsSpec(parse, row[i]);
    }
  }

  // -----------------------------------------------------------------------
  // The script's loops

  /** One more panel: the tiling grows by that panel's repetitions. */
  lemma SizesSnoc<T>(parts: seq<seq<T>>, p: seq<T>, i: nat, panel: nat, pad: nat)
    requires |parts| == i
    ensures Tile(parts + [p], Sizes(i + 1, panel, pad))
      == Tile(parts, Sizes(i, panel, pad)) + Repeat(p, panel + (if i == 0 then pad else 0))
  {
    TileSnoc(parts, Sizes(i, panel, pad), p, panel + (if i == 0 then pad else 0));
  }

  /** The rows already rendered, one more band added. */
  lemma BandSnoc(data: seq<seq<int>>, d: seq<int>, i: nat, panel: nat, pad: nat)
    requires |data| == i
    ensures Tile(Singletons(data + [d]), Sizes(i + 1, panel, pad))
      == Tile(Singletons(data), Sizes(i, panel, pad)) + Repeat([d], panel + (if i == 0 then pad else 0))
  {
    assert Singletons(data + [d]) == Singletons(data) + [[d]] by {
      assert (data + [d])[..i] == data;
    }
    SizesSnoc(Singletons(data), [d], i, panel, pad);
  }

  /** The csv loop: one `list(chunk())` per row. */
  method ReadPatchlist(rows: seq<seq<string>>) returns (pl: seq<seq<seq<string>>>)
    ensures pl == Patchlist(rows)
  {
    pl := [];
    var i := 0;
    while i < |rows|
      invariant 0 <= i <= |rows|
      invariant pl == Patchlist(rows[..i])
    {
      var d := Tail(rows[i]);
      var cs := Chunk(d);
      assert rows[..i + 1][..i] == rows[..i];
      pl := pl + [cs];
      i := i + 1;
    }
    assert rows[..i] == rows;
  }

  /** After the first j panels of a row: their values and `row_data`. */
  predicate Panels(parse: string -> Option<int>, row: seq<seq<string>>, j: nat, vs: seq<seq<int>>, rowData: seq<int>, panel: nat, pad: nat)
    requires j <= |row|
  {
    Sequence(PanelInts(parse), row[..j]) == Ok(vs) && |vs| == j && rowData == Tile(vs, Sizes(j, panel, pad))
  }

  /** A panel that raises makes the row raise. */
  lemma PanelRaises(parse: string -> Option<int>, row: seq<seq<string>>, j: nat, vs: seq<seq<int>>, rowData: seq<int>, panel: nat, pad: nat)
    requires j < |row| && Panels(parse, row, j, vs, rowData, panel, pad)
    requires Ints(parse, row[j]).Raise?
    ensures RowData(parse, row, panel, pad) == Raise(ValueError)
  {
    SequenceStop(PanelInts(parse), row, j, |row|, vs, Ints(parse, row[j]).exc);
    assert row[..|row|] == row;
    IntsSpec(parse, row[j]);
  }

  /** A panel that parses adds its values, repeated across its width. */
  lemma PanelGrows(parse: string -> Option<int>, row: seq<seq<string>>, j: nat, vs: seq<seq<int>>, rowData: seq<int>, v: seq<int>,
                   panel: nat, pad: nat)
    requires j < |row| && Panels(parse, row, j, vs, rowData, panel, pad)
    requires Ints(parse, row[j]) == Ok(v)
    ensures Panels(parse, row, j + 1, vs + [v], rowData + Repeat(v, panel + (if j == 0 then pad else 0)), panel, pad)
  {
    SequenceSnoc(PanelInts(parse), row, j, vs, v);
    SizesSnoc(vs, v, j, panel, pad);
  }

  /** Every panel read: `row_data` is the row's data. */
  lemma PanelsDone(parse: string -> Option<int>, row: seq<seq<string>>, vs: seq<seq<int>>, rowData: seq<int>, panel: nat, pad: nat)
    requires Panels(parse, row, |row|, vs, rowData, panel, pad)
    ensures RowData(parse, row, panel, pad) == Ok(rowData)
  {
    assert row[..|row|] == row;
  }

  /** `for col_num, column in enumerate(row): row_data += ...`. */
  method BuildRowData(parse: string -> Option<int>, row: seq<seq<string>>, panel: nat, pad: nat) returns (r: Result<seq<int>>)
    ensures r == RowData(parse, row, panel, pad)
  {
    var rowData := [];
    ghost var vs: seq<seq<int>> := [];
    var j := 0;
    while j < |row|
      invariant 0 <= j <= |row| && Panels(parse, row, j, vs, rowData, panel, pad)
    {
      var t := Ints(parse, row[j]);
      if t.Raise? {
        PanelRaises(parse, row, j, vs, rowData, panel, pad);
        return Raise(ValueError);
      }
      var width := panel + (if j == 0 then pad else 0);
      PanelGrows(parse, row, j, vs, rowData, t.value, panel, pad);
      rowData := rowData + Repeat(t.value, width);
      vs := vs + [t.value];
      j := j + 1;
    }
    PanelsDone(parse, row, vs, rowData, panel, pad);
    return Ok(rowData);
  }

  /** The whole script up to the PNG writer. */
  method Render(parse: string -> Option<int>, rows: seq<seq<string>>, w: nat, h: nat) returns (r: Result<seq<seq<int>>>)
    ensures r == Pixels(parse, rows, w, h)
  {
    var pl := ReadPatchlist(rows);
    if |pl| == 0 {
      return Raise(IndexError);
    }
    var cols := |pl[0]|;
    var n := |pl|;
    if cols == 0 {
      return Raise(ZeroDivisionError);
    }
    var panelWidth := w / cols;
    var widthPadding := Padding(w, cols);
    var panelHeight := h / n;
    var heightPadding := Padding(h, n);
    r := RenderBands(parse, pl, panelWidth, widthPadding, panelHeight, heightPadding);
  }

  /** After the first i rows of the patch list: their data and `pixels`. */
  predicate Bands(parse: string -> Option<int>, pl: seq<seq<seq<string>>>, i: nat, data: seq<seq<int>>, pixels: seq<seq<int>>,
                  panelWidth: nat, widthPadding: nat, panelHeight: nat, heightPadding: nat)
    requires i <= |pl|
  {
    Sequence(RowDataOf(parse, panelWidth, widthPadding), pl[..i]) == Ok(data) && |data| == i
    && pixels == Tile(Singletons(data), Sizes(i, panelHeight, heightPadding))
  }

  /** A row that raises makes the frame raise. */
  lemma BandRaises(parse: string -> Option<int>, pl: seq<seq<seq<string>>>, i: nat, data: seq<seq<int>>, pixels: seq<seq<int>>,
                   panelWidth: nat, widthPadding: nat, panelHeight: nat, heightPadding: nat)
    requires i < |pl| && Bands(parse, pl, i, data, pixels, panelWidth, widthPadding, panelHeight, heightPadding)
    requires RowData(parse, pl[i], panelWidth, widthPadding).Raise?
    ensures Frame(parse, pl, panelWidth, widthPadding, panelHeight, heightPadding) == Raise(ValueError)
  {
    var f := RowDataOf(parse, panelWidth, widthPadding);
    SequenceStop(f, pl, i, |pl|, data, f(pl[i]).exc);
    assert pl[..|pl|] == pl;
    RowValuesSpec(parse, pl[i]);
  }

  /** A row that has data adds its band. */
  lemma BandGrows(parse: string -> Option<int>, pl: seq<seq<seq<string>>>, i: nat, data: seq<seq<int>>, pixels: seq<seq<int>>, d: seq<int>,
                  panelWidth: nat, widthPadding: nat, panelHeight: nat, heightPadding: nat)
    requires i < |pl| && Bands(parse, pl, i, data, pixels, panelWidth, widthPadding, panelHeight, heightPadding)
    requires RowData(parse, pl[i], panelWidth, widthPadding) == Ok(d)
    ensures Bands(parse, pl, i + 1, data + [d], pixels + Repeat([d], panelHeight + (if i == 0 then heightPadding else 0)),
                  panelWidth, widthPadding, panelHeight, heightPadding)
  {
    SequenceSnoc(RowDataOf(parse, panelWidth, widthPadding), pl, i, data, d);
    BandSnoc(data, d, i, panelHeight, heightPadding);
  }

  /** Every row rendered: `pixels` is the frame. */
  lemma BandsDone(parse: string -> Option<int>, pl: seq<seq<seq<string>>>, data: seq<seq<int>>, pixels: seq<seq<int>>,
                  panelWidth: nat, widthPadding: nat, panelHeight: nat, heightPadding: nat)
    requires Bands(parse, pl, |pl|, data, pixels, panelWidth, widthPadding, panelHeight, heightPadding)
    ensures Frame(parse, pl, panelWidth, widthPadding, panelHeight, heightPadding) == Ok(pixels)
  {
    assert pl[..|pl|] == pl;
  }

  /** `for row_num, row in enumerate(patchlist)`: one band per row. */
  method RenderBands(parse: string -> Option<int>, pl: seq<seq<seq<string>>>,
                     panelWidth: nat, widthPadding: nat, panelHeight: nat, heightPadding: nat)
    returns (r: Result<seq<seq<int>>>)
    ensures r == Frame(parse, pl, panelWidth, widthPadding, panelHeight, heightPadding)
  {
    var pixels := [];
    ghost var data: seq<seq<int>> := [];
    var i := 0;
    while i < |pl|
      invariant 0 <= i <= |pl| && Bands(parse, pl, i, data, pixels, panelWidth, widthPadding, panelHeight, heightPadding)
    {
      var rowData := BuildRowData(parse, pl[i], panelWidth, widthPadding);
      if rowData.Raise? {
        BandRaises(parse, pl, i, data, pixels, panelWidth, widthPadding, panelHeight, heightPadding);
        return Raise(ValueError);
      }
      var count := panelHeight + (if i == 0 then heightPadding else 0);
      var band := BandLoop(rowData.value, count);
      BandGrows(parse, pl, i, data, pixels, rowData.value, panelWidth, widthPadding, panelHeight, heightPadding);
      pixels := pixels + band;
      data := data + [rowData.value];
      i := i + 1;
    }
    BandsDone(parse, pl, data, pixels, panelWidth, widthPadding, panelHeight, heightPadding);
    return Ok(pixels);
  }

  /** `for i in range(...): pixels.append(row_data)`. */
  method BandLoop(rowData: seq<int>, count: nat) returns (band: seq<seq<int>>)
    ensures band == Repeat([rowData], count)
  {
    band := [];
    var i := 0;
    while i < count
      invariant 0 <= i <= count
      invariant band == Repeat([rowData], i)
    {
      band := band + [rowData];
      i := i + 1;
    }
  }
}
