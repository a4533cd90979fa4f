/** The tally both crop-analysis scripts run over one `crop_{limit}_{skip}.csv`
    file: count every data row's `crop` cell in a dictionary, keep the first
    non-empty `mc_crop` cell, and take the head of the dictionary's items
    sorted by count, largest first. */
module CropTally {
  import opened Wrappers
  import opened Text
  import opened Library
  import CropDetect

  // -----------------------------------------------------------------------
  // A counting dictionary filled in order

  /** Occurrences of x in xs. */
  function Count(xs: seq<string>, x: string): nat {
    if xs == [] then 0 else Count(xs[..|xs| - 1], x) + (if xs[|xs| - 1] == x then 1 else 0)
  }

  /** The keys of a dictionary filled from xs in order: every distinct value,
      where it first appears. */
  function FirstSeen(xs: seq<string>): seq<string> {
    if xs == [] then []
    else
      var keys := FirstSeen(xs[..|xs| - 1]);
      if xs[|xs| - 1] in keys then keys else keys + [xs[|xs| - 1]]
  }

  /** The dictionary's counts. */
  function Counts(xs: seq<string>): map<string, nat> {
    map x | x in xs :: Count(xs, x)
  }

  /** The keys are exactly the values of xs, each once. */
  lemma {:induction false} FirstSeenSpec(xs: seq<string>)
    ensures forall x :: x in FirstSeen(xs) <==> x in xs
    ensures forall i, j :: 0 <= i < j < |FirstSeen(xs)| ==> FirstSeen(xs)[i] != FirstSeen(xs)[j]
  {
    if xs != [] {
      var init := xs[..|xs| - 1];
      FirstSeenSpec(init);
      assert xs == init + [xs[|xs| - 1]];
    }
  }

  lemma IndexOfSnoc(xs: seq<string>, x: string, y: string)
    requires y in xs
    ensures IndexOf(xs + [x], y) == IndexOf(xs, y)
  {
    assert (xs + [x])[IndexOf(xs, y).value] == y;
  }

  /** The keys come in order of first appearance in xs. */
  lemma {:induction false} FirstSeenOrder(xs: seq<string>)
    ensures forall i, j :: 0 <= i < j < |FirstSeen(xs)| ==>
      FirstSeen(xs)[i] in xs && FirstSeen(xs)[j] in xs
      && IndexOf(xs, FirstSeen(xs)[i]).value < IndexOf(xs, FirstSeen(xs)[j]).value
  {
    FirstSeenSpec(xs);
    if xs != [] {
      var init, x := xs[..|xs| - 1], xs[|xs| - 1];
      assert xs == init + [x];
      FirstSeenOrder(init);
      FirstSeenSpec(init);
      var keys, prev := FirstSeen(xs), FirstSeen(init);
      forall i, j | 0 <= i < j < |keys|
        ensures IndexOf(xs, keys[i]).value < IndexOf(xs, keys[j]).value
      {
        IndexOfSnoc(init, x, keys[i]);
        if j < |prev| {
          IndexOfSnoc(init, x, keys[j]);
        } else {
          assert keys[j] == x && x !in init;
          assert xs[|init|] == x;
        }
      }
    }
  }

  lemma {:induction false} CountAbsent(xs: seq<string>, x: string)
    requires x !in xs
    ensures Count(xs, x) == 0
  {
    if xs != [] {
      CountAbsent(xs[..|xs| - 1], x);
    }
  }

  /** One `counts[x] = counts[x] + 1` on a defaultdict. */
  lemma CountsSnoc(xs: seq<string>, x: string)
    ensures Counts(xs + [x]) == Counts(xs)[x := (if x in Counts(xs) then Counts(xs)[x] else 0) + 1]
  {
    var ys := xs + [x];
    assert ys[..|ys| - 1] == xs;
    var lhs, rhs := Counts(ys), Counts(xs)[x := (if x in Counts(xs) then Counts(xs)[x] else 0) + 1];
    forall y | y in lhs ensures y in rhs && lhs[y] == rhs[y] {
      if y == x && x !in xs {
        CountAbsent(xs, x);
      }
      if y != x {
        assert y in xs by {
          var k :| 0 <= k < |ys| && ys[k] == y;
          assert k < |xs|;
        }
      }
    }
    forall y | y in rhs ensures y in lhs {
      if y != x {
        assert y in xs;
        var k :| 0 <= k < |xs| && xs[k] == y;
        assert ys[k] == y;
      }
    }
  }

  lemma FirstSeenSnoc(xs: seq<string>, x: string)
    ensures FirstSeen(xs + [x]) == if x in Counts(xs) then FirstSeen(xs) else FirstSeen(xs) + [x]
  {
    var ys := xs + [x];
    assert ys[..|ys| - 1] == xs;
    FirstSeenSpec(xs);
  }

  // -----------------------------------------------------------------------
  // The head of the sorted items

  /** Position of the first key whose count is largest; None for no keys. */
  function BestIndex(keys: seq<string>, counts: map<string, nat>): (r: Option<nat>)
    requires forall k :: k in keys ==> k in counts
    ensures r.None? <==> keys == []
    ensures r.Some? ==> r.value < |keys|
    ensures r.Some? ==> forall i :: 0 <= i < |keys| ==> counts[keys[i]] <= counts[keys[r.value]]
    ensures r.Some? ==> forall i :: 0 <= i < r.value ==> counts[keys[i]] < counts[keys[r.value]]
  {
    if keys == [] then None
    else
      var prev := BestIndex(keys[..|keys| - 1], counts);
      var last := |keys| - 1;
      if prev.None? || counts[keys[last]] > counts[keys[prev.value]] then Some(last) else prev
  }

  /** `sorted(counts.items(), key=count, reverse=True)[0][0]`, when there is
      an item. Python's sort is stable, so the head is the first key, in
      dictionary order, whose count is largest. */
  function Mode(xs: seq<string>): Option<string> {
    var keys := FirstSeen(xs);
    FirstSeenSpec(xs);
    var b := BestIndex(keys, Counts(xs));
    if b.None? then None else Some(keys[b.value])
  }

  lemma KeyAt(xs: seq<string>, y: string) returns (i: nat)
    requires y in xs
    ensures i < |FirstSeen(xs)| && FirstSeen(xs)[i] == y
  {
    FirstSeenSpec(xs);
    i :| 0 <= i < |FirstSeen(xs)| && FirstSeen(xs)[i] == y;
  }

  lemma ModeCount(xs: seq<string>, y: string)
    requires y in xs
    ensures Counts(xs)[y] == Count(xs, y)
  {
  }

  /** The key BestIndex picks occurs most often, and strictly more often
      than every key first seen before it. */
  lemma BestKey(xs: seq<string>, keys: seq<string>, counts: map<string, nat>, b: nat)
    requires keys == FirstSeen(xs) && counts == Counts(xs)
    requires forall k :: k in keys ==> k in counts
    requires BestIndex(keys, counts) == Some(b)
    ensures b < |keys| && keys[b] in xs
    ensures forall y :: y in xs ==> Count(xs, y) <= Count(xs, keys[b])
    ensures forall y :: y in xs && IndexOf(xs, y).value < IndexOf(xs, keys[b]).value ==> Count(xs, y) < Count(xs, keys[b])
  {
    FirstSeenSpec(xs);
    var m := keys[b];
    ModeCount(xs, m);
    forall y | y in xs ensures Count(xs, y) <= Count(xs, m) {
      var i := KeyAt(xs, y);
      ModeCount(xs, y);
    }
    forall y | y in xs && IndexOf(xs, y).value < IndexOf(xs, m).value
      ensures Count(xs, y) < Count(xs, m)
    {
      var i := KeyAt(xs, y);
      ModeCount(xs, y);
      if i > b {
        KeysOrdered(xs, b, i);
        assert false;
      }
    }
  }

  lemma KeysOrdered(xs: seq<string>, i: nat, j: nat)
    requires i < j < |FirstSeen(xs)|
    ensures FirstSeen(xs)[i] in xs && FirstSeen(xs)[j] in xs
    ensures IndexOf(xs, FirstSeen(xs)[i]).value < IndexOf(xs, FirstSeen(xs)[j]).value
  {
    FirstSeenOrder(xs);
  }

  /** The chosen crop occurs most often; every crop first seen before it
      occurs strictly less often; there is one exactly when xs is not empty. */
  lemma ModeSpec(xs: seq<string>)
    ensures Mode(xs).None? <==> xs == []
    ensures Mode(xs).Some? ==>
      var m := Mode(xs).value;
      m in xs
      && (forall y :: y in xs ==> Count(xs, y) <= Count(xs, m))
      && (forall y :: y in xs && IndexOf(xs, y).value < IndexOf(xs, m).value ==> Count(xs, y) < Count(xs, m))
  {
    FirstSeenSpec(xs);
    var keys, counts := FirstSeen(xs), Counts(xs);
    if xs != [] {
      var i0 := KeyAt(xs, xs[0]);
      var b := BestIndex(keys, counts).value;
      BestKey(xs, keys, counts, b);
      assert Mode(xs) == Some(keys[b]);
    }
  }

  // -----------------------------------------------------------------------
  // One crop file

  /** The data rows in order: the `crop` cells read, and the `mc_crop` value
      after `if not mc: mc = r[cols['mc_crop']]` on each row. A lookup of a
      column the header lacks raises KeyError; a short row raises IndexError. */
  function Scan(data: seq<Row>, ci: Option<nat>, mi: Option<nat>, mc: string): Result<(seq<string>, string)> {
    if data == [] then Ok(([], mc))
    else ScanRow(Scan(data[..|data| - 1], ci, mi, mc), data[|data| - 1], ci, mi)
  }

  /** One data row of the scan. */
  function ScanRow(prev: Result<(seq<string>, string)>, r: Row, ci: Option<nat>, mi: Option<nat>): Result<(seq<string>, string)> {
    if prev.Raise? then prev
    else if ci.None? then Raise(KeyError("crop"))
    else if ci.value >= |r| then Raise(IndexError)
    else
      var crops := prev.value.0 + [r[ci.value]];
      if prev.value.1 != "" then Ok((crops, prev.value.1))
      else if mi.None? then Raise(KeyError("mc_crop"))
      else if mi.value >= |r| then Raise(IndexError)
      else Ok((crops, r[mi.value]))
  }

  lemma ScanPrefix(data: seq<Row>, i: nat, ci: Option<nat>, mi: Option<nat>, mc: string)
    requires i < |data|
    ensures Scan(data[..i + 1], ci, mi, mc) == ScanRow(Scan(data[..i], ci, mi, mc), data[i], ci, mi)
  {
    assert data[..i + 1][..i] == data[..i];
  }

  /** The crops are the rows' `crop` cells, one per row, and mc is kept once
      it is non-empty; from an empty start it becomes the first non-empty
      `mc_crop` cell, or stays empty when every cell is empty. */
  lemma {:induction false} ScanSpec(data: seq<Row>, ci: Option<nat>, mi: Option<nat>, mc: string)
    requires Scan(data, ci, mi, mc).Ok?
    ensures var (crops, m) := Scan(data, ci, mi, mc).value;
      |crops| == |data|
      && (data != [] ==> ci.Some?)
      && (forall k :: 0 <= k < |data| ==> ci.value < |data[k]| && crops[k] == data[k][ci.value])
      && (mc != "" ==> m == mc)
      && (mc == "" && m == "" ==> forall k :: 0 <= k < |data| ==> mi.Some? && mi.value < |data[k]| && data[k][mi.value] == "")
      && (mc == "" && m != "" ==> exists k :: 0 <= k < |data| && mi.Some? && mi.value < |data[k]| && data[k][mi.value] == m
                                   && forall j :: 0 <= j < k ==> mi.value < |data[j]| && data[j][mi.value] == "")
  {
    if data != [] {
      var init := data[..|data| - 1];
      ScanSpec(init, ci, mi, mc);
      var (crops0, m0) := Scan(init, ci, mi, mc).value;
      var (crops, m) := Scan(data, ci, mi, mc).value;
      assert crops == crops0 + [data[|data| - 1][ci.value]];
      forall k | 0 <= k < |data| ensures ci.value < |data[k]| && crops[k] == data[k][ci.value] {
        if k < |init| {
          assert data[k] == init[k];
        }
      }
      if mc == "" && m0 != "" {
        var k :| 0 <= k < |init| && mi.Some? && mi.value < |init[k]| && init[k][mi.value] == m0
                 && forall j :: 0 <= j < k ==> mi.value < |init[j]| && init[j][mi.value] == "";
        assert data[k] == init[k];
        forall j | 0 <= j < k ensures mi.value < |data[j]| && data[j][mi.value] == "" {
          assert data[j] == init[j];
        }
      }
      if mc == "" && m0 == "" {
        forall k | 0 <= k < |init| ensures mi.value < |data[k]| && data[k][mi.value] == "" {
          assert data[k] == init[k];
        }
        if m != "" {
          var k := |data| - 1;
          assert data[k][mi.value] == m;
        }
      }
    }
  }

  /** The cells of column c, one per row. */
  function Column(data: seq<Row>, c: nat): (col: seq<string>)
    requires forall k :: 0 <= k < |data| ==> c < |data[k]|
    ensures |col| == |data|
    ensures forall k :: 0 <= k < |data| ==> col[k] == data[k][c]
  {
    seq(|data|, k requires 0 <= k < |data| => data[k][c])
  }

  /** A failed row ends the scan: the failure stays whatever rows follow. */
  lemma {:induction false} ScanRaiseExtends(data: seq<Row>, n: nat, ci: Option<nat>, mi: Option<nat>, mc: string)
    requires n <= |data| && Scan(data[..n], ci, mi, mc).Raise?
    ensures Scan(data, ci, mi, mc) == Scan(data[..n], ci, mi, mc)
  {
    if n < |data| {
      var init := data[..|data| - 1];
      assert init[..n] == data[..n];
      ScanRaiseExtends(init, n, ci, mi, mc);
    } else {
      assert data[..n] == data;
    }
  }

  /** One crop file: the header is row 0 (its column positions as the dict
      comprehension gives them); the result is the chosen crop, if any, and
      the `mc_crop` value after the file. */
  function FileTally(rows: seq<Row>, mc: string): Result<(Option<string>, string)> {
    if rows == [] then Ok((None, mc))
    else
      var s := Scan(rows[1..], LastIndex(rows[0], "crop"), LastIndex(rows[0], "mc_crop"), mc);
      if s.Raise? then Raise(s.exc) else Ok((Mode(s.value.0), s.value.1))
  }

  /** A file with no data rows chooses no crop and leaves mc alone; otherwise
      the choice is the mode of the data rows' crop cells. */
  lemma FileTallySpec(rows: seq<Row>, mc: string)
    requires FileTally(rows, mc).Ok?
    ensures |rows| <= 1 ==> FileTally(rows, mc) == Ok((None, mc))
    ensures |rows| > 1 ==>
      var ci := LastIndex(rows[0], "crop");
      ci.Some? && (forall k :: 1 <= k < |rows| ==> ci.value < |rows[k]|)
      && FileTally(rows, mc).value.0.Some?
      && FileTally(rows, mc).value.0 == Mode(Column(rows[1..], ci.value))
  {
    if |rows| == 1 {
      ModeSpec([]);
    }
    if |rows| > 1 {
      var data := rows[1..];
      var ci, mi := LastIndex(rows[0], "crop"), LastIndex(rows[0], "mc_crop");
      ScanSpec(data, ci, mi, mc);
      var crops := Scan(data, ci, mi, mc).value.0;
      forall k | 1 <= k < |rows| ensures ci.value < |rows[k]| {
        assert rows[k] == data[k - 1];
      }
      assert crops == Column(data, ci.value);
      ModeSpec(crops);
    }
  }

  /** One data row on the dictionary: its crop counted, and `mc` read from
      it while mc is still empty. */
  method CountRow(row: Row, ci: Option<nat>, mi: Option<nat>, keys: seq<string>, counts: map<string, nat>, cur: string,
                  ghost seen: seq<string>)
    returns (err: Option<Exception>, keys': seq<string>, counts': map<string, nat>, cur': string)
    requires keys == FirstSeen(seen) && counts == Counts(seen)
    ensures err.Some? ==> ScanRow(Ok((seen, cur)), row, ci, mi) == Raise(err.value)
    ensures err.None? ==> ci.Some? && ci.value < |row|
    ensures err.None? ==>
      ScanRow(Ok((seen, cur)), row, ci, mi) == Ok((seen + [row[ci.value]], cur'))
      && keys' == FirstSeen(seen + [row[ci.value]]) && counts' == Counts(seen + [row[ci.value]])
  {
    keys', counts', cur' := keys, counts, cur;
    if ci.None? {
      return Some(KeyError("crop")), keys', counts', cur';
    }
    if ci.value >= |row| {
      return Some(IndexError), keys', counts', cur';
    }
    var crop := row[ci.value];
    FirstSeenSnoc(seen, crop);
    CountsSnoc(seen, crop);
    if crop !in counts {
      keys' := keys + [crop];
      counts' := counts[crop := 1];
    } else {
      counts' := counts[crop := counts[crop] + 1];
    }
    if cur == "" {
      if mi.None? {
        return Some(KeyError("mc_crop")), keys', counts', cur';
      }
      if mi.value >= |row| {
        return Some(IndexError), keys', counts', cur';
      }
      cur' := row[mi.value];
    }
    err := None;
  }

  /** Reads one crop file: the header first, then every data row, counting
      its crop in an insertion-ordered dictionary. */
  method ReadCropFile(rows: seq<Row>, mc: string) returns (r: Result<(Option<string>, string)>)
    ensures r == FileTally(rows, mc)
  {
    if rows == [] {
      return Ok((None, mc));
    }
    var ci, mi := LastIndex(rows[0], "crop"), LastIndex(rows[0], "mc_crop");
    var data := rows[1..];
    var keys: seq<string> := [];
    var counts: map<string, nat> := map[];
    var cur := mc;
    ghost var seen: seq<string> := [];
    var i := 0;
    while i < |data|
      invariant 0 <= i <= |data|
      invariant Scan(data[..i], ci, mi, mc) == Ok((seen, cur))
      invariant keys == FirstSeen(seen) && counts == Counts(seen)
    {
      ScanPrefix(data, i, ci, mi, mc);
      var err;
      err, keys, counts, cur := CountRow(data[i], ci, mi, keys, counts, cur, seen);
      if err.Some? {
        ScanRaiseExtends(data, i + 1, ci, mi, mc);
        return Raise(err.value);
      }
      seen := seen + [data[i][ci.value]];
      i := i + 1;
    }
    assert data[..i] == data;
    FirstSeenSpec(seen);
    var b := BestIndex(keys, counts);
    var popular := if b.None? then None else Some(keys[b.value]);
    r := Ok((popular, cur));
  }

  // -----------------------------------------------------------------------
  // Crop file names

  /** `name[:-4]`. */
  function Stem(name: string): string {
    if |name| >= 4 then name[..|name| - 4] else []
  }

  /** `name[:-4].split('_')`: for a cropdetect output, `crop`, the limit and the skip. */
  function NameParts(name: string): seq<string> {
    Split(Stem(name), '_')
  }

  /** The name cropdetect writes for a setting reads back as that setting. */
  lemma OutputNameParts(limit: nat, skip: nat)
    ensures NameParts(CropDetect.OutputName(limit, skip)) == ["crop", NatToString(limit), NatToString(skip)]
  {
    var l, s := NatToString(limit), NatToString(skip);
    var parts := ["crop", l, s];
    var stem := "crop_" + l + "_" + s;
    StemCsv(CropDetect.OutputName(limit, skip), stem);
    JoinThree("crop", l, s, '_', stem);
    NatStringAvoids(limit, '_');
    NatStringAvoids(skip, '_');
    SplitJoin(parts, '_');
  }

  lemma StemCsv(name: string, stem: string)
    requires name == stem + ".csv"
    ensures Stem(name) == stem
  {
    assert name[..|name| - 4] == stem;
  }

  lemma JoinThree(a: string, b: string, c: string, sep: char, j: string)
    requires j == a + [sep] + b + [sep] + c
    ensures Join([a, b, c], sep) == j
  {
    var parts := [a, b, c];
    assert parts[1..] == [b, c] && [b, c][1..] == [c];
    assert Join([b, c], sep) == b + [sep] + c;
    assert Join(parts, sep) == a + [sep] + (b + [sep] + c);
  }
}
