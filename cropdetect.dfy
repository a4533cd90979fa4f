/** crop/cropdetect.py: for each Blu-ray result of a media-server search,
    pick the largest `.m2ts` stream, run ffmpeg's `cropdetect` filter at five
    fixed minutes, turn every report line into a crop record, and write them
    to `crop_{limit}_{skip}.csv` beside the disc, once per (skip, limit)
    setting, unless a recent file is already there. */
module CropDetect {
  import opened Wrappers
  import opened Text
  import opened Library
  import opened Seqs

  // -----------------------------------------------------------------------
  // Timestamps: ffmpeg prints `t:` as decimal text

  /** The number units / 10^scale. */
  datatype Decimal = Decimal(units: int, scale: nat)

  ghost function Value(d: Decimal): real {
    d.units as real / Pow10(d.scale) as real
  }

  /** `float(s)` for plain decimal text: surrounding white space, an optional
      sign, then a magnitude. */
  function ParseDecimal(s: string): Option<Decimal> {
    SignedDecimal(Strip(s))
  }

  /** An optional sign, then a magnitude. */
  function SignedDecimal(t: string): Option<Decimal> {
    var signed := t != [] && (t[0] == '-' || t[0] == '+');
    var m := ParseMagnitude(if signed then t[1..] else t);
    if m.None? then None else Some(Signed(signed && t[0] == '-', m.value))
  }

  function Signed(neg: bool, d: Decimal): Decimal {
    if neg then Decimal(0 - d.units, d.scale) else d
  }

  /** Digits with at most one '.', and at least one digit. */
  function ParseMagnitude(body: string): Option<Decimal> {
    var dot := Find(body, '.');
    var whole := if dot.Some? then body[..dot.value] else body;
    var frac := if dot.Some? then body[dot.value + 1..] else "";
    if !AllDigits(whole) || !AllDigits(frac) || |whole| + |frac| == 0 then None
    else Some(Digits(whole, frac))
  }

  /** The number written `whole.frac`. */
  function Digits(whole: string, frac: string): Decimal
    requires AllDigits(whole) && AllDigits(frac)
  {
    Decimal(Shift(DigitsValue(whole), |frac|) + DigitsValue(frac), |frac|)
  }

  lemma MagnitudeReadsBack(whole: string, frac: string)
    requires AllDigits(whole) && AllDigits(frac) && |whole| >= 1
    ensures ParseMagnitude(whole + "." + frac) == Some(Digits(whole, frac))
  {
    forall k | 0 <= k < |whole| ensures whole[k] != '.' {
      assert IsDigit(whole[k]);
    }
    var body := whole + "." + frac;
    FindAfter(whole, '.', frac);
    assert body[..|whole|] == whole;
    assert body[|whole| + 1..] == frac;
  }

  /** A leading '-' negates the magnitude after it. */
  lemma SignedMagnitude(neg: bool, body: string)
    requires |body| >= 1 && IsDigit(body[0]) && ParseMagnitude(body).Some?
    ensures SignedDecimal((if neg then "-" else "") + body) == Some(Signed(neg, ParseMagnitude(body).value))
  {
    var s := (if neg then "-" else "") + body;
    if neg {
      assert s[0] == '-' && s[1..] == body;
    } else {
      assert s == body && s[0] != '-' && s[0] != '+';
    }
  }

  /** Decimal text that starts with a digit or '-' and ends with a digit is
      read without trimming. */
  lemma SignedReadsBack(neg: bool, body: string)
    requires |body| >= 1 && IsDigit(body[0]) && IsDigit(body[|body| - 1]) && ParseMagnitude(body).Some?
    ensures ParseDecimal((if neg then "-" else "") + body) == Some(Signed(neg, ParseMagnitude(body).value))
  {
    var s := (if neg then "-" else "") + body;
    assert s[|s| - 1] == body[|body| - 1];
    NumberNotTrimmed(s);
    SignedMagnitude(neg, body);
  }

  /** d plus a whole number of seconds, at d's precision. */
  function AddSeconds(d: Decimal, secs: nat): Decimal {
    Decimal(d.units + Shift(secs, d.scale), d.scale)
  }

  lemma AddSecondsValue(d: Decimal, secs: nat)
    ensures Value(AddSeconds(d, secs)) == Value(d) + secs as real
  {
    ShiftIsProduct(secs, d.scale);
    var p := Pow10(d.scale) as real;
    assert (d.units + secs * Pow10(d.scale)) as real == d.units as real + secs as real * p;
    assert (d.units as real + secs as real * p) / p == d.units as real / p + secs as real;
  }

  function Abs(i: int): nat {
    if i < 0 then 0 - i else i
  }

  /** Drops trailing zero digits of the fraction; the value is unchanged. */
  function Normalise(d: Decimal): (n: Decimal)
    ensures n.scale <= d.scale
    ensures n.scale > 0 ==> n.units % 10 != 0
    decreases d.scale
  {
    if d.scale > 0 && d.units % 10 == 0 then Normalise(Decimal(d.units / 10, d.scale - 1)) else d
  }

  lemma {:induction false} NormaliseValue(d: Decimal)
    ensures Value(Normalise(d)) == Value(d)
    decreases d.scale
  {
    if d.scale > 0 && d.units % 10 == 0 {
      var shorter := Decimal(d.units / 10, d.scale - 1);
      assert Value(shorter) == Value(d) by {
        var q := Pow10(d.scale - 1) as real;
        assert d.units as real == 10.0 * (d.units / 10) as real;
        assert Pow10(d.scale) as real == 10.0 * q;
        assert d.units as real / (10.0 * q) == (d.units / 10) as real / q;
      }
      NormaliseValue(shorter);
    }
  }

  /** `s` left-padded with '0' to at least `width` characters. */
  function PadZeros(s: string, width: nat): string {
    if |s| >= width then s else seq(width - |s|, _ => '0') + s
  }

  /** `str(float)` of a timestamp: the shortest decimal text, with at least
      one digit after the point. */
  function FloatText(d: Decimal): string {
    var n := Normalise(d);
    var digits := PadZeros(NatToString(Abs(n.units)), n.scale + 1);
    var cut := |digits| - n.scale;
    (if n.units < 0 then "-" else "") + digits[..cut] + "."
    + (if n.scale == 0 then "0" else digits[cut..])
  }

  // -----------------------------------------------------------------------
  // One cropdetect report line

  datatype CropRecord = CropRecord(ts: Decimal, w: int, h: int, x: int, y: int, rect: string, ar: string)

  /** The `crop` text of a detected w:h:x:y: left x top x right x bottom. */
  function Rect(w: int, h: int, x: int, y: int): string {
    Join([IntToString(x), IntToString(y), IntToString(x + w), IntToString(y + h)], 'x')
  }

  /** Reads a `left x top x right x bottom` text back into its four numbers. */
  function ParseRect(s: string): Option<(int, int, int, int)> {
    var parts := Split(s, 'x');
    if |parts| != 4 then None
    else
      var l, t, r, b := ParseInt(parts[0]), ParseInt(parts[1]), ParseInt(parts[2]), ParseInt(parts[3]);
      if l.Some? && t.Some? && r.Some? && b.Some? then Some((l.value, t.value, r.value, b.value)) else None
  }

  /** The rectangle text names left x, top y, right x + w and bottom y + h. */
  lemma RectRoundTrip(w: int, h: int, x: int, y: int)
    ensures ParseRect(Rect(w, h, x, y)) == Some((x, y, x + w, y + h))
  {
    var parts := [IntToString(x), IntToString(y), IntToString(x + w), IntToString(y + h)];
    IntStringAvoids(x, 'x');
    IntStringAvoids(y, 'x');
    IntStringAvoids(x + w, 'x');
    IntStringAvoids(y + h, 'x');
    SplitJoin(parts, 'x');
    assert Split(Rect(w, h, x, y), 'x') == parts;
    IntRoundTrip(x);
    IntRoundTrip(y);
    IntRoundTrip(x + w);
    IntRoundTrip(y + h);
  }

  /** True when Python's w / h is negative (or -0.0). */
  predicate NegativeRatio(w: int, h: int) {
    (w < 0) != (h < 0)
  }

  /** w / h to the nearest hundredth, in hundredths, ties to even. */
  function Hundredths(w: int, h: int): nat
    requires h != 0
  {
    RoundHalfEven(Abs(w) * 100, Abs(h))
  }

  function TwoDigits(n: nat): string
    requires n < 100
  {
    [DigitChar(n / 10), DigitChar(n % 10)]
  }

  /** The `ar` text: `'0'` when h is 0, else `f'{w / h:.2f}'`. */
  function AspectText(w: int, h: int): string {
    if h == 0 then "0"
    else
      var q := Hundredths(w, h);
      (if NegativeRatio(w, h) then "-" else "") + (NatToString(q / 100) + "." + TwoDigits(q % 100))
  }

  lemma TwoDigitsValue(n: nat)
    requires n < 100
    ensures AllDigits(TwoDigits(n)) && DigitsValue(TwoDigits(n)) == n
  {
    var s := TwoDigits(n);
    assert s[..1] == [DigitChar(n / 10)];
    assert s[..1][..0] == [];
    assert DigitsValue(s[..1]) == n / 10;
  }

  lemma TwoPlaceDigits(q: nat)
    ensures AllDigits(NatToString(q / 100)) && AllDigits(TwoDigits(q % 100))
    ensures Digits(NatToString(q / 100), TwoDigits(q % 100)) == Decimal(q, 2)
  {
    var a, b := q / 100, q % 100;
    TwoDigitsValue(b);
    NatRoundTrip(a);
    assert Shift(a, 1) == a * 10;
    assert Shift(a, 2) == a * 100;
  }

  lemma TwoPlaceMagnitude(q: nat)
    ensures ParseMagnitude(NatToString(q / 100) + "." + TwoDigits(q % 100)) == Some(Decimal(q, 2))
  {
    TwoPlaceDigits(q);
    MagnitudeReadsBack(NatToString(q / 100), TwoDigits(q % 100));
  }

  /** A count of hundredths written with two fraction digits reads back exactly. */
  lemma TwoPlaceReadsBack(neg: bool, q: nat)
    ensures ParseDecimal((if neg then "-" else "") + (NatToString(q / 100) + "." + TwoDigits(q % 100)))
         == Some(Signed(neg, Decimal(q, 2)))
  {
    var body := NatToString(q / 100) + "." + TwoDigits(q % 100);
    TwoPlaceMagnitude(q);
    assert IsDigit(body[0]) && IsDigit(body[|body| - 1]);
    SignedReadsBack(neg, body);
  }

  /** The hundredths value is the nearest to w / h: off by at most half. */
  lemma HundredthsNearest(w: int, h: int)
    requires h != 0
    ensures var q := Hundredths(w, h);
      0 - Abs(h) <= 2 * (Abs(w) * 100 - q * Abs(h)) <= Abs(h)
  {
    RoundHalfEvenNearest(Abs(w) * 100, Abs(h));
  }

  /** The `ar` text is `'0'` exactly when h is 0; otherwise it reads back as
      the (signed) nearest hundredths value to w / h. */
  lemma AspectReadsBack(w: int, h: int)
    ensures (AspectText(w, h) == "0") <==> h == 0
    ensures h != 0 ==>
      var q := Hundredths(w, h);
      ParseDecimal(AspectText(w, h)) == Some(Signed(NegativeRatio(w, h), Decimal(q, 2)))
  {
    if h != 0 {
      TwoPlaceReadsBack(NegativeRatio(w, h), Hundredths(w, h));
      assert |AspectText(w, h)| >= 4;
    }
  }

  /** `s[n:]` for a Python string. */
  function Drop(s: string, n: nat): string {
    if n <= |s| then s[n..] else ""
  }

  /** `[int(f) for f in fields]`, which raises at the first malformed field. */
  function ParseInts(fields: seq<string>): (r: Option<seq<int>>)
    ensures r.Some? ==> |r.value| == |fields|
    ensures r.Some? ==> forall k :: 0 <= k < |fields| ==> ParseInt(fields[k]) == Some(r.value[k])
  {
    if fields == [] then Some([])
    else
      var v, vs := ParseInt(fields[0]), ParseInts(fields[1..]);
      if v.Some? && vs.Some? then Some([v.value] + vs.value) else None
  }

  /** The `t:` value of a report line: the third token from the end, without
      its first two characters. */
  function TimeToken(l: string): Result<Decimal> {
    var c := Split(l, ' ');
    if |c| < 3 then Raise(IndexError)
    else
      var t := ParseDecimal(Drop(c[|c| - 3], 2));
      if t.None? then Raise(ValueError) else Ok(t.value)
  }

  function MakeRecord(ts: Decimal, w: int, h: int, x: int, y: int): CropRecord {
    CropRecord(ts, w, h, x, y, Rect(w, h, x, y), AspectText(w, h))
  }

  /** One report line sampled at `minute`: the time token, then the
      `crop=w:h:x:y` token (the last one, without its first five characters). */
  function ParseLine(l: string, minute: nat): Result<CropRecord> {
    var t := TimeToken(l);
    var c := Split(l, ' ');
    var v := ParseInts(Split(Drop(c[|c| - 1], 5), ':'));
    if t.Raise? then Raise(t.exc)
    else if v.None? then Raise(ValueError)
    else if |v.value| < 4 then Raise(IndexError)
    else Ok(MakeRecord(AddSeconds(t.value, 60 * minute), v.value[0], v.value[1], v.value[2], v.value[3]))
  }

  /** A record's ts is its line's `t:` value plus 60 seconds per sample
      minute, and its `crop` and `ar` texts describe its own w, h, x, y. */
  lemma ParseLineRecord(l: string, minute: nat)
    requires ParseLine(l, minute).Ok?
    ensures TimeToken(l).Ok?
    ensures Value(ParseLine(l, minute).value.ts) == Value(TimeToken(l).value) + (60 * minute) as real
    ensures var r := ParseLine(l, minute).value;
      r.rect == Rect(r.w, r.h, r.x, r.y) && r.ar == AspectText(r.w, r.h)
  {
    AddSecondsValue(TimeToken(l).value, 60 * minute);
  }

  // -----------------------------------------------------------------------
  // Sampling: crop()

  /** The minutes the video is sampled at, in order. */
  const SampleMinutes: seq<nat> := [5, 12, 22, 38, 42]

  /** The `-ss` argument for a sample minute: `00:MM:00`. */
  function SeekTime(minute: nat): string {
    "00:" + (if minute < 10 then "0" + NatToString(minute) else NatToString(minute)) + ":00"
  }

  /** Below 100 minutes the seek text is `00:MM:00` with MM two digits. */
  lemma SeekTimeShape(minute: nat)
    requires minute < 100
    ensures var s := SeekTime(minute);
      |s| == 8 && s[..3] == "00:" && s[5..] == ":00" && ParseNat(s[3..5]) == Some(minute)
  {
    var s := SeekTime(minute);
    NatRoundTrip(minute);
    if minute < 10 {
      assert s[3..5] == "0" + NatToString(minute);
      assert DigitsValue(s[3..5]) == minute by {
        assert s[3..5][..1] == "0";
      }
    } else {
      assert NatToString(minute) == NatToString(minute / 10) + [DigitChar(minute % 10)];
      assert s[3..5] == NatToString(minute);
    }
  }

  /** Every sampled minute yields a well-formed seek text. */
  lemma SampleSeekTimes()
    ensures forall k :: 0 <= k < |SampleMinutes| ==> |SeekTime(SampleMinutes[k])| == 8
  {
    forall k | 0 <= k < |SampleMinutes| ensures |SeekTime(SampleMinutes[k])| == 8 {
      SeekTimeShape(SampleMinutes[k]);
    }
  }

  /** `[l for l in lines if 'crop' in l]`. */
  function CropLines(lines: seq<string>): seq<string> {
    if lines == [] then []
    else
      var l := lines[|lines| - 1];
      CropLines(lines[..|lines| - 1]) + (if Contains(l, "crop") then [l] else [])
  }

  /** The records of one sample, in line order; the first line that does not
      parse raises. */
  function SampleRecords(lines: seq<string>, minute: nat): Result<seq<CropRecord>> {
    if lines == [] then Ok([])
    else match SampleRecords(lines[..|lines| - 1], minute)
      case Raise(e) => Raise(e)
      case Ok(recs) =>
        var l := lines[|lines| - 1];
        if !Contains(l, "crop") then Ok(recs)
        else match ParseLine(l, minute)
          case Raise(e) => Raise(e)
          case Ok(rec) => Ok(recs + [rec])
  }

  /** Every line holding 'crop' gives exactly one record, in line order. */
  lemma {:induction false} SampleRecordsAll(lines: seq<string>, minute: nat)
    requires SampleRecords(lines, minute).Ok?
    ensures var recs := SampleRecords(lines, minute).value;
      |recs| == |CropLines(lines)|
      && forall k :: 0 <= k < |recs| ==> ParseLine(CropLines(lines)[k], minute) == Ok(recs[k])
  {
    if lines != [] {
      var init, l := lines[..|lines| - 1], lines[|lines| - 1];
      SampleRecordsAll(init, minute);
      var before, recs := SampleRecords(init, minute).value, SampleRecords(lines, minute).value;
      var crops, crops0 := CropLines(lines), CropLines(init);
      if Contains(l, "crop") {
        assert recs == before + [ParseLine(l, minute).value];
        assert crops == crops0 + [l];
        forall k | 0 <= k < |recs| ensures ParseLine(crops[k], minute) == Ok(recs[k]) {
          if k < |before| {
            assert crops[k] == crops0[k] && recs[k] == before[k];
          }
        }
      } else {
        assert recs == before && crops == crops0;
      }
    }
  }

  lemma {:induction false} SampleRaiseExtends(lines: seq<string>, j: nat, minute: nat)
    requires j <= |lines| && SampleRecords(lines[..j], minute).Raise?
    ensures SampleRecords(lines, minute) == SampleRecords(lines[..j], minute)
    decreases |lines| - j
  {
    if j < |lines| {
      assert lines[..j + 1][..j] == lines[..j];
      SampleRaiseExtends(lines, j + 1, minute);
    } else {
      assert lines[..j] == lines;
    }
  }

  /** All samples' records of the file `stream`, in sample order; a failing
      ffmpeg run raises. */
  function Collect(minutes: seq<nat>, ffmpeg: (string, nat, nat, nat) -> Option<seq<string>>,
                   stream: string, skip: nat, limit: nat): Result<seq<CropRecord>>
  {
    if minutes == [] then Ok([])
    else match Collect(minutes[..|minutes| - 1], ffmpeg, stream, skip, limit)
      case Raise(e) => Raise(e)
      case Ok(recs) =>
        var m := minutes[|minutes| - 1];
        match ffmpeg(stream, skip, limit, m)
        case None => Raise(CalledProcessError)
        case Some(lines) =>
          match SampleRecords(lines, m)
          case Raise(e) => Raise(e)
          case Ok(more) => Ok(recs + more)
  }

  /** Later samples only append: the records of the first k samples are a
      prefix of all records. */
  lemma {:induction false} CollectPrefix(minutes: seq<nat>, k: nat,
                                         ffmpeg: (string, nat, nat, nat) -> Option<seq<string>>,
                                         stream: string, skip: nat, limit: nat)
    requires k <= |minutes| && Collect(minutes, ffmpeg, stream, skip, limit).Ok?
    ensures Collect(minutes[..k], ffmpeg, stream, skip, limit).Ok?
    ensures Collect(minutes[..k], ffmpeg, stream, skip, limit).value <= Collect(minutes, ffmpeg, stream, skip, limit).value
    decreases |minutes|
  {
    if k == |minutes| {
      assert minutes[..k] == minutes;
    } else {
      var init := minutes[..|minutes| - 1];
      assert minutes[..k] == init[..k];
      CollectPrefix(init, k, ffmpeg, stream, skip, limit);
    }
  }

  lemma {:induction false} CollectRaiseExtends(minutes: seq<nat>, j: nat,
                                               ffmpeg: (string, nat, nat, nat) -> Option<seq<string>>,
                                               stream: string, skip: nat, limit: nat)
    requires j <= |minutes| && Collect(minutes[..j], ffmpeg, stream, skip, limit).Raise?
    ensures Collect(minutes, ffmpeg, stream, skip, limit) == Collect(minutes[..j], ffmpeg, stream, skip, limit)
    decreases |minutes| - j
  {
    if j < |minutes| {
      assert minutes[..j + 1][..j] == minutes[..j];
      CollectRaiseExtends(minutes, j + 1, ffmpeg, stream, skip, limit);
    } else {
      assert minutes[..j] == minutes;
    }
  }

  /** crop(res, skip, limit): sample the stream file `stream` (the global
      `fn.path`) at each minute in order and parse every line that mentions
      'crop'. */
  method Crop(ffmpeg: (string, nat, nat, nat) -> Option<seq<string>>,
              stream: string, skip: nat, limit: nat)
    returns (r: Result<seq<CropRecord>>)
    ensures r == Collect(SampleMinutes, ffmpeg, stream, skip, limit)
  {
    var info: seq<CropRecord> := [];
    var k := 0;
    while k < |SampleMinutes|
      invariant 0 <= k <= |SampleMinutes|
      invariant Collect(SampleMinutes[..k], ffmpeg, stream, skip, limit) == Ok(info)
    {
      var minute := SampleMinutes[k];
      assert SampleMinutes[..k + 1][..k] == SampleMinutes[..k];
      var out := ffmpeg(stream, skip, limit, minute);
      if out.None? {
        CollectRaiseExtends(SampleMinutes, k + 1, ffmpeg, stream, skip, limit);
        return Raise(CalledProcessError);
      }
      var found := ParseSample(out.value, minute);
      if found.Raise? {
        CollectRaiseExtends(SampleMinutes, k + 1, ffmpeg, stream, skip, limit);
        return Raise(found.exc);
      }
      info := info + found.value;
      k := k + 1;
    }
    assert SampleMinutes[..k] == SampleMinutes;
    r := Ok(info);
  }

  /** The records of one sample's output lines. */
  method ParseSample(lines: seq<string>, minute: nat) returns (r: Result<seq<CropRecord>>)
    ensures r == SampleRecords(lines, minute)
  {
    var found: seq<CropRecord> := [];
    var j := 0;
    while j < |lines|
      invariant 0 <= j <= |lines|
      invariant SampleRecords(lines[..j], minute) == Ok(found)
    {
      var l := lines[j];
      assert lines[..j + 1][..j] == lines[..j];
      if Contains(l, "crop") {
        var rec := ParseLine(l, minute);
        if rec.Raise? {
          SampleRaiseExtends(lines, j + 1, minute);
          return Raise(rec.exc);
        }
        found := found + [rec.value];
      }
      j := j + 1;
    }
    assert lines[..j] == lines;
    r := Ok(found);
  }

  // -----------------------------------------------------------------------
  // find_largest

  datatype DirEntry = DirEntry(name: string, isFile: bool, size: nat)

  /** A stream file: a regular file whose name ends in `m2ts`. */
  predicate IsStream(e: DirEntry) {
    e.isFile && EndsWith(e.name, "m2ts")
  }

  /** The strictly largest stream size and the first entry that reached it;
      (0, None) when no stream file has a positive size. */
  function Largest(entries: seq<DirEntry>): (r: (nat, Option<nat>))
    ensures r.1.None? ==> r.0 == 0
    ensures r.1.Some? ==> r.1.value < |entries| && IsStream(entries[r.1.value])
                          && entries[r.1.value].size == r.0 && r.0 > 0
    ensures forall k :: 0 <= k < |entries| && IsStream(entries[k]) ==> entries[k].size <= r.0
    ensures r.1.Some? ==> forall k :: 0 <= k < r.1.value && IsStream(entries[k]) ==> entries[k].size < r.0
  {
    if entries == [] then (0, None)
    else
      var prev := Largest(entries[..|entries| - 1]);
      var e := entries[|entries| - 1];
      if IsStream(e) && e.size > prev.0 then (e.size, Some(|entries| - 1)) else prev
  }

  /** `fn.path` of an entry of the scan of `<path>/STREAM`. */
  function StreamPath(path: string, e: DirEntry): string {
    JoinPath(JoinPath(path, "STREAM"), e.name)
  }

  /** find_largest over a directory listing given in iteration order. */
  method FindLargest(entries: seq<DirEntry>) returns (sz: nat, fn: Option<nat>)
    ensures (sz, fn) == Largest(entries)
  {
    sz, fn := 0, None;
    var i := 0;
    while i < |entries|
      invariant 0 <= i <= |entries|
      invariant (sz, fn) == Largest(entries[..i])
    {
      assert entries[..i + 1][..i] == entries[..i];
      var f := entries[i];
      if IsStream(f) && f.size > sz {
        sz, fn := f.size, Some(i);
      }
      i := i + 1;
    }
    assert entries[..i] == entries;
  }

  // -----------------------------------------------------------------------
  // dump_output

  const DumpHeader: Row := ["key", "name", "imdbid", "ts", "w", "h", "x", "y", "crop", "ar", "mc_crop", "mc_ar", "match"]

  /** The result fields every row copies. */
  datatype RowSource = RowSource(key: string, name: string, imdb: string, videoCrop: string, aspect: string)

  /** The result fields as the first row reads them: `Video Crop` for the
      comparison, then `Key`, `Name` and `Aspect Ratio`; `IMDb ID` defaults to ''. */
  function RowSourceOf(res: Fields): Result<RowSource> {
    if "Video Crop" !in res then Raise(KeyError("Video Crop"))
    else if "Key" !in res then Raise(KeyError("Key"))
    else if "Name" !in res then Raise(KeyError("Name"))
    else if "Aspect Ratio" !in res then Raise(KeyError("Aspect Ratio"))
    else Ok(RowSource(res["Key"], res["Name"], Get(res, "IMDb ID", ""), res["Video Crop"], res["Aspect Ratio"]))
  }

  /** One CSV row under DumpHeader. */
  function RecordRow(c: CropRecord, src: RowSource): Row {
    [src.key, src.name, src.imdb, FloatText(c.ts), IntToString(c.w), IntToString(c.h),
     IntToString(c.x), IntToString(c.y), c.rect, c.ar, src.videoCrop, src.aspect,
     BoolText(c.rect == src.videoCrop)]
  }

  /** A row has 13 cells, and its `match` cell says whether the `crop` cell
      equals the `mc_crop` cell. */
  lemma RecordRowSpec(c: CropRecord, src: RowSource)
    ensures var row := RecordRow(c, src);
      |row| == |DumpHeader| && row[8] == c.rect && row[10] == src.videoCrop
      && ((row[12] == "True") <==> (row[8] == row[10]))
  {
  }

  /** The record rows, in record order. */
  function Rows(info: seq<CropRecord>, src: RowSource): (rows: seq<Row>)
    ensures |rows| == |info|
  {
    Map(c => RecordRow(c, src), info)
  }

  /** Every record's rectangle is the stored Video Crop. */
  predicate AllMatch(info: seq<CropRecord>, src: RowSource) {
    info == [] || (AllMatch(info[..|info| - 1], src) && info[|info| - 1].rect == src.videoCrop)
  }

  lemma AllMatchSnoc(info: seq<CropRecord>, k: nat, src: RowSource)
    requires k < |info|
    ensures AllMatch(info[..k + 1], src) == (AllMatch(info[..k], src) && info[k].rect == src.videoCrop)
  {
    assert info[..k + 1][..k] == info[..k];
  }

  /** What dump_output leaves in the file (it is opened, and the header
      written, before any field is read), and whether every record matched. */
  function Dump(info: seq<CropRecord>, res: Fields): (seq<Row>, Result<bool>) {
    if info == [] then
      ([DumpHeader], if "Name" in res then Ok(true) else Raise(KeyError("Name")))
    else
      var got := RowSourceOf(res);
      if got.Raise? then ([DumpHeader], Raise(got.exc))
      else ([DumpHeader] + Rows(info, got.value), Ok(AllMatch(info, got.value)))
  }

  /** Row k is the row of record k. */
  lemma RowsAt(info: seq<CropRecord>, src: RowSource)
    ensures forall k :: 0 <= k < |info| ==> Rows(info, src)[k] == RecordRow(info[k], src)
  {
    MapAll(c => RecordRow(c, src), info);
  }

  /** All records match exactly when each one does. */
  lemma {:induction false} AllMatchEach(info: seq<CropRecord>, src: RowSource)
    ensures AllMatch(info, src) <==> forall k :: 0 <= k < |info| ==> info[k].rect == src.videoCrop
  {
    if info != [] {
      var init := info[..|info| - 1];
      AllMatchEach(init, src);
      assert forall k :: 0 <= k < |init| ==> init[k] == info[k];
    }
  }

  /** Each record row has 13 cells, and its `match` cell is True exactly
      when the record's rectangle is the stored crop. */
  lemma RowsMatch(info: seq<CropRecord>, src: RowSource)
    ensures forall k :: 0 <= k < |info| ==>
      |Rows(info, src)[k]| == |DumpHeader| && (Rows(info, src)[k][12] == "True" <==> info[k].rect == src.videoCrop)
  {
    RowsAt(info, src);
    forall k | 0 <= k < |info|
      ensures |Rows(info, src)[k]| == |DumpHeader| && (Rows(info, src)[k][12] == "True" <==> info[k].rect == src.videoCrop)
    {
      RecordRowSpec(info[k], src);
    }
  }

  /** "matches!" is logged exactly when every written row's `match` cell is True. */
  lemma DumpVerdict(info: seq<CropRecord>, res: Fields)
    requires Dump(info, res).1.Ok?
    ensures var (rows, verdict) := Dump(info, res);
      |rows| == |info| + 1 && rows[0] == DumpHeader
      && (forall k :: 1 <= k < |rows| ==> |rows[k]| == |DumpHeader|)
      && (verdict.value <==> forall k :: 1 <= k < |rows| ==> rows[k][12] == "True")
  {
    if info != [] {
      var src := RowSourceOf(res).value;
      var body := Rows(info, src);
      var rows := [DumpHeader] + body;
      RowsMatch(info, src);
      AllMatchEach(info, src);
      assert forall k :: 1 <= k < |rows| ==> rows[k] == body[k - 1];
      if forall k :: 1 <= k < |rows| ==> rows[k][12] == "True" {
        forall k | 0 <= k < |info| ensures info[k].rect == src.videoCrop {
          assert rows[k + 1][12] == "True";
        }
      }
    }
  }

  /** dump_output: write the header, then one row per record, lowering the
      all-match flag at the first mismatch. */
  method DumpOutput(info: seq<CropRecord>, res: Fields) returns (written: seq<Row>, verdict: Result<bool>)
    ensures (written, verdict) == Dump(info, res)
  {
    written := [DumpHeader];
    if info == [] {
      verdict := if "Name" in res then Ok(true) else Raise(KeyError("Name"));
      return;
    }
    var got := RowSourceOf(res);
    if got.Raise? {
      verdict := Raise(got.exc);
      return;
    }
    var rows, allMatch := WriteRows(info, got.value);
    written := written + rows;
    verdict := Ok(allMatch);
  }

  /** The loop of dump_output over the records. */
  method WriteRows(info: seq<CropRecord>, src: RowSource) returns (rows: seq<Row>, allMatch: bool)
    ensures rows == Rows(info, src) && allMatch == AllMatch(info, src)
  {
    rows := [];
    allMatch := true;
    var k := 0;
    while k < |info|
      invariant 0 <= k <= |info|
      invariant rows == Rows(info[..k], src)
      invariant allMatch == AllMatch(info[..k], src)
    {
      var c := info[k];
      AllMatchSnoc(info, k, src);
      MapSnoc(c => RecordRow(c, src), info, k);
      if c.rect != src.videoCrop {
        allMatch := false;
      }
      rows := rows + [RecordRow(c, src)];
      k := k + 1;
    }
    assert info[..k] == info;
  }

  // -----------------------------------------------------------------------
  // The main loop, for one search result

  const Skips: seq<nat> := [24, 8]
  const Limits: seq<nat> := [18, 25]

  /** The output file name for one setting. */
  function OutputName(limit: nat, skip: nat): string {
    "crop_" + NatToString(limit) + "_" + NatToString(skip) + ".csv"
  }

  /** The settings in loop order: skip outer, limit inner. */
  const Settings: seq<(nat, nat)> := [(24, 18), (24, 25), (8, 18), (8, 25)]

  /** The settings are every skip with every limit, skip outermost. */
  lemma SettingsOrder()
    ensures |Settings| == |Skips| * |Limits|
    ensures forall k :: 0 <= k < |Settings| ==> Settings[k] == (Skips[k / 2], Limits[k % 2])
  {
  }

  datatype PairOutcome =
    | Skipped                // a file newer than the cut-off is already there
    | NotBluRay              // File Type is not bdmv: nothing is done
    | NoStreamFiles          // no stream file with a positive size
    | NoCropInfo             // no sample produced a crop line
    | Failed                 // an exception was logged; the next setting starts
    | Dumped(allMatch: bool) // records were written

  datatype PairReport = PairReport(skip: nat, limit: nat, file: string, outcome: PairOutcome)

  /** One setting's report and, when the file was (re)written, its content. */
  datatype Step = Step(report: PairReport, write: Option<seq<Row>>)

  /** The media server's tools and the file system, as a result sees them. */
  datatype Env = Env(
    mtimes: map<string, int>,                          // output files that exist, by path
    listing: string -> Option<seq<DirEntry>>,          // os.scandir of a directory
    ffmpeg: (string, nat, nat, nat) -> Option<seq<string>>) // cropdetect output per (file, skip, limit, minute)

  /** The guarded body of one setting (everything inside the `try`). Reading
      `res["Name"]` for a log line raises like any other failure. */
  function Attempt(res: Fields, path: string, skip: nat, limit: nat, env: Env): (PairOutcome, Option<seq<Row>>) {
    if "File Type" !in res then (Failed, None)
    else if res["File Type"] != "bdmv" then (NotBluRay, None)
    else match env.listing(JoinPath(path, "STREAM"))
      case None => (Failed, None)
      case Some(entries) =>
        var (sz, fn) := Largest(entries);
        if "Name" !in res then (Failed, None)
        else if fn.None? then (NoStreamFiles, None)
        else match Collect(SampleMinutes, env.ffmpeg, StreamPath(path, entries[fn.value]), skip, limit)
          case Raise(_) => (Failed, None)
          case Ok(info) =>
            if info == [] then (NoCropInfo, None)
            else
              var (rows, verdict) := Dump(info, res);
              (if verdict.Ok? then Dumped(verdict.value) else Failed, Some(rows))
  }

  /** Two tools that agree on one file's samples collect the same records
      from it. */
  lemma {:induction false} CollectAgrees(minutes: seq<nat>, ffmpeg: (string, nat, nat, nat) -> Option<seq<string>>,
                                         other: (string, nat, nat, nat) -> Option<seq<string>>,
                                         stream: string, skip: nat, limit: nat)
    requires forall m :: m in minutes ==> other(stream, skip, limit, m) == ffmpeg(stream, skip, limit, m)
    ensures Collect(minutes, other, stream, skip, limit) == Collect(minutes, ffmpeg, stream, skip, limit)
    decreases |minutes|
  {
    if minutes != [] {
      var init := minutes[..|minutes| - 1];
      assert forall m :: m in init ==> m in minutes;
      CollectAgrees(init, ffmpeg, other, stream, skip, limit);
      assert minutes[|minutes| - 1] in minutes;
    }
  }

  /** ffmpeg is run on the largest stream file only: replacing the tool's
      output for every other file leaves the setting's outcome and written
      rows unchanged. */
  lemma AttemptSamplesLargest(res: Fields, path: string, skip: nat, limit: nat, env: Env,
                              other: (string, nat, nat, nat) -> Option<seq<string>>)
    requires env.listing(JoinPath(path, "STREAM")).Some? && Largest(env.listing(JoinPath(path, "STREAM")).value).1.Some?
    requires var entries := env.listing(JoinPath(path, "STREAM")).value;
      var stream := StreamPath(path, entries[Largest(entries).1.value]);
      forall m :: other(stream, skip, limit, m) == env.ffmpeg(stream, skip, limit, m)
    ensures Attempt(res, path, skip, limit, env.(ffmpeg := other)) == Attempt(res, path, skip, limit, env)
  {
    var entries := env.listing(JoinPath(path, "STREAM")).value;
    CollectAgrees(SampleMinutes, env.ffmpeg, other, StreamPath(path, entries[Largest(entries).1.value]), skip, limit);
  }

  /** One setting: skip a recent file, else attempt it. The `except` handler
      itself reads `res["Name"]`, so without a Name a failure ends the script. */
  function PairStep(res: Fields, path: string, skip: nat, limit: nat, minMtime: int, env: Env): Result<Step> {
    var file := JoinPath(path, OutputName(limit, skip));
    if file in env.mtimes && env.mtimes[file] - minMtime > 0 then
      Ok(Step(PairReport(skip, limit, file, Skipped), None))
    else
      var (outcome, write) := Attempt(res, path, skip, limit, env);
      if outcome == Failed && "Name" !in res then Raise(KeyError("Name"))
      else Ok(Step(PairReport(skip, limit, file, outcome), write))
  }

  /** The loop body as a function of the setting (skip, limit). */
  function StepOf(res: Fields, path: string, minMtime: int, env: Env): ((nat, nat)) -> Result<Step> {
    (s: (nat, nat)) => PairStep(res, path, s.0, s.1, minMtime, env)
  }

  /** The settings tried in turn; a failure that escapes ends the script. */
  function Steps(res: Fields, path: string, settings: seq<(nat, nat)>, minMtime: int, env: Env): Result<seq<Step>> {
    Sequence(StepOf(res, path, minMtime, env), settings)
  }

  /** One result of the search, as the main loop handles it. */
  function Plan(res: Fields, libP: string, realP: string, minMtime: int, env: Env): Result<seq<Step>> {
    if "Aspect Ratio" !in res then Ok([])
    else match Field(res, "Filename (path)")
      case Raise(e) => Raise(e)
      case Ok(p) => Steps(res, TranslatePath(p, libP, realP), Settings, minMtime, env)
  }

  /** A step reports its own setting and the file that setting names; it
      is Skipped exactly when that file exists and is newer than the
      cut-off, and it carries rows only when they were dumped or the dump
      failed part way. */
  predicate Reports(s: Step, path: string, skip: nat, limit: nat, minMtime: int, env: Env) {
    var file := JoinPath(path, OutputName(limit, skip));
    s.report.skip == skip && s.report.limit == limit && s.report.file == file
    && (s.report.outcome == Skipped <==> file in env.mtimes && env.mtimes[file] > minMtime)
    && (s.write.Some? ==> s.report.outcome.Dumped? || s.report.outcome == Failed)
  }

  lemma PairStepReports(res: Fields, path: string, skip: nat, limit: nat, minMtime: int, env: Env)
    requires PairStep(res, path, skip, limit, minMtime, env).Ok?
    ensures Reports(PairStep(res, path, skip, limit, minMtime, env).value, path, skip, limit, minMtime, env)
  {
  }

  /** Steps report the settings in order, one each. */
  lemma StepsReport(res: Fields, path: string, settings: seq<(nat, nat)>, minMtime: int, env: Env)
    requires Steps(res, path, settings, minMtime, env).Ok?
    ensures var steps := Steps(res, path, settings, minMtime, env).value;
      |steps| == |settings|
      && forall k :: 0 <= k < |steps| ==> Reports(steps[k], path, settings[k].0, settings[k].1, minMtime, env)
  {
    SequenceOk(StepOf(res, path, minMtime, env), settings);
    var steps := Steps(res, path, settings, minMtime, env).value;
    forall k | 0 <= k < |steps|
      ensures Reports(steps[k], path, settings[k].0, settings[k].1, minMtime, env)
    {
      PairStepReports(res, path, settings[k].0, settings[k].1, minMtime, env);
    }
  }

  /** A result without an Aspect Ratio is ignored; any other result yields
      the four files crop_18_24, crop_25_24, crop_18_8 and crop_25_8 in that
      order, each skipped exactly when it exists and is newer than the cut-off. */
  lemma PlanReport(res: Fields, libP: string, realP: string, minMtime: int, env: Env)
    requires Plan(res, libP, realP, minMtime, env).Ok?
    ensures "Aspect Ratio" !in res ==> Plan(res, libP, realP, minMtime, env).value == []
    ensures "Aspect Ratio" in res ==>
      var steps := Plan(res, libP, realP, minMtime, env).value;
      var path := TranslatePath(res["Filename (path)"], libP, realP);
      |steps| == 4
      && forall k :: 0 <= k < 4 ==>
        var file := JoinPath(path, OutputName(Limits[k % 2], Skips[k / 2]));
        steps[k].report.skip == Skips[k / 2] && steps[k].report.limit == Limits[k % 2]
        && steps[k].report.file == file
        && (steps[k].report.outcome == Skipped <==> file in env.mtimes && env.mtimes[file] > minMtime)
  {
    if "Aspect Ratio" in res {
      var path := TranslatePath(res["Filename (path)"], libP, realP);
      StepsReport(res, path, Settings, minMtime, env);
      SettingsOrder();
      var steps := Plan(res, libP, realP, minMtime, env).value;
      forall k | 0 <= k < 4
        ensures Reports(steps[k], path, Skips[k / 2], Limits[k % 2], minMtime, env)
      {
        assert Settings[k] == (Skips[k / 2], Limits[k % 2]);
      }
    }
  }

  /** The modification times after the steps of one result: every file
      that was opened for writing now has the time `now`. */
  function Written(steps: seq<Step>, now: int, mtimes: map<string, int>): map<string, int> {
    if steps == [] then mtimes
    else
      var before := Written(steps[..|steps| - 1], now, mtimes);
      var s := steps[|steps| - 1];
      if s.write.Some? then before[s.report.file := now] else before
  }

  /** Some step opened file f for writing. */
  predicate Writes(steps: seq<Step>, f: string) {
    exists q :: 0 <= q < |steps| && steps[q].write.Some? && steps[q].report.file == f
  }

  /** A file a step wrote has the time `now`; every other file keeps its
      time, or stays absent. */
  lemma {:induction false} WrittenAt(steps: seq<Step>, now: int, mtimes: map<string, int>, f: string)
    ensures Writes(steps, f) ==> f in Written(steps, now, mtimes) && Written(steps, now, mtimes)[f] == now
    ensures !Writes(steps, f) ==> (f in Written(steps, now, mtimes) <==> f in mtimes)
                                  && (f in mtimes ==> Written(steps, now, mtimes)[f] == mtimes[f])
  {
    if steps != [] {
      var init := steps[..|steps| - 1];
      var s := steps[|steps| - 1];
      WrittenAt(init, now, mtimes, f);
      if Writes(steps, f) && !(s.write.Some? && s.report.file == f) {
        var q :| 0 <= q < |steps| && steps[q].write.Some? && steps[q].report.file == f;
        assert q < |init| && init[q] == steps[q];
      }
      if Writes(init, f) {
        var q :| 0 <= q < |init| && init[q].write.Some? && init[q].report.file == f;
        assert steps[q] == init[q];
      }
    }
  }

  /** The results handled so far and the file system the next one sees. */
  datatype Progress = Progress(plans: seq<seq<Step>>, env: Env)

  /** The file system after one result's steps, at clock time `now`. */
  function After(steps: seq<Step>, now: int, env: Env): Env {
    env.(mtimes := Written(steps, now, env.mtimes))
  }

  /** `for res in results`: each search result in turn, seeing the files the
      results before it wrote; an exception that escapes a result ends the
      script. The files are written at time `now`. */
  function Script(results: seq<Fields>, libP: string, realP: string, minMtime: int, now: int, env: Env): (r: Result<Progress>)
    ensures r.Ok? ==> |r.value.plans| == |results|
  {
    if results == [] then Ok(Progress([], env))
    else
      var done := Script(results[..|results| - 1], libP, realP, minMtime, now, env);
      if done.Raise? then done
      else
        var plan := Plan(results[|results| - 1], libP, realP, minMtime, done.value.env);
        if plan.Raise? then Raise(plan.exc)
        else Ok(Progress(done.value.plans + [plan.value], After(plan.value, now, done.value.env)))
  }

  /** Result k was handled, as Plan says, in the file system that the first
      k results left, and the plan it made is `plan`. */
  ghost predicate Handled(results: seq<Fields>, k: nat, libP: string, realP: string, minMtime: int, now: int, env: Env, plan: seq<Step>)
    requires k < |results|
  {
    var before := Script(results[..k], libP, realP, minMtime, now, env);
    var after := Script(results[..k + 1], libP, realP, minMtime, now, env);
    before.Ok? && Plan(results[k], libP, realP, minMtime, before.value.env) == Ok(plan)
    && after.Ok? && after.value.env == After(plan, now, before.value.env)
  }

  /** A script that ends normally handled result k as Plan says, in the file
      system the results before it left. */
  lemma {:induction false} ScriptPrefix(results: seq<Fields>, k: nat, libP: string, realP: string, minMtime: int, now: int, env: Env)
    requires Script(results, libP, realP, minMtime, now, env).Ok? && k < |results|
    ensures Handled(results, k, libP, realP, minMtime, now, env, Script(results, libP, realP, minMtime, now, env).value.plans[k])
    decreases |results|
  {
    var init := results[..|results| - 1];
    assert results[..|init|] == init;
    assert results[..|results|] == results;
    if k < |init| {
      ScriptPrefix(init, k, libP, realP, minMtime, now, env);
      assert results[..k] == init[..k] && results[..k + 1] == init[..k + 1] && results[k] == init[k];
    }
  }

  lemma {:induction false} ScriptRaiseExtends(results: seq<Fields>, j: nat, libP: string, realP: string, minMtime: int, now: int, env: Env)
    requires j <= |results| && Script(results[..j], libP, realP, minMtime, now, env).Raise?
    ensures Script(results, libP, realP, minMtime, now, env) == Script(results[..j], libP, realP, minMtime, now, env)
    decreases |results| - j
  {
    if j < |results| {
      assert results[..j + 1][..j] == results[..j];
      ScriptRaiseExtends(results, j + 1, libP, realP, minMtime, now, env);
    } else {
      assert results[..j] == results;
    }
  }

  /** A script that ends normally handled every result, in order, each as
      Plan says in the file system the results before it left; one that
      raises stopped at the first result that raised. */
  lemma ScriptSpec(results: seq<Fields>, libP: string, realP: string, minMtime: int, now: int, env: Env, n: nat, p: Progress)
    ensures var r := Script(results, libP, realP, minMtime, now, env);
      r.Ok? ==> |r.value.plans| == |results|
                && forall k :: 0 <= k < |results| ==> Handled(results, k, libP, realP, minMtime, now, env, r.value.plans[k])
    ensures n < |results| && Script(results[..n], libP, realP, minMtime, now, env) == Ok(p)
            && Plan(results[n], libP, realP, minMtime, p.env).Raise?
            ==> Script(results, libP, realP, minMtime, now, env) == Raise(Plan(results[n], libP, realP, minMtime, p.env).exc)
  {
    var r := Script(results, libP, realP, minMtime, now, env);
    if r.Ok? {
      forall k | 0 <= k < |results|
        ensures Handled(results, k, libP, realP, minMtime, now, env, r.value.plans[k])
      {
        ScriptPrefix(results, k, libP, realP, minMtime, now, env);
      }
    }
    if n < |results| && Script(results[..n], libP, realP, minMtime, now, env) == Ok(p) && Plan(results[n], libP, realP, minMtime, p.env).Raise? {
      assert results[..n + 1][..n] == results[..n];
      ScriptRaiseExtends(results, n + 1, libP, realP, minMtime, now, env);
    }
  }

  /** A file that has the time `now` keeps it for every later result, since
      a result only ever writes at time `now`. */
  lemma {:induction false} ScriptKeepsWritten(results: seq<Fields>, libP: string, realP: string, minMtime: int, now: int, env: Env,
                                              m: nat, j: nat, f: string)
    requires Script(results, libP, realP, minMtime, now, env).Ok? && m <= j < |results|
    requires var e := Script(results[..m], libP, realP, minMtime, now, env);
      e.Ok? && f in e.value.env.mtimes && e.value.env.mtimes[f] == now
    ensures var e := Script(results[..j], libP, realP, minMtime, now, env);
      e.Ok? && f in e.value.env.mtimes && e.value.env.mtimes[f] == now
    decreases j - m
  {
    if m < j {
      ScriptPrefix(results, m, libP, realP, minMtime, now, env);
      var p := Script(results, libP, realP, minMtime, now, env).value;
      WrittenAt(p.plans[m], now, Script(results[..m], libP, realP, minMtime, now, env).value.env.mtimes, f);
      ScriptKeepsWritten(results, libP, realP, minMtime, now, env, m + 1, j, f);
    }
  }

  /** A result whose crop file an earlier result with the same translated
      path wrote, after the cut-off, skips that setting. */
  lemma ScriptSkipsRewritten(results: seq<Fields>, libP: string, realP: string, minMtime: int, now: int, env: Env,
                             i: nat, j: nat, k: nat)
    requires Script(results, libP, realP, minMtime, now, env).Ok? && i < j < |results|
    requires k < |Script(results, libP, realP, minMtime, now, env).value.plans[i]|
             && Script(results, libP, realP, minMtime, now, env).value.plans[i][k].write.Some?
    requires now > minMtime
    requires "Aspect Ratio" in results[j] && "Filename (path)" in results[i] && "Filename (path)" in results[j]
             && TranslatePath(results[i]["Filename (path)"], libP, realP) == TranslatePath(results[j]["Filename (path)"], libP, realP)
    ensures var p := Script(results, libP, realP, minMtime, now, env).value;
      k < |p.plans[j]| && p.plans[j][k].report.outcome == Skipped && p.plans[j][k].report.file == p.plans[i][k].report.file
  {
    ScriptPrefix(results, i, libP, realP, minMtime, now, env);
    ScriptPrefix(results, j, libP, realP, minMtime, now, env);
    var p := Script(results, libP, realP, minMtime, now, env).value;
    var ei := Script(results[..i], libP, realP, minMtime, now, env).value.env;
    PlanReport(results[i], libP, realP, minMtime, ei);
    var f := p.plans[i][k].report.file;
    assert Writes(p.plans[i], f);
    WrittenAt(p.plans[i], now, ei.mtimes, f);
    ScriptKeepsWritten(results, libP, realP, minMtime, now, env, i + 1, j, f);
    PlanReport(results[j], libP, realP, minMtime, Script(results[..j], libP, realP, minMtime, now, env).value.env);
  }

  /** The script's handling of one search result. */
  method ProcessResult(res: Fields, libP: string, realP: string, minMtime: int, env: Env)
    returns (r: Result<seq<Step>>)
    ensures r == Plan(res, libP, realP, minMtime, env)
  {
    if "Aspect Ratio" !in res {
      return Ok([]);
    }
    if "Filename (path)" !in res {
      return Raise(KeyError("Filename (path)"));
    }
    var path := TranslatePath(res["Filename (path)"], libP, realP);
    var steps: seq<Step> := [];
    var i := 0;
    while i < |Skips|
      invariant 0 <= i <= |Skips|
      invariant Steps(res, path, Settings[..2 * i], minMtime, env) == Ok(steps)
    {
      var more := RunLimits(res, path, i, minMtime, env, steps);
      if more.Raise? {
        SequenceRaiseExtends(StepOf(res, path, minMtime, env), Settings, 2 * i + 2);
        return more;
      }
      steps := more.value;
      i := i + 1;
    }
    assert Settings[..2 * i] == Settings;
    r := Ok(steps);
  }

  lemma SettingAt(i: nat, j: nat)
    requires i < 2 && j < 2
    ensures Settings[2 * i + j] == (Skips[i], Limits[j])
  {
  }

  /** The inner loop: every limit for the i-th skip, after the steps so far. */
  method RunLimits(res: Fields, path: string, i: nat, minMtime: int, env: Env, steps: seq<Step>)
    returns (r: Result<seq<Step>>)
    requires i < |Skips| && Steps(res, path, Settings[..2 * i], minMtime, env) == Ok(steps)
    ensures r == Steps(res, path, Settings[..2 * i + 2], minMtime, env)
  {
    var acc := steps;
    var j := 0;
    while j < |Limits|
      invariant 0 <= j <= |Limits| && 2 * i + j <= |Settings|
      invariant Steps(res, path, Settings[..2 * i + j], minMtime, env) == Ok(acc)
    {
      var more := RunPair(res, path, i, j, minMtime, env, acc);
      if more.Raise? {
        return more;
      }
      acc := more.value;
      j := j + 1;
    }
    r := Ok(acc);
  }

  /** The body of the inner loop for the j-th limit of the i-th skip: the
      steps so far grow by one, or the exception ends this skip's steps. */
  method RunPair(res: Fields, path: string, i: nat, j: nat, minMtime: int, env: Env, acc: seq<Step>)
    returns (r: Result<seq<Step>>)
    requires i < |Skips| && j < |Limits| && Steps(res, path, Settings[..2 * i + j], minMtime, env) == Ok(acc)
    ensures r.Ok? ==> r == Steps(res, path, Settings[..2 * i + j + 1], minMtime, env)
    ensures r.Raise? ==> r == Steps(res, path, Settings[..2 * i + 2], minMtime, env)
  {
    var n := 2 * i + j;
    var f := StepOf(res, path, minMtime, env);
    SettingAt(i, j);
    var step := RunSetting(res, path, Skips[i], Limits[j], minMtime, env);
    assert step == f(Settings[n]);
    if step.Raise? {
      SequenceStop(f, Settings, n, 2 * i + 2, acc, step.exc);
      return Raise(step.exc);
    }
    SequenceSnoc(f, Settings, n, acc, step.value);
    r := Ok(acc + [step.value]);
  }

  /** One pass of the inner loop: the freshness test, then the guarded body. */
  method RunSetting(res: Fields, path: string, skip: nat, limit: nat, minMtime: int, env: Env)
    returns (r: Result<Step>)
    ensures r == PairStep(res, path, skip, limit, minMtime, env)
  {
    var file := JoinPath(path, OutputName(limit, skip));
    if file in env.mtimes && env.mtimes[file] - minMtime > 0 {
      return Ok(Step(PairReport(skip, limit, file, Skipped), None));
    }
    var outcome, write := AttemptSetting(res, path, skip, limit, env);
    if outcome == Failed && "Name" !in res {
      return Raise(KeyError("Name"));
    }
    r := Ok(Step(PairReport(skip, limit, file, outcome), write));
  }

  /** The `try` body of one setting, calling the script's own routines. */
  method AttemptSetting(res: Fields, path: string, skip: nat, limit: nat, env: Env)
    returns (outcome: PairOutcome, write: Option<seq<Row>>)
    ensures (outcome, write) == Attempt(res, path, skip, limit, env)
  {
    write := None;
    if "File Type" !in res {
      return Failed, None;
    }
    if res["File Type"] != "bdmv" {
      return NotBluRay, None;
    }
    var listing := env.listing(JoinPath(path, "STREAM"));
    if listing.None? {
      return Failed, None;
    }
    var sz, fn := FindLargest(listing.value);
    if "Name" !in res {
      return Failed, None;
    }
    if fn.None? {
      return NoStreamFiles, None;
    }
    var info := Crop(env.ffmpeg, StreamPath(path, listing.value[fn.value]), skip, limit);
    if info.Raise? {
      return Failed, None;
    }
    if info.value == [] {
      return NoCropInfo, None;
    }
    var rows, verdict := DumpOutput(info.value, res);
    outcome := if verdict.Ok? then Dumped(verdict.value) else Failed;
    write := Some(rows);
  }
}
