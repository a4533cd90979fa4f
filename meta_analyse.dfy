/** meta_analyse.py: a pass over `crop_analysis.csv` (the flat one, rows
    name, limit, skip, crop, ...) that groups consecutive rows of one title
    and reports a title whose crop depends on the skip (`SKIP`, some limit saw
    several crops) or on the limit (`LIMIT`, some skip saw several crops),
    and finally whether the last title saw several crops at all (`SENSITIVE`). */
module MetaAnalyse {
  import opened Wrappers
  import opened Library
  import opened Text
  import opened Seqs

  /** A defaultdict(set) from a column value to the crops seen with it. */
  type Groups = map<string, set<string>>

  /** `groups[k].add(x)`. */
  function Add(m: Groups, k: string, x: string): (r: Groups)
    ensures r.Keys == m.Keys + {k}
    ensures r[k] == (if k in m then m[k] else {}) + {x}
    ensures forall j :: j in m && j != k ==> r[j] == m[j]
  {
    m[k := (if k in m then m[k] else {}) + {x}]
  }

  /** Some key saw more than one crop. */
  predicate Spread(m: Groups) {
    exists k :: k in m && |m[k]| > 1
  }

  /** The loop variables: the current title (None before the first row), its
      crops overall, by limit and by skip, what was printed, and the
      exception that stopped the loop, if any. */
  datatype Meta = Meta(name: Option<string>, crops: set<string>, byLimit: Groups, bySkip: Groups,
                       log: seq<string>, failure: Option<Exception>)

  const Start := Meta(None, {}, map[], map[], [], None)

  /** What closing a group prints: SKIP, then LIMIT. */
  function Checks(name: string, byLimit: Groups, bySkip: Groups): seq<string> {
    (if Spread(byLimit) then ["SKIP " + name] else []) + (if Spread(bySkip) then ["LIMIT " + name] else [])
  }

  /** A row titled n arrives: a new name closes the current group, checks
      it and resets the accumulators, unless the current name is None or
      empty (both falsy), in which case the rows are pooled. */
  function Enter(st: Meta, n: string): Meta {
    if st.name == Some(n) then st
    else if st.name.Some? && st.name.value != "" then
      Meta(Some(n), {}, map[], map[], st.log + Checks(st.name.value, st.byLimit, st.bySkip), None)
    else st.(name := Some(n))
  }

  /** One data row; a row too short for `r[0]` or `r[3]` raises IndexError. */
  function RowStep(st: Meta, r: Row): Meta {
    if st.failure.Some? then st
    else if |r| == 0 then st.(failure := Some(IndexError))
    else
      var cur := Enter(st, r[0]);
      if |r| < 4 then cur.(failure := Some(IndexError))
      else cur.(byLimit := Add(cur.byLimit, r[1], r[3]), bySkip := Add(cur.bySkip, r[2], r[3]),
                   crops := cur.crops + {r[3]})
  }

  /** The loop over the data rows. */
  function Scan(rows: seq<Row>): Meta {
    if rows == [] then Start else RowStep(Scan(rows[..|rows| - 1]), rows[|rows| - 1])
  }

  /** What the script prints, and the exception it stops with: the header
      row is skipped, and after the loop only the last group is checked, for
      SENSITIVE. */
  function Analyse(rows: seq<Row>): (seq<string>, Option<Exception>) {
    var st := Scan(if rows == [] then [] else rows[1..]);
    if st.failure.Some? then (st.log, st.failure)
    else if |st.crops| > 1 && st.name.Some? then (st.log + ["SENSITIVE " + st.name.value], None)
    else (st.log, None)
  }

  // -----------------------------------------------------------------------
  // A reference definition: maximal runs of one title

  /** A data row with every cell the pass reads. */
  datatype Entry = Entry(name: string, limit: string, skip: string, crop: string)

  /** The two groupings: crops by limit, and crops by skip. */
  datatype Column = ByLimit | BySkip

  function Key(e: Entry, c: Column): string {
    if c == ByLimit then e.limit else e.skip
  }

  /** Data rows with every cell read and a non-empty title. */
  predicate Valid(rows: seq<Row>) {
    forall k :: 0 <= k < |rows| ==> |rows[k]| >= 4 && rows[k][0] != ""
  }

  function Entries(rows: seq<Row>): (es: seq<Entry>)
    requires Valid(rows)
    ensures |es| == |rows|
    ensures forall k :: 0 <= k < |rows| ==>
      es[k] == Entry(rows[k][0], rows[k][1], rows[k][2], rows[k][3])
  {
    seq(|rows|, k requires 0 <= k < |rows| => Entry(rows[k][0], rows[k][1], rows[k][2], rows[k][3]))
  }

  /** The entries cut into maximal runs of consecutive entries with the same title. */
  function Runs(es: seq<Entry>): (rs: seq<seq<Entry>>)
    ensures (rs == []) == (es == [])
    ensures forall k :: 0 <= k < |rs| ==> rs[k] != []
  {
    if es == [] then []
    else
      var rs := Runs(es[..|es| - 1]);
      var e := es[|es| - 1];
      if rs != [] && rs[|rs| - 1][0].name == e.name then rs[..|rs| - 1] + [rs[|rs| - 1] + [e]]
      else rs + [[e]]
  }

  function Flatten(rs: seq<seq<Entry>>): seq<Entry> {
    if rs == [] then [] else Flatten(rs[..|rs| - 1]) + rs[|rs| - 1]
  }

  lemma FlattenSnoc(rs: seq<seq<Entry>>, g: seq<Entry>)
    ensures Flatten(rs + [g]) == Flatten(rs) + g
  {
    assert (rs + [g])[..|rs|] == rs;
  }

  lemma RunsSnoc(es: seq<Entry>, e: Entry)
    ensures var rs := Runs(es);
      Runs(es + [e]) == if rs != [] && rs[|rs| - 1][0].name == e.name then rs[..|rs| - 1] + [rs[|rs| - 1] + [e]] else rs + [[e]]
  {
    assert (es + [e])[..|es|] == es;
  }

  /** The runs put together give the entries back. */
  lemma {:induction false} RunsFlatten(es: seq<Entry>)
    ensures Flatten(Runs(es)) == es
  {
    if es != [] {
      var init, e := es[..|es| - 1], es[|es| - 1];
      assert es == init + [e];
      RunsFlatten(init);
      RunsSnoc(init, e);
      var rs: seq<seq<Entry>> := Runs(init);
      if rs != [] && rs[|rs| - 1][0].name == e.name {
        var front, g := rs[..|rs| - 1], rs[|rs| - 1];
        assert rs == front + [g];
        FlattenSnoc(front, g);
        FlattenSnoc(front, g + [e]);
      } else {
        FlattenSnoc(rs, [e]);
      }
    }
  }

  /** Run by run: the last entry either extends the last run of the others
      or opens a new one, and the runs before stay as they were. */
  lemma RunsLast(es: seq<Entry>)
    requires es != []
    ensures var rs, now, e := Runs(es[..|es| - 1]), Runs(es), es[|es| - 1];
      if rs != [] && rs[|rs| - 1][0].name == e.name then
        |now| == |rs| && now[|rs| - 1] == rs[|rs| - 1] + [e]
        && forall k :: 0 <= k < |rs| - 1 ==> now[k] == rs[k]
      else
        |now| == |rs| + 1 && now[|rs|] == [e]
        && forall k :: 0 <= k < |rs| ==> now[k] == rs[k]
  {
  }

  /** Every entry of a run has the run's title. */
  lemma {:induction false} RunsTitled(es: seq<Entry>)
    ensures forall k, i :: 0 <= k < |Runs(es)| && 0 <= i < |Runs(es)[k]| ==> Runs(es)[k][i].name == Runs(es)[k][0].name
  {
    if es != [] {
      var init, e := es[..|es| - 1], es[|es| - 1];
      RunsTitled(init);
      RunsLast(es);
      var rs: seq<seq<Entry>> := Runs(init);
      var now: seq<seq<Entry>> := Runs(es);
      forall k, i | 0 <= k < |now| && 0 <= i < |now[k]| ensures now[k][i].name == now[k][0].name {
        if k < |rs| && now[k] != rs[k] && i < |rs[k]| {
          assert now[k][i] == rs[k][i] && now[k][0] == rs[k][0];
        }
      }
    }
  }

  /** Neighbouring runs have different titles: the runs are maximal. */
  lemma {:induction false} RunsMaximal(es: seq<Entry>)
    ensures forall k :: 0 < k < |Runs(es)| ==> Runs(es)[k][0].name != Runs(es)[k - 1][0].name
  {
    if es != [] {
      var init, e := es[..|es| - 1], es[|es| - 1];
      RunsMaximal(init);
      RunsLast(es);
      var rs: seq<seq<Entry>> := Runs(init);
      var now: seq<seq<Entry>> := Runs(es);
      forall k | 0 <= k < |rs| ensures now[k][0] == rs[k][0] {
        if now[k] != rs[k] {
          assert now[k] == rs[k] + [e];
        }
      }
    }
  }

  /** Some value of the column saw two different crops within the run. */
  predicate Varies(g: seq<Entry>, c: Column) {
    exists i, j :: 0 <= i < |g| && 0 <= j < |g| && Key(g[i], c) == Key(g[j], c) && g[i].crop != g[j].crop
  }

  /** What checking one run prints. */
  function RunReport(g: seq<Entry>): seq<string>
    requires g != []
  {
    (if Varies(g, ByLimit) then ["SKIP " + g[0].name] else []) + (if Varies(g, BySkip) then ["LIMIT " + g[0].name] else [])
  }

  function Reports(rs: seq<seq<Entry>>): seq<string>
    requires forall k :: 0 <= k < |rs| ==> rs[k] != []
  {
    if rs == [] then [] else Reports(rs[..|rs| - 1]) + RunReport(rs[|rs| - 1])
  }

  lemma ReportsSnoc(rs: seq<seq<Entry>>, g: seq<Entry>)
    requires forall k :: 0 <= k < |rs| ==> rs[k] != []
    requires g != []
    ensures Reports(rs + [g]) == Reports(rs) + RunReport(g)
  {
    assert (rs + [g])[..|rs|] == rs;
  }

  /** A run's crops, grouped by one column. */
  function ByColumn(g: seq<Entry>, c: Column): Groups {
    if g == [] then map[] else Add(ByColumn(g[..|g| - 1], c), Key(g[|g| - 1], c), g[|g| - 1].crop)
  }

  function CropsOf(g: seq<Entry>): set<string> {
    if g == [] then {} else CropsOf(g[..|g| - 1]) + {g[|g| - 1].crop}
  }

  lemma GrowRun(g: seq<Entry>, e: Entry)
    ensures ByColumn(g + [e], ByLimit) == Add(ByColumn(g, ByLimit), e.limit, e.crop)
    ensures ByColumn(g + [e], BySkip) == Add(ByColumn(g, BySkip), e.skip, e.crop)
    ensures CropsOf(g + [e]) == CropsOf(g) + {e.crop}
  {
    assert (g + [e])[..|g|] == g;
  }

  lemma {:induction false} ByColumnKeys(g: seq<Entry>, c: Column)
    ensures forall k :: k in ByColumn(g, c) <==> exists i :: 0 <= i < |g| && Key(g[i], c) == k
  {
    if g != [] {
      var init, e := g[..|g| - 1], g[|g| - 1];
      ByColumnKeys(init, c);
      forall k ensures k in ByColumn(g, c) <==> exists i :: 0 <= i < |g| && Key(g[i], c) == k {
        if exists i :: 0 <= i < |g| && Key(g[i], c) == k {
          var i :| 0 <= i < |g| && Key(g[i], c) == k;
          if i < |init| {
            assert init[i] == g[i];
          }
        }
        if k in ByColumn(init, c) {
          var i :| 0 <= i < |init| && Key(init[i], c) == k;
          assert init[i] == g[i];
        }
      }
    }
  }

  /** Some entry of the run has key k in column c and crop x. */
  predicate Seen(g: seq<Entry>, c: Column, k: string, x: string) {
    exists i :: 0 <= i < |g| && Key(g[i], c) == k && g[i].crop == x
  }

  lemma SeenLast(g: seq<Entry>, c: Column, k: string, x: string)
    requires g != []
    ensures var init, e := g[..|g| - 1], g[|g| - 1];
      Seen(g, c, k, x) <==> Seen(init, c, k, x) || (Key(e, c) == k && e.crop == x)
  {
    var init := g[..|g| - 1];
    if Seen(init, c, k, x) {
      var i :| 0 <= i < |init| && Key(init[i], c) == k && init[i].crop == x;
      assert g[i] == init[i];
    }
    if Seen(g, c, k, x) {
      var i :| 0 <= i < |g| && Key(g[i], c) == k && g[i].crop == x;
      if i < |init| {
        assert g[i] == init[i];
      }
    }
  }

  lemma {:induction false} ByColumnCrops(g: seq<Entry>, c: Column, k: string, x: string)
    requires k in ByColumn(g, c)
    ensures x in ByColumn(g, c)[k] <==> exists i :: 0 <= i < |g| && Key(g[i], c) == k && g[i].crop == x
  {
    var init, e := g[..|g| - 1], g[|g| - 1];
    var m := ByColumn(init, c);
    SeenLast(g, c, k, x);
    if k in m {
      ByColumnCrops(init, c, k, x);
    } else {
      ByColumnKeys(init, c);
      assert !Seen(init, c, k, x);
    }
    assert Seen(g, c, k, x) <==> exists i :: 0 <= i < |g| && Key(g[i], c) == k && g[i].crop == x;
  }

  /** A set has more than one element exactly when it holds two different ones. */
  lemma TwoElements(s: set<string>)
    ensures |s| > 1 <==> exists x, y :: x in s && y in s && x != y
  {
    if |s| > 1 {
      var x :| x in s;
      assert |s - {x}| > 0;
      var y :| y in s - {x};
    }
    if exists x, y :: x in s && y in s && x != y {
      var x, y :| x in s && y in s && x != y;
      var pair := {x, y};
      assert |pair| == 2;
      assert s == pair + (s - pair);
    }
  }

  /** The dictionary check of the script is the reference check of a run. */
  lemma SpreadVaries(g: seq<Entry>, c: Column)
    ensures Spread(ByColumn(g, c)) <==> Varies(g, c)
  {
    var m := ByColumn(g, c);
    ByColumnKeys(g, c);
    if Spread(m) {
      var k :| k in m && |m[k]| > 1;
      TwoElements(m[k]);
      var x, y :| x in m[k] && y in m[k] && x != y;
      ByColumnCrops(g, c, k, x);
      ByColumnCrops(g, c, k, y);
    }
    if Varies(g, c) {
      var i, j :| 0 <= i < |g| && 0 <= j < |g| && Key(g[i], c) == Key(g[j], c) && g[i].crop != g[j].crop;
      var k := Key(g[i], c);
      ByColumnCrops(g, c, k, g[i].crop);
      ByColumnCrops(g, c, k, g[j].crop);
      TwoElements(m[k]);
    }
  }

  /** The state after the rows, described by the runs of their entries. */
  predicate Tracks(st: Meta, es: seq<Entry>)
    requires es != []
  {
    var rs := Runs(es);
    var g := rs[|rs| - 1];
    st.failure.None? && st.name == Some(g[0].name) && st.crops == CropsOf(g)
    && st.byLimit == ByColumn(g, ByLimit) && st.bySkip == ByColumn(g, BySkip)
    && st.log == Reports(rs[..|rs| - 1])
  }

  lemma ValidPrefix(rows: seq<Row>, n: nat)
    requires Valid(rows) && n <= |rows|
    ensures Valid(rows[..n]) && Entries(rows[..n]) == Entries(rows)[..n]
  {
    assert forall k :: 0 <= k < n ==> rows[..n][k] == rows[k];
  }

  /** The first row opens the first run. */
  lemma TracksFirst(r: Row)
    requires |r| >= 4
    ensures Tracks(RowStep(Start, r), [Entry(r[0], r[1], r[2], r[3])])
  {
    var e := Entry(r[0], r[1], r[2], r[3]);
    RunsSnoc([], e);
    assert [] + [e] == [e];
    GrowRun([], e);
  }

  /** A row with the current title joins the current run. */
  lemma TracksSame(st: Meta, es: seq<Entry>, r: Row)
    requires |r| >= 4 && es != [] && Tracks(st, es)
    requires Runs(es)[|Runs(es)| - 1][0].name == r[0]
    ensures Tracks(RowStep(st, r), es + [Entry(r[0], r[1], r[2], r[3])])
  {
    var e := Entry(r[0], r[1], r[2], r[3]);
    RunsSnoc(es, e);
    var rs: seq<seq<Entry>> := Runs(es);
    var g := rs[|rs| - 1];
    GrowRun(g, e);
    assert Runs(es + [e]) == rs[..|rs| - 1] + [g + [e]];
  }

  /** Closing a run prints its report. */
  lemma ChecksRun(g: seq<Entry>)
    requires g != []
    ensures Checks(g[0].name, ByColumn(g, ByLimit), ByColumn(g, BySkip)) == RunReport(g)
  {
    SpreadVaries(g, ByLimit);
    SpreadVaries(g, BySkip);
  }

  /** A row with another title closes the current run g (the state holds
      the reports of the runs before it), and opens a new one. */
  lemma EnterNew(st: Meta, front: seq<seq<Entry>>, g: seq<Entry>, r: Row)
    requires |r| >= 4 && g != [] && g[0].name != r[0] && g[0].name != ""
    requires forall k :: 0 <= k < |front| ==> front[k] != []
    requires st.failure.None? && st.name == Some(g[0].name)
    requires st.byLimit == ByColumn(g, ByLimit) && st.bySkip == ByColumn(g, BySkip)
    requires st.log == Reports(front)
    ensures var e := Entry(r[0], r[1], r[2], r[3]);
      var next := RowStep(st, r);
      next.failure.None? && next.name == Some(r[0]) && next.crops == CropsOf([e])
      && next.byLimit == ByColumn([e], ByLimit) && next.bySkip == ByColumn([e], BySkip)
      && next.log == Reports(front) + RunReport(g)
  {
    var e := Entry(r[0], r[1], r[2], r[3]);
    GrowRun([], e);
    assert [] + [e] == [e];
    ChecksRun(g);
  }

  /** A row with another title closes the current run, which gets its report,
      and opens a new one. */
  lemma TracksNew(st: Meta, es: seq<Entry>, r: Row)
    requires |r| >= 4 && es != [] && Tracks(st, es)
    requires Runs(es)[|Runs(es)| - 1][0].name != r[0] && Runs(es)[|Runs(es)| - 1][0].name != ""
    ensures Tracks(RowStep(st, r), es + [Entry(r[0], r[1], r[2], r[3])])
  {
    var e := Entry(r[0], r[1], r[2], r[3]);
    RunsSnoc(es, e);
    var rs: seq<seq<Entry>> := Runs(es);
    var front, g := rs[..|rs| - 1], rs[|rs| - 1];
    assert rs == front + [g];
    EnterNew(st, front, g, r);
    ReportsSnoc(front, g);
    var now: seq<seq<Entry>> := Runs(es + [e]);
    assert now == rs + [[e]];
    assert now[..|now| - 1] == rs;
  }

  /** The first entry of the last run is one of the entries. */
  lemma LastRunFrom(es: seq<Entry>)
    requires es != []
    ensures Runs(es)[|Runs(es)| - 1][0] in es
  {
    var rs: seq<seq<Entry>> := Runs(es);
    var front, g := rs[..|rs| - 1], rs[|rs| - 1];
    assert rs == front + [g];
    RunsFlatten(es);
    FlattenSnoc(front, g);
    assert g[0] == Flatten(rs)[|Flatten(front)|];
  }

  /** On valid rows the loop's state is the last run so far: its title, its
      crops, its crops by limit and by skip, and the reports of every run
      before it. */
  lemma {:induction false} ScanRuns(rows: seq<Row>)
    requires Valid(rows) && rows != []
    ensures Tracks(Scan(rows), Entries(rows))
  {
    var n := |rows| - 1;
    var init, r := rows[..n], rows[n];
    ValidPrefix(rows, n);
    var es := Entries(init);
    assert Entries(rows) == es + [Entry(r[0], r[1], r[2], r[3])];
    assert Scan(rows) == RowStep(Scan(init), r);
    if init == [] {
      TracksFirst(r);
    } else {
      ScanRuns(init);
      var rs: seq<seq<Entry>> := Runs(es);
      LastRunFrom(es);
      if rs[|rs| - 1][0].name == r[0] {
        TracksSame(Scan(init), es, r);
      } else {
        TracksNew(Scan(init), es, r);
      }
    }
  }

  /** Report along the runs: on valid rows the script prints the report of
      every run except the last, then SENSITIVE for the last run when it saw
      more than one crop. */
  lemma AnalyseReports(rows: seq<Row>)
    requires rows != [] && Valid(rows[1..])
    ensures rows[1..] == [] ==> Analyse(rows) == ([], None)
    ensures rows[1..] != [] ==>
      var rs := Runs(Entries(rows[1..]));
      var g := rs[|rs| - 1];
      Analyse(rows) == (Reports(rs[..|rs| - 1]) + (if |CropsOf(g)| > 1 then ["SENSITIVE " + g[0].name] else []), None)
  {
    var data := rows[1..];
    assert (if rows == [] then [] else rows[1..]) == data;
    var st := Scan(data);
    if data != [] {
      ScanRuns(data);
      if |st.crops| <= 1 {
        assert st.log + [] == st.log;
      }
    }
  }

  /** The last run is never checked for SKIP or LIMIT: one title whose two
      rows share a limit but differ in crop (for instance ["A", "18", "8",
      "c1"] and ["A", "18", "24", "c2"]) is a run whose report holds SKIP, yet
      the script prints only SENSITIVE. */
  lemma LastRunUnchecked(header: Row, n: string, limit: string, s1: string, s2: string, c1: string, c2: string)
    requires n != "" && c1 != c2
    ensures var rows := [header, [n, limit, s1, c1], [n, limit, s2, c2]];
      ("SKIP " + n) in RunReport(Runs(Entries(rows[1..]))[0]) && Analyse(rows) == (["SENSITIVE " + n], None)
  {
    var rows := [header, [n, limit, s1, c1], [n, limit, s2, c2]];
    var data := rows[1..];
    assert data == [rows[1], rows[2]];
    assert Valid(data);
    var a, b := Entry(n, limit, s1, c1), Entry(n, limit, s2, c2);
    var g := [a, b];
    assert Entries(data) == g;
    OneRun(a, b);
    var rs: seq<seq<Entry>> := Runs(g);
    assert Varies(g, ByLimit) by {
      assert Key(g[0], ByLimit) == Key(g[1], ByLimit) && g[0].crop != g[1].crop;
    }
    assert RunReport(g)[0] == "SKIP " + n;
    GrowRun([], a);
    assert [] + [a] == [a];
    GrowRun([a], b);
    assert CropsOf(g) == {c1, c2};
    assert |CropsOf(g)| == 2;
    OneRunSensitive(rows);
  }

  /** Valid rows of a single title with several crops print only SENSITIVE. */
  lemma OneRunSensitive(rows: seq<Row>)
    requires rows != [] && rows[1..] != [] && Valid(rows[1..])
    requires |Runs(Entries(rows[1..]))| == 1 && |CropsOf(Runs(Entries(rows[1..]))[0])| > 1
    ensures Analyse(rows) == (["SENSITIVE " + Runs(Entries(rows[1..]))[0][0].name], None)
  {
    AnalyseReports(rows);
    var rs: seq<seq<Entry>> := Runs(Entries(rows[1..]));
    var none: seq<string> := [];
    assert rs[..|rs| - 1] == [] && Reports(rs[..|rs| - 1]) == none;
    assert none + ["SENSITIVE " + rs[0][0].name] == ["SENSITIVE " + rs[0][0].name];
  }

  /** Two entries of one title make one run. */
  lemma OneRun(a: Entry, b: Entry)
    requires a.name == b.name
    ensures Runs([a, b]) == [[a, b]]
  {
    RunsSnoc([], a);
    assert [] + [a] == [a];
    RunsSnoc([a], b);
    assert [a] + [b] == [a, b];
  }

  /** The pass with the last group checked like every other one. */
  function AnalyseFlushed(rows: seq<Row>): (seq<string>, Option<Exception>) {
    var st := Scan(if rows == [] then [] else rows[1..]);
    if st.failure.Some? then (st.log, st.failure)
    else
      var closing := if st.name.Some? && st.name.value != "" then Checks(st.name.value, st.byLimit, st.bySkip) else [];
      if |st.crops| > 1 && st.name.Some? then (st.log + closing + ["SENSITIVE " + st.name.value], None)
      else (st.log + closing, None)
  }

  /** Checking the group the loop ends in completes the reports of all runs. */
  lemma ClosingReport(data: seq<Row>)
    requires Valid(data) && data != []
    ensures var st := Scan(data);
      var rs := Runs(Entries(data));
      st.name.Some? && st.name.value != ""
      && st.log + Checks(st.name.value, st.byLimit, st.bySkip) == Reports(rs)
  {
    var es := Entries(data);
    ScanRuns(data);
    assert forall k :: 0 <= k < |es| ==> es[k].name == data[k][0];
    TracksClosed(Scan(data), es);
  }

  /** The loop state of a run of named entries, checked, gives the reports
      of all runs. */
  lemma TracksClosed(st: Meta, es: seq<Entry>)
    requires es != [] && Tracks(st, es)
    requires forall k :: 0 <= k < |es| ==> es[k].name != ""
    ensures st.name.Some? && st.name.value != ""
    ensures st.log + Checks(st.name.value, st.byLimit, st.bySkip) == Reports(Runs(es))
  {
    var rs: seq<seq<Entry>> := Runs(es);
    var front, g := rs[..|rs| - 1], rs[|rs| - 1];
    assert g[0].name != "" by {
      LastRunFrom(es);
    }
    ClosedRuns(st, front, g);
    SplitLast(rs);
  }

  /** Checking the last run g on top of the reports of the runs before it. */
  lemma ClosedRuns(st: Meta, front: seq<seq<Entry>>, g: seq<Entry>)
    requires g != [] && forall k :: 0 <= k < |front| ==> front[k] != []
    requires st.name == Some(g[0].name) && st.log == Reports(front)
    requires st.byLimit == ByColumn(g, ByLimit) && st.bySkip == ByColumn(g, BySkip)
    ensures st.log + Checks(st.name.value, st.byLimit, st.bySkip) == Reports(front + [g])
  {
    ChecksRun(g);
    ReportsSnoc(front, g);
  }

  /** With the last group flushed, every run is reported. */
  lemma AnalyseFlushedReports(rows: seq<Row>)
    requires rows != [] && Valid(rows[1..])
    ensures rows[1..] == [] ==> AnalyseFlushed(rows) == ([], None)
    ensures rows[1..] != [] ==>
      var rs := Runs(Entries(rows[1..]));
      var g := rs[|rs| - 1];
      AnalyseFlushed(rows) == (Reports(rs) + (if |CropsOf(g)| > 1 then ["SENSITIVE " + g[0].name] else []), None)
  {
    var data := rows[1..];
    assert (if rows == [] then [] else rows[1..]) == data;
    var st := Scan(data);
    if data != [] {
      ScanRuns(data);
      ClosingReport(data);
      var rs: seq<seq<Entry>> := Runs(Entries(data));
      if |st.crops| <= 1 {
        assert Reports(rs) + [] == Reports(rs);
      }
    } else {
      assert st == Start;
      var none: seq<string> := [];
      assert none + none == none;
    }
  }

  // -----------------------------------------------------------------------
  // The script

  /** `for k, c in groups.items(): if len(c) > 1: ...; break`. */
  method HasSpread(m: Groups) returns (b: bool)
    ensures b <==> Spread(m)
  {
    var keys := m.Keys;
    while keys != {}
      invariant keys <= m.Keys
      invariant forall k :: k in m.Keys - keys ==> |m[k]| <= 1
      decreases |keys|
    {
      var k :| k in keys;
      if |m[k]| > 1 {
        return true;
      }
      keys := keys - {k};
    }
    return false;
  }

  /** Closing a group: print SKIP when some limit saw several crops, then
      LIMIT when some skip did. */
  method CheckGroup(log: seq<string>, name: string, byLimit: Groups, bySkip: Groups) returns (out: seq<string>)
    ensures out == log + Checks(name, byLimit, bySkip)
  {
    var skips: seq<string> := [];
    var skipSpread := HasSpread(byLimit);
    if skipSpread {
      skips := ["SKIP " + name];
    }
    var limits: seq<string> := [];
    var limitSpread := HasSpread(bySkip);
    if limitSpread {
      limits := ["LIMIT " + name];
    }
    out := log + (skips + limits);
  }

  lemma ScanSnoc(rows: seq<Row>, i: nat)
    requires i < |rows|
    ensures Scan(rows[..i + 1]) == RowStep(Scan(rows[..i]), rows[i])
  {
    assert rows[..i + 1][..i] == rows[..i];
  }

  lemma {:induction false} ScanStops(rows: seq<Row>, n: nat)
    requires n <= |rows| && Scan(rows[..n]).failure.Some?
    ensures Scan(rows) == Scan(rows[..n])
  {
    if n < |rows| {
      var init := rows[..|rows| - 1];
      assert init[..n] == rows[..n];
      ScanStops(init, n);
    } else {
      assert rows[..n] == rows;
    }
  }

  /** The script: skip the header, run the state machine over the rows,
      then check the last group for SENSITIVE. */
  method MetaAnalysis(rows: seq<Row>) returns (log: seq<string>, failure: Option<Exception>)
    ensures (log, failure) == Analyse(rows)
  {
    var data := if rows == [] then [] else rows[1..];
    var name: Option<string> := None;
    var crops: set<string> := {};
    var byLimit: Groups := map[];
    var bySkip: Groups := map[];
    log := [];
    var i := 0;
    while i < |data|
      invariant 0 <= i <= |data|
      invariant Scan(data[..i]) == Meta(name, crops, byLimit, bySkip, log, None)
    {
      var r := data[i];
      ScanSnoc(data, i);
      if |r| == 0 {
        ScanStops(data, i + 1);
        return log, Some(IndexError);
      }
      ghost var before := Meta(name, crops, byLimit, bySkip, log, None);
      var n := r[0];
      if name != Some(n) {
        if name.Some? && name.value != "" {
          log := CheckGroup(log, name.value, byLimit, bySkip);
          crops, byLimit, bySkip := {}, map[], map[];
        }
        name := Some(n);
      }
      ghost var cur := Meta(name, crops, byLimit, bySkip, log, None);
      assert cur == Enter(before, n);
      if |r| < 4 {
        assert RowStep(before, r) == cur.(failure := Some(IndexError));
        ScanStops(data, i + 1);
        return log, Some(IndexError);
      }
      byLimit := byLimit[r[1] := (if r[1] in byLimit then byLimit[r[1]] else {}) + {r[3]}];
      bySkip := bySkip[r[2] := (if r[2] in bySkip then bySkip[r[2]] else {}) + {r[3]}];
      crops := crops + {r[3]};
      assert RowStep(before, r) == Meta(name, crops, byLimit, bySkip, log, None);
      i := i + 1;
    }
    assert data[..i] == data;
    if |crops| > 1 && name.Some? {
      log := log + ["SENSITIVE " + name.value];
    }
    failure := None;
  }
}
