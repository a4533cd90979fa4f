/** The `__main__` loop of set_item.py and of its copy mc/set_item.py: each
    line of a tab-separated film list has its title stripped and cut before a
    ` (BLU-RAY...)` suffix, the title is looked up on the media server, and a
    match that is not yet borrowed is marked `Borrowed = 1`. The media server
    is given as two functions: the search result for a title and whether
    `set_value` succeeded for a key. */
module SetItem {
  import opened Wrappers
  import opened Text
  import opened Library
  import opened Seqs

  // -----------------------------------------------------------------------
  // re.search(r'(.*)( \(BLU-RAY.*\))', name)

  const Marker := " (BLU-RAY"

  /** `.` matches every character of s[i..j]: none is a newline. */
  predicate Dots(s: string, i: nat, j: nat)
    requires i <= j <= |s|
  {
    forall k :: i <= k < j ==> s[k] != '\n'
  }

  /** The second group can match at a: the marker, then a `)` later on the
      same line. */
  predicate Suffix(s: string, a: nat) {
    OccursAt(s, Marker, a)
    && exists c :: a + |Marker| <= c < |s| && s[c] == ')' && Dots(s, a + |Marker|, c)
  }

  /** The whole pattern matches from `start`, with the first group ending at `a`. */
  predicate Matches(s: string, start: nat, a: nat) {
    start <= a <= |s| && Dots(s, start, a) && Suffix(s, a)
  }

  /** `.*\)` from i: a `)` comes before any newline. */
  function CloseFrom(s: string, i: nat): bool
    decreases |s| - i
  {
    if i >= |s| then false
    else if s[i] == ')' then true
    else if s[i] == '\n' then false
    else CloseFrom(s, i + 1)
  }

  lemma {:induction false} CloseFromSpec(s: string, i: nat)
    ensures CloseFrom(s, i) <==> exists c :: i <= c < |s| && s[c] == ')' && Dots(s, i, c)
    decreases |s| - i
  {
    if i < |s| && s[i] != ')' && s[i] != '\n' {
      CloseFromSpec(s, i + 1);
      if CloseFrom(s, i) {
        var c :| i + 1 <= c < |s| && s[c] == ')' && Dots(s, i + 1, c);
        assert Dots(s, i, c);
      } else {
        forall c | i <= c < |s| && s[c] == ')' ensures !Dots(s, i, c) {
          if Dots(s, i, c) {
            assert c != i;
            assert Dots(s, i + 1, c);
          }
        }
      }
    } else if i < |s| && s[i] == ')' {
      assert Dots(s, i, i);
    }
  }

  /** Suffix, computed. */
  function SuffixAt(s: string, a: nat): (r: bool)
    ensures r <==> Suffix(s, a)
  {
    CloseFromSpec(s, a + |Marker|);
    OccursAt(s, Marker, a) && CloseFrom(s, a + |Marker|)
  }

  /** Where `.*` from `start` has to stop: the first newline, or the end. */
  function LineEnd(s: string, start: nat): (e: nat)
    requires start <= |s|
    ensures start <= e <= |s| && Dots(s, start, e) && (e < |s| ==> s[e] == '\n')
    decreases |s| - start
  {
    if start == |s| || s[start] == '\n' then start else LineEnd(s, start + 1)
  }

  /** The greedy first group: the last a in [start, j] where the suffix matches. */
  function LastSuffix(s: string, start: nat, j: nat): (r: Option<nat>)
    requires start <= j
    ensures r.Some? ==> start <= r.value <= j && Suffix(s, r.value) && forall b :: r.value < b <= j ==> !Suffix(s, b)
    ensures r.None? ==> forall b :: start <= b <= j ==> !Suffix(s, b)
    decreases j - start
  {
    if SuffixAt(s, j) then Some(j)
    else if j == start then None
    else LastSuffix(s, start, j - 1)
  }

  /** The match with the leftmost start at or after `start`, as the start and
      the end of its first group. */
  function Search(s: string, start: nat): Option<(nat, nat)>
    requires start <= |s|
    decreases |s| - start
  {
    var g := LastSuffix(s, start, LineEnd(s, start));
    if g.Some? then Some((start, g.value))
    else if start == |s| then None
    else Search(s, start + 1)
  }

  /** From `start`, the pattern matches exactly up to the end of the line. */
  lemma MatchesInLine(s: string, start: nat, a: nat)
    requires start <= |s|
    ensures Matches(s, start, a) <==> start <= a <= LineEnd(s, start) && Suffix(s, a)
  {
    var e := LineEnd(s, start);
    if Matches(s, start, a) && e < |s| {
      assert s[e] == '\n';
    }
    if start <= a <= e && Suffix(s, a) {
      assert Dots(s, start, a);
    }
  }

  /** A suffix on the first line: the pattern matches from `start`, and
      with no longer first group. */
  lemma MatchHere(s: string, start: nat)
    requires start <= |s| && LastSuffix(s, start, LineEnd(s, start)).Some?
    ensures var a := LastSuffix(s, start, LineEnd(s, start)).value;
      Matches(s, start, a) && forall b :: a < b ==> !Matches(s, start, b)
  {
    var a := LastSuffix(s, start, LineEnd(s, start)).value;
    MatchesInLine(s, start, a);
    forall b | a < b ensures !Matches(s, start, b) {
      MatchesInLine(s, start, b);
    }
  }

  /** No suffix on the first line: the pattern does not match from `start`. */
  lemma NoMatchHere(s: string, start: nat)
    requires start <= |s| && LastSuffix(s, start, LineEnd(s, start)).None?
    ensures forall a :: !Matches(s, start, a)
  {
    forall a ensures !Matches(s, start, a) {
      MatchesInLine(s, start, a);
    }
  }

  /** Search is re.search: the match found starts leftmost and its first group
      is the longest at that start; None when the pattern matches nowhere. */
  lemma {:induction false} SearchSpec(s: string, start: nat)
    requires start <= |s|
    ensures var r := Search(s, start);
      (r.None? <==> forall st, a :: start <= st ==> !Matches(s, st, a))
      && (r.Some? ==>
            Matches(s, r.value.0, r.value.1)
            && (forall st, a :: start <= st < r.value.0 ==> !Matches(s, st, a))
            && (forall a :: r.value.1 < a ==> !Matches(s, r.value.0, a)))
    decreases |s| - start
  {
    if LastSuffix(s, start, LineEnd(s, start)).Some? {
      MatchHere(s, start);
    } else {
      NoMatchHere(s, start);
      if start < |s| {
        SearchSpec(s, start + 1);
        var r := Search(s, start + 1);
        assert Search(s, start) == r;
        if r.None? {
          forall st, a | start <= st ensures !Matches(s, st, a) {
            if st != start {
              assert start + 1 <= st;
            }
          }
        } else {
          forall st, a | start <= st < r.value.0 ensures !Matches(s, st, a) {
            if st != start {
              assert start + 1 <= st;
            }
          }
        }
      } else {
        assert Search(s, start).None?;
      }
    }
  }

  /** `name = m.group(1)` when there is a match, else the name unchanged. */
  function Title(name: string): string {
    var m := Search(name, 0);
    if m.None? then name
    else
      SearchSpec(name, 0);
      name[m.value.0..m.value.1]
  }

  /** The cut title is the first group of the leftmost match: it ends where a
      ` (BLU-RAY` with a later `)` on its line begins, and no later one on
      that line qualifies; with no match the title is unchanged. A title
      without a newline is cut to a proper prefix. */
  lemma TitleSpec(name: string)
    ensures Title(name) == name <==> Search(name, 0).None?
    ensures Search(name, 0).None? <==> forall st, a :: !Matches(name, st, a)
    ensures var r := Search(name, 0);
      r.Some? ==>
        Matches(name, r.value.0, r.value.1) && Title(name) == name[r.value.0..r.value.1]
        && (forall b :: r.value.1 < b ==> !Matches(name, r.value.0, b))
    ensures var r := Search(name, 0);
      '\n' !in name && r.Some? ==>
        Title(name) == name[..r.value.1] && r.value.1 + |Marker| <= |name|
        && name[r.value.1..r.value.1 + |Marker|] == Marker
  {
    SearchSpec(name, 0);
    var m := Search(name, 0);
    if m.Some? {
      var a := m.value.1;
      assert OccursAt(name, Marker, a);
      assert |Title(name)| < |name|;
      if '\n' !in name {
        assert Dots(name, 0, a);
        assert Matches(name, 0, a);
      }
    }
  }

  /** A title with the suffix on its only line is cut at the last marker
      that a `)` follows. */
  lemma TitleCutsLast(name: string, a: nat)
    requires '\n' !in name && Suffix(name, a)
    ensures Search(name, 0).Some?
    ensures a <= Search(name, 0).value.1 && |Title(name)| >= a
  {
    SearchSpec(name, 0);
    assert Dots(name, 0, a);
    assert Matches(name, 0, a);
    TitleSpec(name);
  }

  // -----------------------------------------------------------------------
  // One line of the film list

  /** What happened to the Borrowed field of a match. */
  datatype Update =
    | Kept      // already borrowed: set_value is not called
    | Set       // set_value succeeded
    | SetFailed // set_value failed: the script reports it and goes on

  /** A line's outcome: no match for its title, or the match with its
      `Key`, `Filename`, the title, the Borrowed value if present, and the update. */
  datatype Line =
    | NoMatch(name: string)
    | Found(key: string, filename: string, name: string, borrowed: Option<string>, update: Update)

  /** `match.get('Borrowed', 0)` is true: present and not the empty string. */
  predicate Borrowed(b: Option<string>) {
    b.Some? && b.value != ""
  }

  /** `if match:`: a dictionary is true when it has an item. */
  predicate Hit(m: Option<Fields>) {
    m.Some? && m.value != map[]
  }

  /** The Borrowed value of a hit, when it has one. */
  function BorrowedOf(f: Fields): Option<string> {
    if "Borrowed" in f then Some(f["Borrowed"]) else None
  }

  /** What follows the search for the cleaned title `name`: a hit that is
      not borrowed is set; printing `match['Key']` and `match['Filename']`
      raises KeyError for a hit that lacks them. */
  function Outcome(name: string, m: Option<Fields>, setOk: string -> bool): Result<Line> {
    if !Hit(m) then Ok(NoMatch(name))
    else if "Key" !in m.value then Raise(KeyError("Key"))
    else if "Filename" !in m.value then Raise(KeyError("Filename"))
    else
      var f := m.value;
      var b := BorrowedOf(f);
      Ok(Found(f["Key"], f["Filename"], name, b, if Borrowed(b) then Kept else if setOk(f["Key"]) then Set else SetFailed))
  }

  /** A line as csv.DictReader yields it: a cell per header column, None
      where the line has fewer cells than the header (the reader's `restval`). */
  type CsvLine = map<string, Option<string>>

  /** One line: YEAR and FILM are read (KeyError when the header lacks
      them), FILM is stripped (AttributeError when the line is too short to
      have it) and cut, and the server is searched for the title. */
  function Process(line: CsvLine, search: string -> Option<Fields>, setOk: string -> bool): Result<Line> {
    if "YEAR" !in line then Raise(KeyError("YEAR"))
    else if "FILM" !in line then Raise(KeyError("FILM"))
    else if line["FILM"].None? then Raise(AttributeError)
    else
      var name := Title(Strip(line["FILM"].value));
      Outcome(name, search(name), setOk)
  }

  /** set_value is called exactly for a hit with a Key and a Filename whose
      Borrowed value is false, with that hit's Key; a hit reports its own
      Key, Filename and Borrowed value, and anything else reports no match. */
  lemma OutcomeSpec(name: string, m: Option<Fields>, setOk: string -> bool)
    ensures var r := Outcome(name, m, setOk);
      (r.Ok? ==> r.value.name == name && (r.value.Found? <==> Hit(m)))
      && (r.Raise? <==> Hit(m) && ("Key" !in m.value || "Filename" !in m.value))
      && (r.Raise? ==> r.exc == if "Key" !in m.value then KeyError("Key") else KeyError("Filename"))
      && (r.Ok? && r.value.Found? ==>
            r.value.key == m.value["Key"] && r.value.filename == m.value["Filename"]
            && r.value.borrowed == BorrowedOf(m.value)
            && (r.value.update != Kept <==> !Borrowed(BorrowedOf(m.value)))
            && (r.value.update != Kept ==> (r.value.update == Set <==> setOk(r.value.key))))
  {
  }

  /** A line raises KeyError for YEAR, then for FILM, when absent, and
      AttributeError when its FILM cell is missing; otherwise its outcome is
      that of the search for its cleaned title. A YEAR cell that is missing
      raises nothing. */
  lemma ProcessSpec(line: CsvLine, search: string -> Option<Fields>, setOk: string -> bool)
    ensures var r := Process(line, search, setOk);
      ("YEAR" !in line ==> r == Raise(KeyError("YEAR")))
      && ("YEAR" in line && "FILM" !in line ==> r == Raise(KeyError("FILM")))
      && ("YEAR" in line && "FILM" in line && line["FILM"].None? ==> r == Raise(AttributeError))
      && ("YEAR" in line && "FILM" in line && line["FILM"].Some? ==>
            var name := Title(Strip(line["FILM"].value));
            r == Outcome(name, search(name), setOk))
  {
  }

  /** The line step of the loop. */
  function LineOf(search: string -> Option<Fields>, setOk: string -> bool): CsvLine -> Result<Line> {
    line => Process(line, search, setOk)
  }

  /** `for line in reader`: every line in order, up to the first exception. */
  function Run(lines: seq<CsvLine>, search: string -> Option<Fields>, setOk: string -> bool): Result<seq<Line>> {
    Sequence(LineOf(search, setOk), lines)
  }

  /** A run that ends without exception has one outcome per line, each the
      line's own. */
  lemma RunSpec(lines: seq<CsvLine>, search: string -> Option<Fields>, setOk: string -> bool)
    ensures var r := Run(lines, search, setOk);
      (r.Ok? ==> |r.value| == |lines| && forall k :: 0 <= k < |lines| ==> Process(lines[k], search, setOk) == Ok(r.value[k]))
  {
    if Run(lines, search, setOk).Ok? {
      SequenceOk(LineOf(search, setOk), lines);
    }
  }

  /** One line that raises ends the run with its exception, whatever follows. */
  lemma RunStops(lines: seq<CsvLine>, n: nat, acc: seq<Line>, e: Exception, search: string -> Option<Fields>, setOk: string -> bool)
    requires n < |lines| && Run(lines[..n], search, setOk) == Ok(acc)
    requires Process(lines[n], search, setOk) == Raise(e)
    ensures Run(lines, search, setOk) == Raise(e)
  {
    SequenceStop(LineOf(search, setOk), lines, n, |lines|, acc, e);
    assert lines[..|lines|] == lines;
  }
}
