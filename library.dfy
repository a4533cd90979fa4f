/** What the crop scripts take from the media server and the file system:
    a search result is a dictionary from field names to text, and a
    library path is rewritten into a path on this machine. */
module Library {
  import opened Wrappers
  import opened Text

  /** One media-server search result. */
  type Fields = map<string, string>

  /** `res.get(k, default)`. */
  function Get(res: Fields, k: string, default: string): string {
    if k in res then res[k] else default
  }

  /** `res[k]`, which raises KeyError when k is absent. */
  function Field(res: Fields, k: string): (r: Result<string>)
    ensures r.Ok? <==> k in res
    ensures r.Ok? ==> r.value == res[k]
    ensures r.Raise? ==> r.exc == KeyError(k)
  {
    if k in res then Ok(res[k]) else Raise(KeyError(k))
  }

  /** `p.replace(lib_p, real_p).replace('\\', '/')`: the library's path as
      seen from this machine; it never holds a backslash. */
  function TranslatePath(p: string, libP: string, realP: string): (r: string)
    ensures '\\' !in r
  {
    var swapped := Replace(p, libP, realP);
    ReplaceCharRemoves(swapped, '\\', "/");
    Replace(swapped, "\\", "/")
  }

  /** dir and name joined by one `/`: `str(Path(dir) / name)` for a
      non-empty dir without a trailing `/`. */
  function JoinPath(dir: string, name: string): string {
    dir + "/" + name
  }

  /** `row.index(c)`: the first position holding c; None where Python raises ValueError. */
  function IndexOf(row: Row, c: string): (r: Option<nat>)
    ensures r.None? <==> c !in row
    ensures r.Some? ==> r.value < |row| && row[r.value] == c
    ensures r.Some? ==> forall j :: 0 <= j < r.value ==> row[j] != c
  {
    if row == [] then None
    else if row[0] == c then Some(0)
    else
      var rest := IndexOf(row[1..], c);
      if rest.None? then None else Some(rest.value + 1)
  }

  /** `{c: i for i, c in enumerate(row)}[c]`: the comprehension keeps the last
      position of a repeated name. */
  function LastIndex(row: Row, c: string): (r: Option<nat>)
    ensures r.None? <==> c !in row
    ensures r.Some? ==> r.value < |row| && row[r.value] == c
    ensures r.Some? ==> forall j :: r.value < j < |row| ==> row[j] != c
  {
    if row == [] then None
    else if row[|row| - 1] == c then Some(|row| - 1)
    else LastIndex(row[..|row| - 1], c)
  }

  /** A name the pattern `crop*.csv` matches. */
  predicate IsCropCsv(name: string) {
    |name| >= 8 && StartsWith(name, "crop") && EndsWith(name, ".csv")
  }

  /** `str(b)` for a bool. */
  function BoolText(b: bool): string {
    if b then "True" else "False"
  }

  /** The file system as the crop-analysis scripts see it: a directory's
      entries in iteration order, and the rows csv.reader yields for a file. */
  datatype Disk = Disk(names: string -> seq<string>, rows: string -> seq<Row>)

  /** The positions of the names that match `crop*.csv`, in increasing order. */
  function CropPositions(names: seq<string>): (pos: seq<nat>)
    ensures forall k :: 0 <= k < |pos| ==> pos[k] < |names| && IsCropCsv(names[pos[k]])
    ensures forall k, l :: 0 <= k < l < |pos| ==> pos[k] < pos[l]
    ensures forall i :: 0 <= i < |names| && IsCropCsv(names[i]) ==> i in pos
  {
    if names == [] then []
    else
      var n := |names| - 1;
      var init := CropPositions(names[..n]);
      assert forall i :: 0 <= i < n ==> names[..n][i] == names[i];
      if IsCropCsv(names[n]) then init + [n] else init
  }

  /** `Path(dir).glob('crop*.csv')`: the matching names, in listing order. */
  function CropFiles(names: seq<string>): (r: seq<string>)
    ensures |r| <= |names|
    ensures forall n :: n in r <==> n in names && IsCropCsv(n)
  {
    if names == [] then []
    else
      var init := CropFiles(names[..|names| - 1]);
      var last := names[|names| - 1];
      assert names == names[..|names| - 1] + [last];
      if IsCropCsv(last) then init + [last] else init
  }

  /** The glob keeps the listing's order: its k-th name is the k-th
      matching name of the listing. */
  lemma {:induction false} CropFilesInOrder(names: seq<string>)
    ensures |CropFiles(names)| == |CropPositions(names)|
    ensures forall k :: 0 <= k < |CropFiles(names)| ==> CropFiles(names)[k] == names[CropPositions(names)[k]]
  {
    if names != [] {
      var n := |names| - 1;
      var pre := names[..n];
      CropFilesInOrder(pre);
      var pos := CropPositions(pre);
      var fs := CropFiles(pre);
      assert CropFiles(names) == if IsCropCsv(names[n]) then fs + [names[n]] else fs;
      assert CropPositions(names) == if IsCropCsv(names[n]) then pos + [n] else pos;
      forall k | 0 <= k < |fs|
        ensures CropFiles(names)[k] == names[CropPositions(names)[k]]
      {
        assert fs[k] == pre[pos[k]];
        assert pre[pos[k]] == names[pos[k]];
      }
    }
  }
}
