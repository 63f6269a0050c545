/** The part of `pathlib.PurePosixPath` the core uses: building a path from a string,
    `/` (joining), `str()`, `.parent` and `.name`. */
module Paths {
  import opened Text

  /** A path: whether it starts at the root, and its components. */
  datatype Path = Path(absolute: bool, parts: seq<string>)

  /** A component as pathlib keeps it: not empty, not ".", no slash. */
  predicate ValidPart(x: string) {
    x != "" && x != "." && '/' !in x
  }

  predicate Valid(p: Path) {
    forall i :: 0 <= i < |p.parts| ==> ValidPart(p.parts[i])
  }

  /** The pieces pathlib keeps: empty ones (from repeated slashes) and "." are dropped. */
  function KeepParts(xs: seq<string>): (r: seq<string>)
    requires forall i :: 0 <= i < |xs| ==> '/' !in xs[i]
    ensures forall i :: 0 <= i < |r| ==> ValidPart(r[i])
    decreases |xs|
  {
    if |xs| == 0 then []
    else if xs[0] == "" || xs[0] == "." then KeepParts(xs[1..])
    else [xs[0]] + KeepParts(xs[1..])
  }

  lemma {:induction false} KeepValidParts(xs: seq<string>)
    requires forall i :: 0 <= i < |xs| ==> ValidPart(xs[i]) && '/' !in xs[i]
    ensures KeepParts(xs) == xs
    decreases |xs|
  {
    if |xs| > 0 {
      KeepValidParts(xs[1..]);
    }
  }

  /** The components that a path string denotes. */
  function Segments(s: string): (r: seq<string>)
    ensures forall i :: 0 <= i < |r| ==> ValidPart(r[i])
  {
    KeepParts(SplitOn(s, '/'))
  }

  /** `PurePosixPath(s)`. */
  function Parse(s: string): (p: Path)
    ensures Valid(p)
  {
    Path(|s| > 0 && s[0] == '/', Segments(s))
  }

  /** `str(p)`: "." for the empty relative path. */
  function ToString(p: Path): string {
    if p.absolute then "/" + JoinWith(p.parts, "/")
    else if |p.parts| == 0 then "."
    else JoinWith(p.parts, "/")
  }

  lemma JoinWithHead(parts: seq<string>, sep: string)
    requires |parts| >= 1 && |parts[0]| >= 1
    ensures |JoinWith(parts, sep)| >= 1 && JoinWith(parts, sep)[0] == parts[0][0]
  {
  }

  /** `PurePosixPath(str(p)) == p`: printing a path and reading it back loses nothing. */
  lemma ParseToString(p: Path)
    requires Valid(p)
    ensures Parse(ToString(p)) == p
  {
    var j := JoinWith(p.parts, "/");
    if |p.parts| >= 1 {
      SplitJoin(p.parts, '/');
      KeepValidParts(p.parts);
    }
    if p.absolute {
      SplitAfterPiece("", '/', j);
      assert "" + "/" + j == "/" + j;
      if |p.parts| == 0 {
        assert "/"[1..] == "";
        assert SplitOn("/", '/') == ["", ""];
        assert KeepParts(["", ""]) == [];
      }
    } else if |p.parts| >= 1 {
      JoinWithHead(p.parts, "/");
    } else {
      assert "."[1..] == "" && SplitOn("", '/') == [""];
      assert ["."[0]] + "" == ".";
      assert SplitOn(".", '/') == ["."];
      assert KeepParts(["."]) == [];
    }
  }

  /** `base / rel`: a relative `rel` adds its components, an absolute one replaces `base`. */
  function Join(base: Path, rel: string): (r: Path)
    ensures Valid(base) ==> Valid(r)
  {
    if |rel| > 0 && rel[0] == '/' then Parse(rel)
    else Path(base.absolute, base.parts + Segments(rel))
  }

  /** `p.parent`: the empty path and the root are their own parents. */
  function Parent(p: Path): (r: Path)
    ensures r.absolute == p.absolute
    ensures |p.parts| > 0 ==> r.parts == p.parts[..|p.parts| - 1]
    ensures |p.parts| == 0 ==> r == p
  {
    if |p.parts| == 0 then p else Path(p.absolute, p.parts[..|p.parts| - 1])
  }

  /** `p.name`: the last component, or "" for the empty path and the root. */
  function Name(p: Path): string {
    if |p.parts| == 0 then "" else p.parts[|p.parts| - 1]
  }

  /** The first `k` components of `p`: its ancestor `|p.parts| - k` levels up. */
  function Prefix(p: Path, k: nat): Path
    requires k <= |p.parts|
  {
    Path(p.absolute, p.parts[..k])
  }

  /** `p` lies strictly below `dir`: its components extend `dir`'s. ".." is not resolved. */
  predicate Inside(p: Path, dir: Path) {
    p.absolute == dir.absolute && |dir.parts| < |p.parts| && p.parts[..|dir.parts|] == dir.parts
  }

  /** The directories `mkdir(parents=True, exist_ok=True)` leaves existing: `p` and all its ancestors. */
  function AncestorsOrSelf(p: Path): set<Path> {
    set k | 0 <= k <= |p.parts| :: Prefix(p, k)
  }
}
