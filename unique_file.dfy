/** `tests/utils/file.py`: choosing a file name that is not taken yet (`name.ext`, `name_1.ext`,
    `name_2.ext`, ...) and saving texts under such names. Paths here are plain strings, as
    `os.path` handles them. */
module UniqueFile {
  import opened Wrappers
  import opened Text

  /** `os.path.join(a, b)`: an absolute `b` replaces `a`; otherwise one "/" goes between,
      unless `a` is empty or already ends with one. */
  function OsPathJoin(a: string, b: string): (r: string)
    ensures |b| > 0 && b[0] == '/' ==> r == b
    ensures !(|b| > 0 && b[0] == '/') ==> EndsWith(r, b) && StartsWith(r, a)
  {
    if |b| > 0 && b[0] == '/' then b
    else if a == "" || a[|a| - 1] == '/' then a + b
    else a + "/" + b
  }

  /** Joining `a` to names that agree on their first character is one-to-one. */
  lemma OsPathJoinInjective(a: string, b: string, c: string)
    requires |b| > 0 && |c| > 0 && b[0] == c[0]
    requires OsPathJoin(a, b) == OsPathJoin(a, c)
    ensures b == c
  {
    var r := OsPathJoin(a, b);
    if !(b[0] == '/') && !(a == "" || a[|a| - 1] == '/') {
      assert b == r[|a| + 1..] && c == r[|a| + 1..];
    } else if !(b[0] == '/') {
      assert b == r[|a|..] && c == r[|a|..];
    }
  }

  /** The name of the `k`-th candidate: `file.ext` first, then `file_k.ext`. */
  function CandidateName(fileName: string, ext: string, k: nat): (r: string)
    ensures StartsWith(r, fileName) && EndsWith(r, "." + ext)
  {
    if k == 0 then fileName + "." + ext
    else fileName + "_" + NatToString(k) + "." + ext
  }

  /** The `k`-th candidate path in `dir`. */
  function Candidate(dir: string, fileName: string, ext: string, k: nat): string {
    OsPathJoin(dir, CandidateName(fileName, ext, k))
  }

  /** `p` is one of the names `create_unique_filename` tries in `dir`. */
  ghost predicate IsCandidate(dir: string, fileName: string, ext: string, p: string) {
    exists k: nat :: p == Candidate(dir, fileName, ext, k)
  }

  /** Different numbers give different names: the unnumbered name is shorter than every
      numbered one, and numbered names differ in their digits. */
  lemma CandidateNameInjective(fileName: string, ext: string, j: nat, k: nat)
    requires CandidateName(fileName, ext, j) == CandidateName(fileName, ext, k)
    ensures j == k
  {
    if j != 0 && k != 0 {
      NumberedNameInjective(fileName, ext, j, k);
    }
  }

  lemma NumberedNameInjective(fileName: string, ext: string, j: nat, k: nat)
    requires j != 0 && k != 0
    requires CandidateName(fileName, ext, j) == CandidateName(fileName, ext, k)
    ensures j == k
  {
    var a, b := NatToString(j), NatToString(k);
    SameDigits(fileName, a, b, ext);
    NatToStringInjective(j, k);
  }

  /** The digits between "_" and "." are read back from the name. */
  lemma SameDigits(fileName: string, a: string, b: string, ext: string)
    requires fileName + "_" + a + "." + ext == fileName + "_" + b + "." + ext
    ensures a == b
  {
    var r := fileName + "_" + a + "." + ext;
    assert |a| == |b|;
    assert a == r[|fileName| + 1..|fileName| + 1 + |a|];
    assert b == (fileName + "_" + b + "." + ext)[|fileName| + 1..|fileName| + 1 + |b|];
  }

  /** Different numbers give different candidate paths. */
  lemma CandidateInjective(dir: string, fileName: string, ext: string, j: nat, k: nat)
    requires fileName != ""
    requires Candidate(dir, fileName, ext, j) == Candidate(dir, fileName, ext, k)
    ensures j == k
  {
    var b, c := CandidateName(fileName, ext, j), CandidateName(fileName, ext, k);
    assert b[0] == fileName[0] && c[0] == fileName[0];
    OsPathJoinInjective(dir, b, c);
    CandidateNameInjective(fileName, ext, j, k);
  }

  /** What `save_list_to_unique_file` records for one text: a path exactly when the text is
      non-empty and the folder can be used, and then a candidate name in `dir` that held no
      file before the list and now holds the text. */
  ghost predicate SavedIn(o: Option<string>, text: string, ready: bool, dir: string, fileName: string,
                          ext: string, before: map<string, string>, now: map<string, string>)
  {
    && (o.Some? <==> text != "" && ready)
    && (o.Some? ==>
          o.value !in before && o.value in now && now[o.value] == text && IsCandidate(dir, fileName, ext, o.value))
  }

  /** The state of `save_list_to_unique_file` after the texts with a result in `names`, on a
      file system that started as `files0`, `dirs0`: each result as `SavedIn` says, saved paths
      pairwise distinct, earlier files kept, no other file, and the folder made once
      something is saved. */
  ghost predicate ListSoFar(texts: seq<string>, names: seq<Option<string>>, ready: bool, dir: string,
                            fileName: string, ext: string, files0: map<string, string>, dirs0: set<string>,
                            files: map<string, string>, dirs: set<string>)
  {
    && |names| <= |texts|
    && (dir in files <==> dir in files0)
    && (forall k | 0 <= k < |names| :: SavedIn(names[k], texts[k], ready, dir, fileName, ext, files0, files))
    && (forall k, l | 0 <= k < l < |names| && names[k].Some? && names[l].Some? :: names[k].value != names[l].value)
    && (forall q | q in files0 :: q in files && files[q] == files0[q])
    && (forall q | q in files :: q in files0 || Some(q) in names)
    && ((exists k | 0 <= k < |names| :: names[k].Some?) ==> dirs == dirs0 + {dir})
    && ((forall k | 0 <= k < |names| :: names[k].None?) ==> dirs == dirs0)
  }

  /** One more text, saved as `save_text_to_unique_file` saves it, keeps `ListSoFar`. */
  lemma ListStep(texts: seq<string>, names: seq<Option<string>>, s: Option<string>, ready: bool, dir: string,
                 fileName: string, ext: string, files0: map<string, string>, dirs0: set<string>,
                 files: map<string, string>, dirs: set<string>, files': map<string, string>, dirs': set<string>)
    requires ListSoFar(texts, names, ready, dir, fileName, ext, files0, dirs0, files, dirs)
    requires |names| < |texts|
    requires s.Some? <==> texts[|names|] != "" && ready
    requires s.None? ==> files' == files && dirs' == dirs
    requires s.Some? ==>
      && s.value !in files && s.value !in dirs'
      && files' == files[s.value := texts[|names|]]
      && dirs' == dirs + {dir}
      && IsCandidate(dir, fileName, ext, s.value)
    ensures ListSoFar(texts, names + [s], ready, dir, fileName, ext, files0, dirs0, files', dirs')
  {
    var names', n := names + [s], |names|;
    assert s.Some? ==> s.value != dir && dir in dirs';
    forall k | 0 <= k < n
      ensures SavedIn(names'[k], texts[k], ready, dir, fileName, ext, files0, files')
    {
      assert names'[k] == names[k];
      assert SavedIn(names[k], texts[k], ready, dir, fileName, ext, files0, files);
      if names[k].Some? && s.Some? {
        assert names[k].value in files;
        assert names[k].value != s.value;
      }
    }
    assert names'[n] == s;
    assert SavedIn(s, texts[n], ready, dir, fileName, ext, files0, files');
    forall k, l | 0 <= k < l < n + 1 && names'[k].Some? && names'[l].Some?
      ensures names'[k].value != names'[l].value
    {
      assert SavedIn(names[k], texts[k], ready, dir, fileName, ext, files0, files);
      if l == n {
        assert names[k].value in files;
      } else {
        assert names'[l] == names[l];
      }
    }
    forall q | q in files0
      ensures q in files' && files'[q] == files0[q]
    {
      assert q in files;
    }
    forall q | q in files'
      ensures q in files0 || Some(q) in names'
    {
      if q in files {
        assert q in files0 || Some(q) in names;
      } else {
        assert names'[n] == Some(q);
      }
    }
    if s.Some? {
      assert names'[n].Some?;
    } else {
      assert forall k | 0 <= k < n + 1 :: names'[k].Some? ==> names[k].Some?;
    }
  }

  /** `f` never gives the same value twice. */
  ghost predicate Injective(f: nat -> string) {
    forall j: nat, k: nat :: f(j) == f(k) ==> j == k
  }

  /** The first `n` values of `f`, as a set. */
  ghost function Image(f: nat -> string, n: nat): set<string> {
    set k | 0 <= k < n :: f(k)
  }

  /** An injective `f` has `n` different first `n` values. */
  lemma {:induction false} ImageCount(f: nat -> string, n: nat)
    requires Injective(f)
    ensures |Image(f, n)| == n
    decreases n
  {
    if n > 0 {
      ImageCount(f, n - 1);
      assert Image(f, n) == Image(f, n - 1) + {f(n - 1)};
    }
  }

  /** Among `|taken| + 1` values of an injective `f` one is not taken. */
  lemma FreeValue(f: nat -> string, taken: set<string>) returns (k: nat)
    requires Injective(f)
    ensures k <= |taken| && f(k) !in taken
  {
    var all := Image(f, |taken| + 1);
    ImageCount(f, |taken| + 1);
    if all <= taken {
      SubsetCard(all, taken);
    }
    var c :| c in all && c !in taken;
    k :| 0 <= k < |taken| + 1 && f(k) == c;
  }

  lemma {:induction false} SubsetCard(a: set<string>, b: set<string>)
    requires a <= b
    ensures |a| <= |b|
    decreases |a|
  {
    if a != {} {
      var x :| x in a;
      SubsetCard(a - {x}, b - {x});
    }
  }

  /** Among the first `|taken| + 1` candidates one is free: the search ends. */
  lemma FreeCandidate(dir: string, fileName: string, ext: string, taken: set<string>) returns (k: nat)
    requires fileName != ""
    ensures k <= |taken| && Candidate(dir, fileName, ext, k) !in taken
  {
    var f := (i: nat) => Candidate(dir, fileName, ext, i);
    forall j: nat, i: nat | f(j) == f(i)
      ensures j == i
    {
      CandidateInjective(dir, fileName, ext, j, i);
    }
    k := FreeValue(f, taken);
    assert f(k) == Candidate(dir, fileName, ext, k);
  }

  /** Why `create_unique_filename` gave up. */
  datatype Failure =
    | EmptyName      // `ValueError`: no directory name or no file name
    | NotADirectory  // `os.makedirs` on a path that is a regular file

  /** The parts of the file system `os.path.exists`, `os.makedirs` and `open` touch. */
  class FileStore {
    /** Regular files and their contents, by path. */
    var files: map<string, string>
    /** Directories, by path. */
    var dirs: set<string>
    /** `os.getcwd()`. */
    const cwd: string

    constructor (cwd0: string, files0: map<string, string>, dirs0: set<string>)
      ensures cwd == cwd0 && files == files0 && dirs == dirs0
    {
      cwd := cwd0;
      files := files0;
      dirs := dirs0;
    }

    /** `os.path.exists`, on the path string as given: no normalisation. */
    predicate Exists(p: string)
      reads this
    {
      p in files || p in dirs
    }

    /** Everything that exists: no path outside it is taken. */
    function Taken(): set<string>
      reads this
    {
      files.Keys + dirs
    }

    /** `os.makedirs(p, exist_ok=True)`: refused when `p` is a regular file. */
    method MakeDirs(p: string) returns (ok: bool)
      modifies this
      ensures ok <==> p !in old(files)
      ensures files == old(files)
      ensures dirs == if ok then old(dirs) + {p} else old(dirs)
    {
      if p in files {
        return false;
      }
      dirs := dirs + {p};
      return true;
    }

    /** `open(p, "w").write(text)` on a path that is not a directory. */
    method Write(p: string, text: string)
      requires p !in dirs
      modifies this
      ensures files == old(files)[p := text] && dirs == old(dirs)
    {
      files := files[p := text];
    }

    /** The `while os.path.exists(...)` loop over the candidates `cand(0)`, `cand(1)`, ...:
        the first free one. Some candidate `cand(free)` is free, so the loop ends. */
    method FindFree(cand: nat -> string, ghost free: nat) returns (path: string)
      requires !Exists(cand(free))
      ensures !Exists(path)
      ensures exists k: nat | k <= free ::
        && path == cand(k)
        && forall j | 0 <= j < k :: Exists(cand(j))
    {
      path := cand(0);
      var num := 1;
      while Exists(path)
        invariant 1 <= num <= free + 1
        invariant path == cand(num - 1)
        invariant forall j | 0 <= j < num - 1 :: Exists(cand(j))
        decreases free + 1 - num
      {
        path := cand(num);
        num := num + 1;
      }
    }

    /** `create_unique_filename`: both names are required, the extension defaults to "md",
        the directory is made under the working directory, and the first free candidate in
        it is returned. */
    method CreateUniqueFilename(dirName: string, fileName: string, ext: string)
      returns (r: Result<string, Failure>)
      modifies this
      ensures dirName == "" || fileName == "" ==> r == Err(EmptyName) && files == old(files) && dirs == old(dirs)
      ensures dirName != "" && fileName != "" && OsPathJoin(cwd, dirName) in old(files) ==>
        r == Err(NotADirectory) && files == old(files) && dirs == old(dirs)
      ensures dirName != "" && fileName != "" && OsPathJoin(cwd, dirName) !in old(files) ==>
        && files == old(files) && dirs == old(dirs) + {OsPathJoin(cwd, dirName)}
        && r.Ok? && !Exists(r.value)
        && exists k: nat ::
          && r.value == Candidate(OsPathJoin(cwd, dirName), fileName, DefaultExt(ext), k)
          && forall j | 0 <= j < k :: Exists(Candidate(OsPathJoin(cwd, dirName), fileName, DefaultExt(ext), j))
    {
      if dirName == "" || fileName == "" {
        return Err(EmptyName);
      }
      var e := DefaultExt(ext);
      var outputDir := OsPathJoin(cwd, dirName);
      var ok := MakeDirs(outputDir);
      if !ok {
        return Err(NotADirectory);
      }
      ghost var free := FreeCandidate(outputDir, fileName, e, Taken());
      var cand := (k: nat) => Candidate(outputDir, fileName, e, k);
      var path := FindFree(cand, free);
      ghost var k: nat :| path == cand(k) && forall j | 0 <= j < k :: Exists(cand(j));
      assert path == Candidate(outputDir, fileName, e, k);
      forall j | 0 <= j < k
        ensures Exists(Candidate(outputDir, fileName, e, j))
      {
        assert Exists(cand(j));
      }
      return Ok(path);
    }

    /** `save_text_to_unique_file`: nothing for an empty text; otherwise spaces in the name
        become "_" and the text goes to a fresh file. Any failure gives `None`. */
    method SaveText(text: string, fileName: string, ext: string, dirName: string) returns (r: Option<string>)
      modifies this
      ensures r.Some? <==> text != "" && dirName != "" && fileName != "" && OsPathJoin(cwd, dirName) !in old(files)
      ensures r.None? ==> files == old(files) && dirs == old(dirs)
      ensures r.Some? ==>
        && r.value !in old(files) && r.value !in dirs
        && files == old(files)[r.value := text]
        && dirs == old(dirs) + {OsPathJoin(cwd, dirName)}
      ensures r.Some? ==>
        IsCandidate(OsPathJoin(cwd, dirName), SpacesToUnderscores(fileName), DefaultExt(ext), r.value)
    {
      if text == "" {
        return None;
      }
      var name := SpacesToUnderscores(fileName);
      SpacesToUnderscoresEmpty(fileName);
      var path := CreateUniqueFilename(dirName, name, ext);
      if path.Err? {
        return None;
      }
      Write(path.value, text);
      return Some(path.value);
    }

    /** `save_list_to_unique_file`: nothing for an empty list; otherwise one result per text,
        in order. A text is saved exactly when `save_text_to_unique_file` would save it on the
        file system as it was before the list, each saved text in a file of its own, named as
        `create_unique_filename` names it in the given folder, and no other file changes. */
    method SaveList(texts: seq<string>, fileName: string, ext: string, dirName: string)
      returns (r: Option<seq<Option<string>>>)
      modifies this
      ensures r.None? <==> texts == []
      ensures r.None? ==> files == old(files) && dirs == old(dirs)
      ensures r.Some? ==> |r.value| == |texts|
      ensures r.Some? ==> forall k | 0 <= k < |texts| ::
        r.value[k].Some? <==>
          texts[k] != "" && dirName != "" && fileName != "" && OsPathJoin(cwd, dirName) !in old(files)
      ensures r.Some? ==> forall k | 0 <= k < |texts| && r.value[k].Some? ::
        r.value[k].value !in old(files) && r.value[k].value in files && files[r.value[k].value] == texts[k]
      ensures r.Some? ==> forall k | 0 <= k < |texts| && r.value[k].Some? ::
        IsCandidate(OsPathJoin(cwd, dirName), SpacesToUnderscores(fileName), DefaultExt(ext), r.value[k].value)
      ensures r.Some? ==> forall k, l | 0 <= k < l < |texts| && r.value[k].Some? && r.value[l].Some? ::
        r.value[k].value != r.value[l].value
      ensures forall q | q in old(files) :: q in files && files[q] == old(files)[q]
      ensures r.Some? ==> forall q | q in files :: q in old(files) || Some(q) in r.value
      ensures r.Some? && (exists k | 0 <= k < |texts| :: r.value[k].Some?) ==>
        dirs == old(dirs) + {OsPathJoin(cwd, dirName)}
      ensures r.Some? && (forall k | 0 <= k < |texts| :: r.value[k].None?) ==> dirs == old(dirs)
    {
      if texts == [] {
        return None;
      }
      ghost var dir := OsPathJoin(cwd, dirName);
      ghost var ready := dirName != "" && fileName != "" && dir !in old(files);
      ghost var name, e := SpacesToUnderscores(fileName), DefaultExt(ext);
      var names: seq<Option<string>> := [];
      while |names| < |texts|
        invariant ListSoFar(texts, names, ready, dir, name, e, old(files), old(dirs), files, dirs)
        decreases |texts| - |names|
      {
        ghost var before, dirsBefore := files, dirs;
        var s := SaveText(texts[|names|], fileName, ext, dirName);
        ListStep(texts, names, s, ready, dir, name, e, old(files), old(dirs), before, dirsBefore, files, dirs);
        names := names + [s];
      }
      return Some(names);
    }
  }

  /** An empty extension means "md". */
  function DefaultExt(ext: string): (e: string)
    ensures e != ""
    ensures ext != "" ==> e == ext
  {
    if ext == "" then "md" else ext
  }

  /** `file_name.replace(" ", "_")`. */
  function SpacesToUnderscores(fileName: string): (r: string)
    ensures |r| == |fileName| && ' ' !in r
    ensures forall i | 0 <= i < |fileName| :: r[i] == if fileName[i] == ' ' then '_' else fileName[i]
  {
    ReplaceCharPointwise(fileName, ' ', '_');
    Replace(fileName, " ", "_")
  }

  lemma SpacesToUnderscoresEmpty(fileName: string)
    ensures SpacesToUnderscores(fileName) == "" <==> fileName == ""
  {
  }
}
