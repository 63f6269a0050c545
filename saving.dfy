/** What the saving loop of a crawl leaves behind, for any sequence of saves: each element is
    either nothing (a failed page) or a file to write with its content and its list element. */
module Saving {
  import opened Wrappers
  import opened Paths

  /** An element of the returned list: `{"url", "depth", "file"}`. */
  datatype Entry = Entry(url: string, depth: int, file: string)

  /** One page's save: the file, what goes in it, and its list element. */
  datatype Save = Save(file: Path, content: string, entry: Entry)

  /** The list after `saves`. */
  function Listed(saves: seq<Option<Save>>): seq<Entry>
    decreases |saves|
  {
    if |saves| == 0 then []
    else
      var before := Listed(saves[..|saves| - 1]);
      match saves[|saves| - 1]
      case None => before
      case Some(s) => before + [s.entry]
  }

  /** The files after `saves` have been written over `files`. */
  function WrittenBy(files: map<Path, string>, saves: seq<Option<Save>>): map<Path, string>
    decreases |saves|
  {
    if |saves| == 0 then files
    else
      var before := WrittenBy(files, saves[..|saves| - 1]);
      match saves[|saves| - 1]
      case None => before
      case Some(s) => before[s.file := s.content]
  }

  /** The directories after `saves`: each file's directory is made with its ancestors. */
  function MadeBy(dirs: set<Path>, saves: seq<Option<Save>>): set<Path>
    decreases |saves|
  {
    if |saves| == 0 then dirs
    else
      var before := MadeBy(dirs, saves[..|saves| - 1]);
      match saves[|saves| - 1]
      case None => before
      case Some(s) => before + AncestorsOrSelf(Parent(s.file))
  }

  /** The saves that happen, in order: the reference the list is checked against. */
  function Done(saves: seq<Option<Save>>): (r: seq<Save>)
    ensures |r| <= |saves|
    decreases |saves|
  {
    if |saves| == 0 then []
    else (match saves[0] case None => [] case Some(s) => [s]) + Done(saves[1..])
  }

  lemma {:induction false} DoneAppend(a: seq<Option<Save>>, b: seq<Option<Save>>)
    ensures Done(a + b) == Done(a) + Done(b)
    decreases |a|
  {
    if |a| == 0 {
      assert a + b == b;
    } else {
      DoneAppend(a[1..], b);
      assert (a + b)[0] == a[0] && (a + b)[1..] == a[1..] + b;
      var h := match a[0] case None => [] case Some(s) => [s];
      assert Done(a + b) == h + Done(a[1..] + b);
      assert Done(a) == h + Done(a[1..]);
    }
  }

  /** One list element per save that happens, in order. */
  lemma {:induction false} ListedAreDone(saves: seq<Option<Save>>)
    ensures |Listed(saves)| == |Done(saves)|
    ensures forall k | 0 <= k < |Done(saves)| :: Listed(saves)[k] == Done(saves)[k].entry
    decreases |saves|
  {
    if |saves| > 0 {
      var n := |saves| - 1;
      var front := saves[..n];
      ListedAreDone(front);
      DoneAppend(front, [saves[n]]);
      assert front + [saves[n]] == saves;
      assert Done([saves[n]]) == match saves[n] case None => [] case Some(s) => [s];
    }
  }

  /** The list of concatenated saves is the concatenation of the lists. */
  lemma {:induction false} ListedAppend(a: seq<Option<Save>>, b: seq<Option<Save>>)
    ensures Listed(a + b) == Listed(a) + Listed(b)
    decreases |b|
  {
    if |b| == 0 {
      assert a + b == a;
    } else {
      var n := |b| - 1;
      ListedAppend(a, b[..n]);
      assert (a + b)[..|a + b| - 1] == a + b[..n];
      assert (a + b)[|a + b| - 1] == b[n];
    }
  }

  /** A path no save writes keeps what it had, and stays absent if it was absent. */
  lemma {:induction false} WrittenUntouched(files: map<Path, string>, saves: seq<Option<Save>>, q: Path)
    requires forall k | 0 <= k < |saves| :: saves[k].Some? ==> saves[k].value.file != q
    ensures (q in WrittenBy(files, saves)) == (q in files)
    ensures q in files ==> WrittenBy(files, saves)[q] == files[q]
    decreases |saves|
  {
    if |saves| > 0 {
      WrittenUntouched(files, saves[..|saves| - 1], q);
    }
  }

  /** The last write wins: a save that no later save shares a file with leaves its content. */
  lemma {:induction false} WrittenLastWins(files: map<Path, string>, saves: seq<Option<Save>>, i: nat)
    requires i < |saves| && saves[i].Some?
    requires forall k | i < k < |saves| :: saves[k].Some? ==> saves[k].value.file != saves[i].value.file
    ensures saves[i].value.file in WrittenBy(files, saves)
    ensures WrittenBy(files, saves)[saves[i].value.file] == saves[i].value.content
    decreases |saves|
  {
    if i < |saves| - 1 {
      WrittenLastWins(files, saves[..|saves| - 1], i);
    }
  }

  /** Every earlier file stays, and every saved file is there. */
  lemma {:induction false} WrittenKeys(files: map<Path, string>, saves: seq<Option<Save>>)
    ensures files.Keys <= WrittenBy(files, saves).Keys
    ensures forall k | 0 <= k < |saves| && saves[k].Some? :: saves[k].value.file in WrittenBy(files, saves)
    ensures forall q | q in WrittenBy(files, saves) && q !in files ::
      exists k | 0 <= k < |saves| :: saves[k].Some? && saves[k].value.file == q
    decreases |saves|
  {
    if |saves| > 0 {
      var n := |saves| - 1;
      WrittenKeys(files, saves[..n]);
      forall q | q in WrittenBy(files, saves) && q !in files
        ensures exists k | 0 <= k < |saves| :: saves[k].Some? && saves[k].value.file == q
      {
        if q in WrittenBy(files, saves[..n]) {
          var k :| 0 <= k < n && saves[..n][k].Some? && saves[..n][k].value.file == q;
          assert saves[k] == saves[..n][k];
        } else {
          assert saves[n].Some? && saves[n].value.file == q;
        }
      }
    }
  }

  /** One more save: the list, the files and the directories after `saves[..i + 1]`. */
  lemma Step(files: map<Path, string>, dirs: set<Path>, saves: seq<Option<Save>>, i: nat)
    requires i < |saves|
    ensures saves[i].None? ==>
      && Listed(saves[..i + 1]) == Listed(saves[..i])
      && WrittenBy(files, saves[..i + 1]) == WrittenBy(files, saves[..i])
      && MadeBy(dirs, saves[..i + 1]) == MadeBy(dirs, saves[..i])
    ensures saves[i].Some? ==>
      var s := saves[i].value;
      && Listed(saves[..i + 1]) == Listed(saves[..i]) + [s.entry]
      && WrittenBy(files, saves[..i + 1]) == WrittenBy(files, saves[..i])[s.file := s.content]
      && MadeBy(dirs, saves[..i + 1]) == MadeBy(dirs, saves[..i]) + AncestorsOrSelf(Parent(s.file))
  {
    assert saves[..i + 1][..i] == saves[..i];
  }
}
