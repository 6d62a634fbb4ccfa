/**
 * Discovery: which files of the directory walk qualify, under which group
 * key and with which relative path. The walk itself (`os.walk` from the
 * working directory) is an input: one `WalkStep` per directory it visits,
 * in the order it visits them, each with the file names it lists there.
 */
module Discovery {
  import opened FileNames

  /** A directory of the walk: the scan root itself, or a directory under it. */
  datatype Dir = ScanRoot | Subdir(path: string)

  /** One `(root, dirs, files)` triple of the walk; the sub-directory list only steers the walk. */
  datatype WalkStep = WalkStep(dir: Dir, files: seq<string>)

  /** A qualifying file: its group key, its path relative to the scan root, and its name. */
  datatype Found = Found(key: string, path: string, name: string)

  /**
   * A directory as the walk reports it relative to the scan root: a
   * sub-directory's relative path is neither empty nor ".".
   */
  predicate WellFormedDir(d: Dir)
  {
    d.Subdir? ==> d.path != "" && d.path != "."
  }

  /** The group key: "." for the scan root, otherwise the directory's relative path. */
  function GroupKey(d: Dir): string
  {
    match d
    case ScanRoot => "."
    case Subdir(path) => path
  }

  /** The file's path relative to the scan root, with '/' as separator. */
  function RelativePath(d: Dir, name: string): string
  {
    match d
    case ScanRoot => name
    case Subdir(path) => path + "/" + name
  }

  /** The key is "." exactly for files directly in the scan root. */
  lemma GroupKeyIsDotIffRoot(d: Dir)
    requires WellFormedDir(d)
    ensures GroupKey(d) == "." <==> d == ScanRoot
  {
  }

  /** The qualifying files among `files`, listed in `d`, in listing order. */
  function FoundIn(d: Dir, files: seq<string>): (r: seq<Found>)
    ensures |r| <= |files|
    ensures forall k :: 0 <= k < |r| ==>
              && r[k].key == GroupKey(d)
              && r[k].path == RelativePath(d, r[k].name)
              && r[k].name in files
              && IsPdf(r[k].name)
  {
    if files == [] then []
    else
      var name := files[|files| - 1];
      FoundIn(d, files[..|files| - 1])
      + (if IsPdf(name) then [Found(GroupKey(d), RelativePath(d, name), name)] else [])
  }

  /** Every qualifying file of the walk, in walk order, duplicates included. */
  function Discover(walk: seq<WalkStep>): seq<Found>
  {
    if walk == [] then []
    else Discover(walk[..|walk| - 1]) + FoundIn(walk[|walk| - 1].dir, walk[|walk| - 1].files)
  }

  /** How many of `files` qualify. */
  function CountPdf(files: seq<string>): nat
  {
    if files == [] then 0 else (if IsPdf(files[0]) then 1 else 0) + CountPdf(files[1..])
  }

  /** How many files of the whole walk qualify. */
  function QualifyingFiles(walk: seq<WalkStep>): nat
  {
    if walk == [] then 0 else CountPdf(walk[0].files) + QualifyingFiles(walk[1..])
  }

  lemma {:induction false} CountPdfSnoc(files: seq<string>, name: string)
    ensures CountPdf(files + [name]) == CountPdf(files) + if IsPdf(name) then 1 else 0
  {
    if files != [] {
      assert (files + [name])[1..] == files[1..] + [name];
      CountPdfSnoc(files[1..], name);
    }
  }

  lemma {:induction false} QualifyingFilesSnoc(walk: seq<WalkStep>, step: WalkStep)
    ensures QualifyingFiles(walk + [step]) == QualifyingFiles(walk) + CountPdf(step.files)
  {
    if walk != [] {
      assert (walk + [step])[1..] == walk[1..] + [step];
      QualifyingFilesSnoc(walk[1..], step);
    } else {
      assert [step][1..] == [];
    }
  }

  /** Each directory contributes one found file per qualifying name. */
  lemma {:induction false} FoundInCount(d: Dir, files: seq<string>)
    ensures |FoundIn(d, files)| == CountPdf(files)
  {
    if files != [] {
      var init := files[..|files| - 1];
      FoundInCount(d, init);
      assert files == init + [files[|files| - 1]];
      CountPdfSnoc(init, files[|files| - 1]);
    }
  }

  /**
   * Nothing is dropped and nothing is added: the walk yields exactly as many
   * found files as it lists qualifying names, two files with the same name
   * counting twice.
   */
  lemma {:induction false} DiscoverCount(walk: seq<WalkStep>)
    ensures |Discover(walk)| == QualifyingFiles(walk)
  {
    if walk != [] {
      var init, last := walk[..|walk| - 1], walk[|walk| - 1];
      DiscoverCount(init);
      FoundInCount(last.dir, last.files);
      assert walk == init + [last];
      QualifyingFilesSnoc(init, last);
    }
  }

  /** The file `walk[i].files[j]` as discovery records it. */
  function FoundAt(walk: seq<WalkStep>, i: nat, j: nat): Found
    requires i < |walk| && j < |walk[i].files|
  {
    var name := walk[i].files[j];
    Found(GroupKey(walk[i].dir), RelativePath(walk[i].dir, name), name)
  }

  /** Every qualifying name listed in `files` is found. */
  lemma {:induction false} FoundInComplete(d: Dir, files: seq<string>, j: nat)
    requires j < |files| && IsPdf(files[j])
    ensures Found(GroupKey(d), RelativePath(d, files[j]), files[j]) in FoundIn(d, files)
  {
    if j < |files| - 1 {
      FoundInComplete(d, files[..|files| - 1], j);
    }
  }

  /** No qualifying file is missed: it is found with its directory's key and its path joined to that directory. */
  lemma {:induction false} DiscoverComplete(walk: seq<WalkStep>)
    ensures forall i, j :: 0 <= i < |walk| && 0 <= j < |walk[i].files| && IsPdf(walk[i].files[j]) ==>
              FoundAt(walk, i, j) in Discover(walk)
  {
    if walk != [] {
      var n := |walk| - 1;
      var init, last := walk[..n], walk[n];
      DiscoverComplete(init);
      forall i, j | 0 <= i < |walk| && 0 <= j < |walk[i].files| && IsPdf(walk[i].files[j])
        ensures FoundAt(walk, i, j) in Discover(walk)
      {
        if i < n {
          assert FoundAt(walk, i, j) == FoundAt(init, i, j);
        } else {
          FoundInComplete(last.dir, last.files, j);
        }
      }
    }
  }

  /** Nothing else is found: every found file is some qualifying file of the walk. */
  lemma {:induction false} DiscoverSound(walk: seq<WalkStep>)
    ensures forall f :: f in Discover(walk) ==>
              exists i, j :: 0 <= i < |walk| && 0 <= j < |walk[i].files| && f == FoundAt(walk, i, j)
                             && IsPdf(f.name)
  {
    if walk != [] {
      var n := |walk| - 1;
      var init, last := walk[..n], walk[n];
      DiscoverSound(init);
      forall f | f in Discover(walk)
        ensures exists i, j :: 0 <= i < |walk| && 0 <= j < |walk[i].files| && f == FoundAt(walk, i, j)
                               && IsPdf(f.name)
      {
        if f in Discover(init) {
          var i, j :| 0 <= i < |init| && 0 <= j < |init[i].files| && f == FoundAt(init, i, j) && IsPdf(f.name);
          assert FoundAt(walk, i, j) == FoundAt(init, i, j);
        } else {
          assert f in FoundIn(last.dir, last.files);
          var j :| 0 <= j < |last.files| && last.files[j] == f.name;
          assert f == FoundAt(walk, n, j);
        }
      }
    }
  }
}
