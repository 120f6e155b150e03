/** The upload script: every gzipped symbol file under the local symbol
    store that changed since the last run is unpacked into a temporary zip
    archive with an index, the archive is copied to the symbol server with
    `scp` and unpacked there with `ssh`, and the start time of the run is
    recorded for the next one. */
module Upload {
  import opened Wrappers
  import opened PyStr
  import opened Symbols

  /** The local store as the script sees it: the `os.walk` listing of a
      root as (directory, file) pairs, `os.stat(path).st_mtime`, and
      `gzip.open(path).read()` (`None` where the file is not gzip data). */
  datatype Store = Store(walk: string -> seq<(string, string)>, mtime: string -> real, gunzip: string -> Option<string>)

  /** Whether `scp` and the remote unpack command run by `ssh` exit with status 0. */
  datatype Remote = Remote(scpOk: bool, sshOk: bool)

  /** The module-level normalisation of `local_symbol_path`: a trailing
      slash is appended when missing. */
  function NormalizeRoot(path: string): (r: string)
    ensures EndsWith(r, "/") && StartsWith(r, path)
    ensures EndsWith(path, "/") <==> r == path
    ensures !EndsWith(path, "/") ==> r == path + "/"
  {
    if EndsWith(path, "/") then path else path + "/"
  }

  lemma NormalizeRootIdempotent(path: string)
    ensures NormalizeRoot(NormalizeRoot(path)) == NormalizeRoot(path)
  {
  }

  /** `last_run is None or os.stat(fullpath).st_mtime > last_run`. */
  predicate Selected(lastRun: Option<real>, mtime: real) {
    lastRun.None? || mtime > lastRun.value
  }

  /** A file modified exactly at the recorded time is not selected again. */
  lemma SelectionIsStrict(t: real, mtime: real)
    ensures Selected(Some(t), mtime) <==> mtime > t
    ensures !Selected(Some(t), t)
  {
  }

  /** `fullpath[len(local_symbol_path):-3]`: the path relative to the
      store, without its `.gz` suffix. */
  function ZipName(root: string, fullpath: string): (r: string)
    ensures |r| <= |fullpath|
  {
    Slice(fullpath, |root|, -3)
  }

  lemma ZipNameStripsRootAndSuffix(root: string, rel: string)
    ensures ZipName(root, root + rel + ".gz") == rel
  {
    var s := root + rel + ".gz";
    assert s[|root|..|root| + |rel|] == rel;
  }

  lemma GzNoLeadingSlash(name: string)
    requires !StartsWith(name, "/")
    ensures !StartsWith(name + ".gz", "/")
  {
    if name == "" {
      assert (name + ".gz")[..1] == ".";
    } else {
      assert (name + ".gz")[..1] == name[..1];
    }
  }

  /** A file directly in the store root is archived under its own name. */
  lemma ZipNameAtTop(root: string, name: string)
    requires EndsWith(root, "/") && !StartsWith(name, "/")
    ensures ZipName(root, PathJoin(root, name + ".gz")) == name
  {
    GzNoLeadingSlash(name);
    assert PathJoin(root, name + ".gz") == root + name + ".gz";
    ZipNameStripsRootAndSuffix(root, name);
  }

  /** A file in a subdirectory of the store is archived under `sub/name`. */
  lemma ZipNameBelow(root: string, sub: string, name: string)
    requires EndsWith(root, "/") && sub != "" && !EndsWith(sub, "/") && !StartsWith(name, "/")
    ensures ZipName(root, PathJoin(root + sub, name + ".gz")) == sub + "/" + name
  {
    var dir := root + sub;
    assert dir[|dir| - 1..] == sub[|sub| - 1..];
    GzNoLeadingSlash(name);
    PathJoinPlain(dir, name + ".gz");
    assert dir + "/" + (name + ".gz") == root + (sub + "/" + name) + ".gz";
    ZipNameStripsRootAndSuffix(root, sub + "/" + name);
  }

  /** The reference selection: the visited paths modified since `lastRun`, in walk order. */
  function Fresh(paths: seq<string>, lastRun: Option<real>, store: Store): seq<string> {
    if paths == [] then []
    else
      var prev := Fresh(paths[..|paths| - 1], lastRun, store);
      var p := paths[|paths| - 1];
      if Selected(lastRun, store.mtime(p)) then prev + [p] else prev
  }

  /** The archive entries the walk loop writes before the index, or the
      error of the first selected file that is not gzip data. */
  function Gathered(paths: seq<string>, root: string, lastRun: Option<real>, store: Store): Result<seq<Entry>, PyException>
  {
    if paths == [] then Success([])
    else
      match Gathered(paths[..|paths| - 1], root, lastRun, store)
      case Failure(e) => Failure(e)
      case Success(prev) =>
        var p := paths[|paths| - 1];
        if !Selected(lastRun, store.mtime(p)) then Success(prev)
        else
          match store.gunzip(p)
          case None => Failure(IOError)
          case Some(data) => Success(prev + [Entry(ZipName(root, p), data)])
  }

  /** `file_index` gets one entry per selected file, in walk order, and
      each entry is the decompressed file under its relative name. */
  lemma {:induction false} GatheredMatchesFresh(paths: seq<string>, root: string, lastRun: Option<real>, store: Store)
    requires Gathered(paths, root, lastRun, store).Success?
    ensures var es := Gathered(paths, root, lastRun, store).value;
            var sel := Fresh(paths, lastRun, store);
            && |es| == |sel|
            && forall k :: 0 <= k < |es| ==> es[k].name == ZipName(root, sel[k]) && store.gunzip(sel[k]) == Some(es[k].data)
  {
    if paths != [] {
      GatheredMatchesFresh(paths[..|paths| - 1], root, lastRun, store);
    }
  }

  /** The loop fails exactly when a selected file is not gzip data. */
  lemma {:induction false} GatheredFailsIff(paths: seq<string>, root: string, lastRun: Option<real>, store: Store)
    ensures Gathered(paths, root, lastRun, store).Failure? <==>
              exists k :: 0 <= k < |paths| && Selected(lastRun, store.mtime(paths[k])) && store.gunzip(paths[k]).None?
    ensures Gathered(paths, root, lastRun, store).Failure? ==> Gathered(paths, root, lastRun, store).error == IOError
  {
    if paths != [] {
      var init := paths[..|paths| - 1];
      GatheredFailsIff(init, root, lastRun, store);
      assert forall k :: 0 <= k < |init| ==> init[k] == paths[k];
      if exists k :: 0 <= k < |paths| && Selected(lastRun, store.mtime(paths[k])) && store.gunzip(paths[k]).None? {
        var k :| 0 <= k < |paths| && Selected(lastRun, store.mtime(paths[k])) && store.gunzip(paths[k]).None?;
        if k < |init| {
          assert Selected(lastRun, store.mtime(init[k])) && store.gunzip(init[k]).None?;
        }
      }
    }
  }

  /** Run again from the recorded time over a store nothing touched since,
      the script selects nothing. */
  lemma {:induction false} NothingNewSinceLastRun(paths: seq<string>, root: string, t: real, store: Store)
    requires forall k :: 0 <= k < |paths| ==> store.mtime(paths[k]) <= t
    ensures Gathered(paths, root, Some(t), store) == Success([])
  {
    if paths != [] {
      var init := paths[..|paths| - 1];
      assert forall k :: 0 <= k < |init| ==> init[k] == paths[k];
      NothingNewSinceLastRun(init, root, t, store);
    }
  }

  /** What the run did: the archive copied with `scp`, the index name the
      remote unpack ran with, and the exception that escaped `main`, if any. */
  datatype RunOutcome = RunOutcome(copied: Option<seq<Entry>>, unpacked: Option<string>, error: Option<PyException>)

  /** The body of `main` between the walk and the last-run update. */
  function Plan(root: string, lastRun: Option<real>, store: Store, remote: Remote, indexName: string): RunOutcome
  {
    match Gathered(WalkPaths(store.walk(root)), root, lastRun, store)
    case Failure(e) => RunOutcome(None, None, Some(e))
    case Success(entries) =>
      if entries == [] then RunOutcome(None, None, None)
      else
        var archive := entries + [Entry(indexName, Manifest(Names(entries)))];
        if !remote.scpOk then RunOutcome(None, None, Some(CalledProcessError))
        else if !remote.sshOk then RunOutcome(Some(archive), None, Some(CalledProcessError))
        else RunOutcome(Some(archive), Some(indexName), None)
  }

  /** No index and no upload without a selected file; the run still ends normally. */
  lemma NoUploadWithoutSelection(root: string, lastRun: Option<real>, store: Store, remote: Remote, indexName: string)
    requires Gathered(WalkPaths(store.walk(root)), root, lastRun, store) == Success([])
    ensures Plan(root, lastRun, store, remote, indexName) == RunOutcome(None, None, None)
  {
  }

  /** Whatever is copied holds the selected entries followed by the index,
      which lists their names one per line. */
  lemma CopiedArchiveShape(root: string, lastRun: Option<real>, store: Store, remote: Remote, indexName: string)
    requires Plan(root, lastRun, store, remote, indexName).copied.Some?
    ensures var archive := Plan(root, lastRun, store, remote, indexName).copied.value;
            var g := Gathered(WalkPaths(store.walk(root)), root, lastRun, store);
            && g.Success? && g.value != []
            && archive == g.value + [Entry(indexName, Join(Names(g.value), "\n"))]
            && remote.scpOk
  {
  }

  /** The index lists the archived names one per line, read back by splitting on newlines. */
  lemma IndexListsNames(entries: seq<Entry>)
    requires entries != [] && forall k :: 0 <= k < |entries| ==> '\n' !in entries[k].name
    ensures Split(Manifest(Names(entries)), '\n') == Names(entries)
  {
    ManifestLines(Names(entries));
  }

  /** The remote unpack runs only after a successful copy of a non-empty archive. */
  lemma UnpackNeedsCopy(root: string, lastRun: Option<real>, store: Store, remote: Remote, indexName: string)
    ensures Plan(root, lastRun, store, remote, indexName).unpacked.Some? ==>
              Plan(root, lastRun, store, remote, indexName).copied.Some? && remote.sshOk
              && Plan(root, lastRun, store, remote, indexName).error.None?
  {
  }

  /** The script's persistent state: the `last-run` file (`None` while it
      does not exist) and what has reached the symbol server. */
  class Uploader {
    var lastRunFile: Option<real>
    var copied: seq<seq<Entry>>
    var unpacked: seq<string>

    constructor (lastRunFile: Option<real>)
      ensures this.lastRunFile == lastRunFile && copied == [] && unpacked == []
    {
      this.lastRunFile := lastRunFile;
      copied := [];
      unpacked := [];
    }

    /** One run of `main` at time `currentTime`: the last-run file is read,
        the store walked, the archive uploaded when non-empty, and the
        last-run file overwritten with `currentTime` unless an exception escaped. */
    method Run(localSymbolPath: string, currentTime: real, indexName: string, store: Store, remote: Remote)
      returns (error: Option<PyException>)
      modifies this
      ensures var o := Plan(NormalizeRoot(localSymbolPath), old(lastRunFile), store, remote, indexName);
              && error == o.error
              && copied == old(copied) + (if o.copied.Some? then [o.copied.value] else [])
              && unpacked == old(unpacked) + (if o.unpacked.Some? then [o.unpacked.value] else [])
              && lastRunFile == (if error.None? then Some(currentTime) else old(lastRunFile))
    {
      var root := NormalizeRoot(localSymbolPath);
      var gathered, fileIndex := Walk(root, lastRunFile, store);
      if gathered.Failure? {
        return Some(gathered.error);
      }
      var zip := gathered.value;
      if fileIndex != [] {
        zip := zip + [Entry(indexName, Manifest(fileIndex))];
        if !remote.scpOk {
          return Some(CalledProcessError);
        }
        copied := copied + [zip];
        if !remote.sshOk {
          return Some(CalledProcessError);
        }
        unpacked := unpacked + [indexName];
      }
      lastRunFile := Some(currentTime);
      error := None;
    }
  }

  /** The `os.walk` loop of `main`: each file modified since `lastRun` is
      gunzipped into the archive under its zip name and listed in
      `file_index`; a file that is not gzip data ends the loop with IOError. */
  method Walk(root: string, lastRun: Option<real>, store: Store)
    returns (gathered: Result<seq<Entry>, PyException>, fileIndex: seq<string>)
    ensures gathered == Gathered(WalkPaths(store.walk(root)), root, lastRun, store)
    ensures gathered.Success? ==> fileIndex == Names(gathered.value)
  {
    var paths := WalkPaths(store.walk(root));
    var zip: seq<Entry> := [];
    fileIndex := [];
    var i := 0;
    while i < |paths|
      invariant 0 <= i <= |paths|
      invariant Gathered(paths[..i], root, lastRun, store) == Success(zip)
      invariant fileIndex == Names(zip)
    {
      assert paths[..i + 1][..i] == paths[..i];
      var fullpath := paths[i];
      if Selected(lastRun, store.mtime(fullpath)) {
        var zipname := ZipName(root, fullpath);
        var data := store.gunzip(fullpath);
        if data.None? {
          GatheredFailurePersists(paths, i + 1, root, lastRun, store);
          return Failure(IOError), fileIndex;
        }
        NamesSnoc(zip, Entry(zipname, data.value));
        zip := zip + [Entry(zipname, data.value)];
        fileIndex := fileIndex + [zipname];
      }
      i := i + 1;
    }
    assert paths[..i] == paths;
    gathered := Success(zip);
  }

  /** Once a prefix of the walk fails, the whole loop fails the same way. */
  lemma {:induction false} GatheredFailurePersists(paths: seq<string>, n: nat, root: string, lastRun: Option<real>, store: Store)
    requires n <= |paths| && Gathered(paths[..n], root, lastRun, store).Failure?
    ensures Gathered(paths, root, lastRun, store) == Gathered(paths[..n], root, lastRun, store)
    decreases |paths| - n
  {
    if n < |paths| {
      assert paths[..n + 1][..n] == paths[..n];
      GatheredFailurePersists(paths, n + 1, root, lastRun, store);
    } else {
      assert paths[..n] == paths;
    }
  }
}
