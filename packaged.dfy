/** The packaged gatherer (the `gathersymbols` console script): it scans
    the given paths or the system library directories, submits one dump job
    per (file, architecture) to a worker pool, and archives each new symbol
    file once, in whatever order the jobs complete. */
module PackagedGather {
  import opened Wrappers
  import opened PyStr
  import opened Symbols

  /** SYSTEM_DIRS. */
  function SystemDirs(platform: string): seq<string> {
    if platform == "darwin" then ["/usr/lib", "/System/Library/Frameworks", "/System/Library/PrivateFrameworks"]
    else ["/lib", "/usr/lib"]
  }

  /** The paths `main` hands to `process_paths`: the files named on the
      command line, or the system library directories when none are named.
      Either way there is something to scan, and the defaults are absolute. */
  function ScanRoots(files: seq<string>, platform: string): (r: seq<string>)
    ensures r != []
    ensures files != [] ==> r == files
    ensures files == [] ==> forall k :: 0 <= k < |r| ==> StartsWith(r[k], "/")
  {
    if files != [] then files else SystemDirs(platform)
  }

  /** `should_process`: the `file` utility's description of a candidate
      decides, with no gate on name or permissions in this revision. */
  function ShouldProcess(platform: string, description: string): (ok: bool)
    ensures ok <==> StartsWith(description, ObjectMagic(platform))
    ensures platform != "darwin" ==> (ok <==> StartsWith(description, "ELF"))
  {
    if platform == "darwin" then StartsWith(description, "Mach-O")
    else StartsWith(description, "ELF")
  }

  /** `server_has_file`: present only on status 200; a failed request is
      caught and counts as absent. */
  function ServerHasFile(response: HeadResponse): (has: bool)
    ensures has ==> response.Status?
    ensures response.RequestFailed? ==> !has
    ensures response.Status? ==> (has <==> response.code == 200)
  {
    match response
    case Status(code) => code == 200
    case RequestFailed => false
  }

  /** `process_file` with the dumper at `dumpSyms`. */
  function ProcessFile(dumpSyms: string, platform: string, path: string, arch: Option<string>,
                       missing: Option<set<SymbolKey>>, host: Host, head: string -> HeadResponse): (r: JobOutcome)
    ensures DumpArgs(dumpSyms, platform, path, arch).Failure? ==> r == Raised(TypeError)
    ensures DumpArgs(dumpSyms, platform, path, arch).Success? ==>
              var run := host.dump(DumpArgs(dumpSyms, platform, path, arch).value);
              && (r.Accepted? ==> Admits(run, missing, head, r.name) && r.contents == run.stdout)
              && (forall name :: Admits(run, missing, head, name) ==> r == Accepted(name, run.stdout))
              && (r.Raised? <==> run.exitCode == 0 && run.stdout == "")
              && (r.Raised? ==> r.error == IndexError)
  {
    match DumpArgs(dumpSyms, platform, path, arch)
    case Failure(e) => Raised(e)
    case Success(argv) =>
      match Extract(host.dump(argv), missing)
      case NotFound => Rejected
      case ExtractRaised(e) => Raised(e)
      case Found(m, stdout) =>
        var name := SymbolFileName(m.debugFile, m.debugId);
        if ServerHasFile(head(name)) then Rejected else Accepted(name, stdout)
  }

  /** An accepted outcome always passes `if filename and contents`. */
  lemma AcceptedIsTruthy(dumpSyms: string, platform: string, path: string, arch: Option<string>,
                         missing: Option<set<SymbolKey>>, host: Host, head: string -> HeadResponse)
    requires ProcessFile(dumpSyms, platform, path, arch, missing, host, head).Accepted?
    ensures Truthy(ProcessFile(dumpSyms, platform, path, arch, missing, host, head))
  {
  }

  /** A record outside a non-empty allow-list is rejected before the server
      is asked: the outcome is the same whatever the server would say. */
  lemma FilteredNeverProbes(dumpSyms: string, platform: string, path: string, arch: Option<string>,
                            keys: set<SymbolKey>, host: Host, head1: string -> HeadResponse, head2: string -> HeadResponse)
    requires keys != {}
    requires DumpArgs(dumpSyms, platform, path, arch).Success?
    requires var run := host.dump(DumpArgs(dumpSyms, platform, path, arch).value);
             && run.exitCode == 0 && run.stdout != ""
             && var p := ParseModuleLine(SplitLines(run.stdout)[0]); p.Some? && Key(p.value) !in keys
    ensures ProcessFile(dumpSyms, platform, path, arch, Some(keys), host, head1) == Rejected
    ensures ProcessFile(dumpSyms, platform, path, arch, Some(keys), host, head2) == Rejected
  {
  }

  /** No allow-list and an empty one behave alike. */
  lemma EmptyFilterIsNoFilter(dumpSyms: string, platform: string, path: string, arch: Option<string>,
                              host: Host, head: string -> HeadResponse)
    ensures ProcessFile(dumpSyms, platform, path, arch, None, host, head)
         == ProcessFile(dumpSyms, platform, path, arch, Some({}), host, head)
  {
  }

  /** The probe-failure policy: a request that fails counts as "not on the
      server", so the symbol file is archived. */
  lemma ProbeFailureArchives(dumpSyms: string, platform: string, path: string, arch: Option<string>,
                             missing: Option<set<SymbolKey>>, host: Host, head: string -> HeadResponse)
    requires DumpArgs(dumpSyms, platform, path, arch).Success?
    requires var run := host.dump(DumpArgs(dumpSyms, platform, path, arch).value);
             Extract(run, missing).Found?
             && var m := Extract(run, missing).record; head(SymbolFileName(m.debugFile, m.debugId)).RequestFailed?
    ensures ProcessFile(dumpSyms, platform, path, arch, missing, host, head).Accepted?
  {
  }

  /** The store key of libfoo.so with debug id ABCD1234. */
  lemma LibfooKey()
    ensures SymbolFileName("libfoo.so", "ABCD1234") == "libfoo.so/ABCD1234/libfoo.so.sym"
  {
    SlashFree("libfoo.so");
    SlashFree("ABCD1234");
    SymbolFileNamePlain("libfoo.so", "ABCD1234");
    LibfooConcat();
  }

  lemma SlashFree(s: string)
    requires s != "" && s[0] != '/' && s[|s| - 1] != '/'
    ensures !StartsWith(s, "/") && !EndsWith(s, "/")
  {
    assert s[..1] == [s[0]] && s[|s| - 1..] == [s[|s| - 1]];
  }

  lemma LibfooConcat()
    ensures "libfoo.so" + "/" + "ABCD1234" + "/" + "libfoo.so" + ".sym" == "libfoo.so/ABCD1234/libfoo.so.sym"
  {
  }

  /** A dump that starts "MODULE Linux x86_64 ABCD1234 libfoo.so", with no
      allow-list and the server answering 404, is archived as
      libfoo.so/ABCD1234/libfoo.so.sym with the dumper's whole output. */
  lemma LinuxModuleScenario(dumpSyms: string, path: string, rest: string, host: Host, head: string -> HeadResponse)
    requires host.dump([dumpSyms, path]) == ToolRun(0, "MODULE Linux x86_64 ABCD1234 libfoo.so\n" + rest)
    requires head("libfoo.so/ABCD1234/libfoo.so.sym") == Status(404)
    ensures ProcessFile(dumpSyms, "linux2", path, None, None, host, head)
         == Accepted("libfoo.so/ABCD1234/libfoo.so.sym", "MODULE Linux x86_64 ABCD1234 libfoo.so\n" + rest)
  {
    var out := "MODULE Linux x86_64 ABCD1234 libfoo.so\n" + rest;
    var m := ModuleRecord("Linux", "x86_64", "ABCD1234", "libfoo.so");
    assert DumpArgs(dumpSyms, "linux2", path, None) == Success([dumpSyms, path]);
    assert Extract(ToolRun(0, out), None) == Found(m, out) by {
      LibfooFirstLine(rest);
      LibfooModule();
    }
    LibfooKey();
  }

  lemma LibfooFirstLine(rest: string)
    ensures SplitLines("MODULE Linux x86_64 ABCD1234 libfoo.so\n" + rest)[0] == "MODULE Linux x86_64 ABCD1234 libfoo.so"
  {
    var line := "MODULE Linux x86_64 ABCD1234 libfoo.so";
    assert NoLineBreak(line);
    assert "MODULE Linux x86_64 ABCD1234 libfoo.so\n" + rest == line + "\n" + rest;
    SplitLinesCons(line, rest);
  }

  lemma LibfooModule()
    ensures ParseModuleLine("MODULE Linux x86_64 ABCD1234 libfoo.so") == Some(ModuleRecord("Linux", "x86_64", "ABCD1234", "libfoo.so"))
  {
    var m := ModuleRecord("Linux", "x86_64", "ABCD1234", "libfoo.so");
    LibfooModuleLine();
    ParseModuleLineRoundTrip("MODULE", m);
  }

  lemma LibfooModuleLine()
    ensures "MODULE Linux x86_64 ABCD1234 libfoo.so" == ModuleLine("MODULE", ModuleRecord("Linux", "x86_64", "ABCD1234", "libfoo.so"))
  {
    JoinFive("MODULE", "Linux", "x86_64", "ABCD1234", "libfoo.so", " ");
    assert "MODULE" + " " + "Linux" == "MODULE Linux";
    assert "MODULE Linux" + " " + "x86_64" == "MODULE Linux x86_64";
    assert "MODULE Linux x86_64" + " " + "ABCD1234" == "MODULE Linux x86_64 ABCD1234";
    assert "MODULE Linux x86_64 ABCD1234" + " " + "libfoo.so" == "MODULE Linux x86_64 ABCD1234 libfoo.so";
  }

  // ---------------------------------------------------------------------
  // get_files / process_paths

  /** The candidates among `paths` that `should_process` admits, in order. */
  function Binaries(paths: seq<string>, platform: string, host: Host): seq<string> {
    if paths == [] then []
    else
      var prev := Binaries(paths[..|paths| - 1], platform, host);
      var x := paths[|paths| - 1];
      if ShouldProcess(platform, host.fileType(x)) then prev + [x] else prev
  }

  lemma {:induction false} BinariesMember(paths: seq<string>, platform: string, host: Host, x: string)
    ensures x in Binaries(paths, platform, host) <==> x in paths && ShouldProcess(platform, host.fileType(x))
  {
    if paths != [] {
      BinariesMember(paths[..|paths| - 1], platform, host, x);
      assert paths == paths[..|paths| - 1] + [paths[|paths| - 1]];
    }
  }

  /** The candidates one entry of `paths` stands for: the files an
      `os.walk` of a directory lists, or the path itself. */
  function Sources(path: string, host: Host): seq<string> {
    if host.isDir(path) then WalkPaths(host.walk(path)) else [path]
  }

  /** The generator `get_files`, as the sequence it yields. */
  function GetFiles(paths: seq<string>, platform: string, host: Host): seq<string> {
    if paths == [] then []
    else GetFiles(paths[..|paths| - 1], platform, host) + Binaries(Sources(paths[|paths| - 1], host), platform, host)
  }

  /** The sources of the given paths, concatenated in order. */
  function AllSources(paths: seq<string>, host: Host): seq<string> {
    if paths == [] then [] else AllSources(paths[..|paths| - 1], host) + Sources(paths[|paths| - 1], host)
  }

  /** `get_files` is `should_process` filtering every source in order. */
  lemma {:induction false} GetFilesFilters(paths: seq<string>, platform: string, host: Host)
    ensures GetFiles(paths, platform, host) == Binaries(AllSources(paths, host), platform, host)
  {
    if paths != [] {
      GetFilesFilters(paths[..|paths| - 1], platform, host);
      BinariesAppend(AllSources(paths[..|paths| - 1], host), Sources(paths[|paths| - 1], host), platform, host);
    }
  }

  lemma {:induction false} BinariesAppend(xs: seq<string>, ys: seq<string>, platform: string, host: Host)
    ensures Binaries(xs + ys, platform, host) == Binaries(xs, platform, host) + Binaries(ys, platform, host)
    decreases |ys|
  {
    if ys == [] {
      assert xs + ys == xs;
    } else {
      var init := ys[..|ys| - 1];
      BinariesAppend(xs, init, platform, host);
      assert (xs + ys)[..|xs + ys| - 1] == xs + init;
    }
  }

  lemma {:induction false} AllSourcesMember(paths: seq<string>, host: Host, x: string)
    ensures x in AllSources(paths, host) <==> exists i :: 0 <= i < |paths| && x in Sources(paths[i], host)
  {
    if paths != [] {
      var init := paths[..|paths| - 1];
      AllSourcesMember(init, host, x);
      if exists i :: 0 <= i < |paths| && x in Sources(paths[i], host) {
        var i :| 0 <= i < |paths| && x in Sources(paths[i], host);
        if i < |init| {
          assert init[i] == paths[i];
        }
      }
      if exists i :: 0 <= i < |init| && x in Sources(init[i], host) {
        var i :| 0 <= i < |init| && x in Sources(init[i], host);
        assert paths[i] == init[i];
      }
    }
  }

  /** A file is yielded exactly when `should_process` admits it and it is a
      given path that is not a directory, or lies under a given directory. */
  lemma GetFilesMember(paths: seq<string>, platform: string, host: Host, x: string)
    ensures x in GetFiles(paths, platform, host) <==>
              ShouldProcess(platform, host.fileType(x)) && exists i :: 0 <= i < |paths| && x in Sources(paths[i], host)
  {
    GetFilesFilters(paths, platform, host);
    BinariesMember(AllSources(paths, host), platform, host, x);
    AllSourcesMember(paths, host, x);
  }

  /** The debug-package substitution as written: `platform == 'linux'`.
      Python 2 reports Linux as "linux2", so under the interpreter this code
      is written for the substitution never happens. */
  function DebugPathAsWritten(platform: string, path: string, isFile: string -> bool): (r: string)
    ensures r == path || r == "/usr/lib/debug" + path
    ensures platform != "linux" ==> r == path
  {
    var dbgpath := "/usr/lib/debug" + path;
    if platform == "linux" && isFile(dbgpath) then dbgpath else path
  }

  lemma DebugPathAsWrittenMissesLinux2(path: string, isFile: string -> bool)
    requires isFile("/usr/lib/debug" + path)
    ensures DebugPathAsWritten("linux2", path, isFile) == path
    ensures DebugPathAsWritten("linux2", path, isFile) != "/usr/lib/debug" + path
  {
    assert |"/usr/lib/debug" + path| > |path|;
  }

  /** The debug-package substitution as intended: on any Linux platform
      string, dump `/usr/lib/debug<path>` instead of `path` when that file exists. */
  function DebugPath(platform: string, path: string, isFile: string -> bool): (r: string)
    ensures StartsWith(platform, "linux") && isFile("/usr/lib/debug" + path) ==> r == "/usr/lib/debug" + path
    ensures !(StartsWith(platform, "linux") && isFile("/usr/lib/debug" + path)) ==> r == path
  {
    var dbgpath := "/usr/lib/debug" + path;
    if StartsWith(platform, "linux") && isFile(dbgpath) then dbgpath else path
  }

  /** The corrected substitution agrees with the written one wherever the
      written one fires, and also fires for Python 2's "linux2". */
  lemma DebugPathExtendsAsWritten(platform: string, path: string, isFile: string -> bool)
    ensures platform == "linux" ==> DebugPath(platform, path, isFile) == DebugPathAsWritten(platform, path, isFile)
    ensures isFile("/usr/lib/debug" + path) ==> DebugPath("linux2", path, isFile) == "/usr/lib/debug" + path
    ensures !StartsWith(platform, "linux") ==> DebugPath(platform, path, isFile) == path
  {
  }

  /** One dump job: a path and an architecture (`None` off darwin). */
  datatype ArchJob = ArchJob(path: string, arch: Option<string>)

  /** The path a yielded file is dumped from: links followed, then the debug package preferred. */
  function JobPath(platform: string, host: Host, file: string): string {
    DebugPath(platform, host.resolve(file), host.isFile)
  }

  function JobsFor(path: string, archs: seq<Option<string>>): seq<ArchJob> {
    seq(|archs|, k requires 0 <= k < |archs| => ArchJob(path, archs[k]))
  }

  /** Every job submitted for `files`, in submission order; `get_archs`
      raising stops the enumeration and the run. */
  function Jobs(files: seq<string>, platform: string, host: Host): Result<seq<ArchJob>, PyException>
  {
    if files == [] then Success([])
    else
      match Jobs(files[..|files| - 1], platform, host)
      case Failure(e) => Failure(e)
      case Success(prev) =>
        var path := JobPath(platform, host, files[|files| - 1]);
        match GetArchs(platform, host.lipoInfo(path))
        case Failure(e) => Failure(e)
        case Success(archs) => Success(prev + JobsFor(path, archs))
  }

  /** The submission loop of `process_paths`. */
  method ProcessPaths(paths: seq<string>, platform: string, host: Host) returns (r: Result<seq<ArchJob>, PyException>)
    ensures r == Jobs(GetFiles(paths, platform, host), platform, host)
  {
    var files := GetFiles(paths, platform, host);
    var jobs: seq<ArchJob> := [];
    var i := 0;
    while i < |files|
      invariant 0 <= i <= |files|
      invariant Jobs(files[..i], platform, host) == Success(jobs)
    {
      var path := JobPath(platform, host, files[i]);
      var archs := GetArchs(platform, host.lipoInfo(path));
      JobsStep(files, i, platform, host);
      if archs.Failure? {
        JobsFailurePersists(files, i + 1, platform, host);
        return Failure(archs.error);
      }
      jobs := SubmitArchs(path, archs.value, jobs);
      i := i + 1;
    }
    assert files[..i] == files;
    r := Success(jobs);
  }

  /** The inner loop of `process_paths`: one job per architecture, in order. */
  method SubmitArchs(path: string, archs: seq<Option<string>>, jobs0: seq<ArchJob>) returns (jobs: seq<ArchJob>)
    ensures jobs == jobs0 + JobsFor(path, archs)
  {
    jobs := jobs0;
    var j := 0;
    while j < |archs|
      invariant 0 <= j <= |archs|
      invariant jobs == jobs0 + JobsFor(path, archs[..j])
    {
      jobs := jobs + [ArchJob(path, archs[j])];
      JobsForSnoc(path, archs, j);
      j := j + 1;
    }
    assert archs[..j] == archs;
  }

  lemma JobsForSnoc(path: string, archs: seq<Option<string>>, j: nat)
    requires j < |archs|
    ensures JobsFor(path, archs[..j + 1]) == JobsFor(path, archs[..j]) + [ArchJob(path, archs[j])]
  {
    var a := JobsFor(path, archs[..j + 1]);
    var b := JobsFor(path, archs[..j]) + [ArchJob(path, archs[j])];
    assert forall k :: 0 <= k < |a| ==> a[k] == b[k];
  }

  /** One more file: its architectures' jobs are appended, or `get_archs` raising ends the enumeration. */
  lemma JobsStep(files: seq<string>, i: nat, platform: string, host: Host)
    requires i < |files| && Jobs(files[..i], platform, host).Success?
    ensures var path := JobPath(platform, host, files[i]);
            Jobs(files[..i + 1], platform, host)
            == match GetArchs(platform, host.lipoInfo(path))
               case Failure(e) => Failure(e)
               case Success(archs) => Success(Jobs(files[..i], platform, host).value + JobsFor(path, archs))
  {
    assert files[..i + 1][..i] == files[..i];
  }

  /** Once a prefix of the files fails, the whole enumeration fails with the same error. */
  lemma {:induction false} JobsFailurePersists(files: seq<string>, n: nat, platform: string, host: Host)
    requires n <= |files| && Jobs(files[..n], platform, host).Failure?
    ensures Jobs(files, platform, host) == Jobs(files[..n], platform, host)
    decreases |files| - n
  {
    if n < |files| {
      assert files[..n + 1][..n] == files[..n];
      JobsFailurePersists(files, n + 1, platform, host);
    } else {
      assert files[..n] == files;
    }
  }

  /** Off darwin every yielded file gives exactly one job, with no architecture. */
  lemma {:induction false} OneJobPerFileOffDarwin(files: seq<string>, platform: string, host: Host)
    requires platform != "darwin"
    ensures Jobs(files, platform, host).Success?
    ensures |Jobs(files, platform, host).value| == |files|
    ensures forall k :: 0 <= k < |files| ==> Jobs(files, platform, host).value[k] == ArchJob(JobPath(platform, host, files[k]), None)
  {
    if files != [] {
      var init := files[..|files| - 1];
      OneJobPerFileOffDarwin(init, platform, host);
      assert forall k :: 0 <= k < |init| ==> init[k] == files[k];
    }
  }

  /** On darwin a file gives one job per architecture `lipo` lists, in order. */
  lemma JobsOnDarwinExtend(files: seq<string>, file: string, host: Host)
    requires Jobs(files, "darwin", host).Success?
    requires GetArchs("darwin", host.lipoInfo(JobPath("darwin", host, file))).Success?
    ensures Jobs(files + [file], "darwin", host)
         == Success(Jobs(files, "darwin", host).value
                    + JobsFor(JobPath("darwin", host, file), GetArchs("darwin", host.lipoInfo(JobPath("darwin", host, file))).value))
  {
    assert (files + [file])[..|files|] == files;
  }

  /** What each job produces, in submission order. */
  function JobOutcomes(jobs: seq<ArchJob>, dumpSyms: string, platform: string, missing: Option<set<SymbolKey>>,
                       host: Host, head: string -> HeadResponse): seq<JobOutcome>
  {
    seq(|jobs|, k requires 0 <= k < |jobs| => ProcessFile(dumpSyms, platform, jobs[k].path, jobs[k].arch, missing, host, head))
  }

  // ---------------------------------------------------------------------
  // The accumulation loop of main

  function NameSet(entries: seq<Entry>): set<string> {
    set e | e in entries :: e.name
  }

  /** The archive entries after draining `arrivals` in completion order:
      an outcome is written when it is truthy and its name is new. */
  function Kept(arrivals: seq<JobOutcome>): seq<Entry>
  {
    if arrivals == [] then []
    else
      var prev := Kept(arrivals[..|arrivals| - 1]);
      var o := arrivals[|arrivals| - 1];
      if Truthy(o) && o.name !in NameSet(prev) then prev + [Entry(o.name, o.contents)] else prev
  }

  /** Each name is written once, and the names written are exactly the accepted ones. */
  lemma {:induction false} KeptProperties(arrivals: seq<JobOutcome>)
    ensures forall i, j :: 0 <= i < j < |Kept(arrivals)| ==> Kept(arrivals)[i].name != Kept(arrivals)[j].name
    ensures NameSet(Kept(arrivals)) == AcceptedNames(arrivals)
    ensures forall e :: e in Kept(arrivals) ==> Accepted(e.name, e.data) in arrivals
  {
    if arrivals != [] {
      var init := arrivals[..|arrivals| - 1];
      var o := arrivals[|arrivals| - 1];
      KeptProperties(init);
      assert arrivals == init + [o];
      assert forall x :: x in arrivals <==> x in init || x == o;
      var prev := Kept(init);
      if Truthy(o) && o.name !in NameSet(prev) {
        var now := prev + [Entry(o.name, o.contents)];
        assert forall i :: 0 <= i < |prev| ==> now[i] == prev[i];
        assert forall i :: 0 <= i < |prev| ==> prev[i] in prev;
        NameSetSnoc(prev, Entry(o.name, o.contents));
      }
    }
  }

  /** Distinct names: the archive holds as many symbol files as there are accepted names. */
  lemma KeptCount(arrivals: seq<JobOutcome>)
    ensures |Kept(arrivals)| == |AcceptedNames(arrivals)|
  {
    KeptProperties(arrivals);
    DistinctNamesCount(Kept(arrivals));
  }

  lemma {:induction false} DistinctNamesCount(entries: seq<Entry>)
    requires forall i, j :: 0 <= i < j < |entries| ==> entries[i].name != entries[j].name
    ensures |NameSet(entries)| == |entries|
  {
    if entries != [] {
      var init := entries[..|entries| - 1];
      var last := entries[|entries| - 1];
      assert forall i, j :: 0 <= i < j < |init| ==> init[i].name != init[j].name by {
        assert forall i :: 0 <= i < |init| ==> init[i] == entries[i];
      }
      DistinctNamesCount(init);
      assert last.name !in NameSet(init) by {
        forall e | e in init ensures e.name != last.name {
          var i :| 0 <= i < |init| && init[i] == e;
          assert entries[i] == e;
        }
      }
      assert entries == init + [last];
      NameSetSnoc(init, last);
    }
  }

  lemma NameSetSnoc(entries: seq<Entry>, e: Entry)
    ensures NameSet(entries + [e]) == NameSet(entries) + {e.name}
  {
    assert forall x :: x in entries + [e] <==> x in entries || x == e;
  }

  /** The drain loop of `process_paths` (exceptions from a job are printed
      and skipped) and the accumulation loop of `main`: `file_list` is a
      set, each new name is written to the archive once, the manifest is
      appended, and an archive without symbol files is deleted. */
  method Collect(arrivals: seq<JobOutcome>, manifestName: string) returns (fileList: set<string>, archive: Option<seq<Entry>>)
    ensures fileList == AcceptedNames(arrivals)
    ensures archive.None? <==> fileList == {}
    ensures archive.Some? ==> archive.value == Kept(arrivals) + [Entry(manifestName, Manifest(Names(Kept(arrivals))))]
  {
    fileList := {};
    var zip: seq<Entry> := [];
    var i := 0;
    while i < |arrivals|
      invariant 0 <= i <= |arrivals|
      invariant zip == Kept(arrivals[..i])
      invariant fileList == NameSet(zip)
    {
      assert arrivals[..i + 1][..i] == arrivals[..i];
      match arrivals[i] {
        case Raised(_) =>
        case Rejected =>
        case Accepted(filename, contents) =>
          if filename != "" && contents != "" && filename !in fileList {
            fileList := fileList + {filename};
            zip := zip + [Entry(filename, contents)];
          }
      }
      i := i + 1;
    }
    assert arrivals[..i] == arrivals;
    KeptProperties(arrivals);
    var manifest := Manifest(Names(zip));
    zip := zip + [Entry(manifestName, manifest)];
    if fileList == {} {
      archive := None;
    } else {
      archive := Some(zip);
    }
  }

  /** Whatever order the pool completes the jobs in, the same names are
      archived, and each archived file is the whole output of a dump that
      `Admits` for that name. */
  lemma ArchiveFromAnyCompletionOrder(jobs: seq<ArchJob>, arrivals: seq<JobOutcome>, dumpSyms: string, platform: string,
                                      missing: Option<set<SymbolKey>>, host: Host, head: string -> HeadResponse)
    requires multiset(arrivals) == multiset(JobOutcomes(jobs, dumpSyms, platform, missing, host, head))
    ensures AcceptedNames(arrivals) == AcceptedNames(JobOutcomes(jobs, dumpSyms, platform, missing, host, head))
    ensures forall e :: e in Kept(arrivals) ==>
              exists k :: 0 <= k < |jobs| && DumpArgs(dumpSyms, platform, jobs[k].path, jobs[k].arch).Success? &&
                var run := host.dump(DumpArgs(dumpSyms, platform, jobs[k].path, jobs[k].arch).value);
                Admits(run, missing, head, e.name) && e.data == run.stdout
  {
    var outcomes := JobOutcomes(jobs, dumpSyms, platform, missing, host, head);
    AcceptedNamesOrderFree(arrivals, outcomes);
    KeptProperties(arrivals);
    forall e | e in Kept(arrivals)
      ensures exists k :: 0 <= k < |jobs| && DumpArgs(dumpSyms, platform, jobs[k].path, jobs[k].arch).Success? &&
                var run := host.dump(DumpArgs(dumpSyms, platform, jobs[k].path, jobs[k].arch).value);
                Admits(run, missing, head, e.name) && e.data == run.stdout
    {
      assert Accepted(e.name, e.data) in multiset(outcomes);
      var k :| 0 <= k < |outcomes| && outcomes[k] == Accepted(e.name, e.data);
      assert DumpArgs(dumpSyms, platform, jobs[k].path, jobs[k].arch).Success?;
    }
  }
}
