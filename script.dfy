/** The original stand-alone gatherer (the repository's top-level script):
    it walks the system library directories, dumps every (file,
    architecture) pair in turn with `./dump_syms`, and appends every result
    the server lacks to `file_list` and to `symbols.zip`. Unlike the
    packaged gatherer it keeps duplicates, lets a failed request to the
    server escape, and stops at the first exception. */
module ScriptGather {
  import opened Wrappers
  import opened PyStr
  import opened Symbols
  import PackagedGather

  /** SYSTEM_DIRS of this script (no PrivateFrameworks on darwin). */
  function SystemDirs(platform: string): seq<string> {
    if platform == "darwin" then ["/usr/lib", "/System/Library/Frameworks"]
    else ["/lib", "/usr/lib"]
  }

  /** The cheap gate in front of the `file` probe: a `.dylib` suffix or the
      executable bit on darwin, the substring `.so` anywhere or the
      executable bit elsewhere. */
  predicate Gate(platform: string, path: string, host: Host) {
    if platform == "darwin" then EndsWith(path, ".dylib") || host.executable(path)
    else Contains(path, ".so") || host.executable(path)
  }

  /** `should_process`: a closed gate answers False without running `file`. */
  function ShouldProcess(platform: string, path: string, host: Host): (ok: bool)
    ensures ok <==> Gate(platform, path, host) && StartsWith(host.fileType(path), ObjectMagic(platform))
  {
    if platform == "darwin" then
      if EndsWith(path, ".dylib") || host.executable(path) then StartsWith(host.fileType(path), "Mach-O") else false
    else if Contains(path, ".so") || host.executable(path) then StartsWith(host.fileType(path), "ELF")
    else false
  }

  /** A closed gate decides without the probe: the answer is the same for any `file` oracle. */
  lemma ClosedGateIgnoresProbe(platform: string, path: string, host1: Host, host2: Host)
    requires host1.executable == host2.executable
    requires !Gate(platform, path, host1)
    ensures !ShouldProcess(platform, path, host1) && !ShouldProcess(platform, path, host2)
  {
  }

  /** This script admits a subset of what the packaged gatherer admits, and
      the two agree whenever the gate is open. */
  lemma GateRefinesPackaged(platform: string, path: string, host: Host)
    ensures ShouldProcess(platform, path, host) ==> PackagedGather.ShouldProcess(platform, host.fileType(path))
    ensures Gate(platform, path, host) ==> (ShouldProcess(platform, path, host) <==> PackagedGather.ShouldProcess(platform, host.fileType(path)))
  {
  }

  /** A shared object named like `libc.so.6` passes the gate off darwin even when not executable. */
  lemma VersionedSharedObjectPassesGate(platform: string, name: string, version: string, host: Host)
    requires platform != "darwin"
    ensures Gate(platform, name + ".so" + version, host)
  {
    ContainsAt(name + ".so" + version, ".so", |name|);
  }

  /** `server_has_file` without a handler: a failed request escapes. */
  function ServerHasFile(response: HeadResponse): (r: Result<bool, PyException>)
    ensures response.RequestFailed? <==> r == Failure(RequestException)
    ensures r.Success? ==> (r.value <==> response == Status(200))
  {
    match response
    case Status(code) => Success(code == 200)
    case RequestFailed => Failure(RequestException)
  }

  /** `process_file` with the dumper at `./dump_syms`. */
  function ProcessFile(platform: string, path: string, arch: Option<string>,
                       missing: Option<set<SymbolKey>>, host: Host, head: string -> HeadResponse): (r: JobOutcome)
    ensures DumpArgs("./dump_syms", platform, path, arch).Failure? ==> r == Raised(TypeError)
    ensures DumpArgs("./dump_syms", platform, path, arch).Success? ==>
              var run := host.dump(DumpArgs("./dump_syms", platform, path, arch).value);
              && (r.Accepted? ==> Admits(run, missing, head, r.name) && r.contents == run.stdout && head(r.name).Status?)
              && (forall name :: Admits(run, missing, head, name) && head(name).Status? ==> r == Accepted(name, run.stdout))
              && (run.exitCode != 0 ==> r == Rejected)
              && (r.Raised? ==> r.error == IndexError || r.error == RequestException)
              && (r == Raised(IndexError) <==> run.exitCode == 0 && run.stdout == "")
              && (r == Raised(RequestException) <==>
                    Extract(run, missing).Found? &&
                    head(SymbolFileName(Extract(run, missing).record.debugFile, Extract(run, missing).record.debugId)).RequestFailed?)
  {
    match DumpArgs("./dump_syms", platform, path, arch)
    case Failure(e) => Raised(e)
    case Success(argv) =>
      match Extract(host.dump(argv), missing)
      case NotFound => Rejected
      case ExtractRaised(e) => Raised(e)
      case Found(m, stdout) =>
        var name := SymbolFileName(m.debugFile, m.debugId);
        match ServerHasFile(head(name))
        case Failure(e) => Raised(e)
        case Success(has) => if has then Rejected else Accepted(name, stdout)
  }

  /** Where the server always answers, this script's `process_file` and the
      packaged one give the same outcome. */
  lemma ProcessFileAgreesWhenServerAnswers(platform: string, path: string, arch: Option<string>,
                                           missing: Option<set<SymbolKey>>, host: Host, head: string -> HeadResponse)
    requires forall name :: head(name).Status?
    ensures ProcessFile(platform, path, arch, missing, host, head)
         == PackagedGather.ProcessFile("./dump_syms", platform, path, arch, missing, host, head)
  {
  }

  // ---------------------------------------------------------------------
  // get_files and the nested loops of main

  /** The admitted files under one directory, in walk order. */
  function Candidates(paths: seq<string>, platform: string, host: Host): seq<string> {
    if paths == [] then []
    else
      var prev := Candidates(paths[..|paths| - 1], platform, host);
      var x := paths[|paths| - 1];
      if ShouldProcess(platform, x, host) then prev + [x] else prev
  }

  lemma {:induction false} CandidatesMember(paths: seq<string>, platform: string, host: Host, x: string)
    ensures x in Candidates(paths, platform, host) <==> x in paths && ShouldProcess(platform, x, host)
  {
    if paths != [] {
      CandidatesMember(paths[..|paths| - 1], platform, host, x);
      assert paths == paths[..|paths| - 1] + [paths[|paths| - 1]];
    }
  }

  /** The generator `get_files`: every directory is walked, with no test
      for a plain file. */
  function GetFiles(dirs: seq<string>, platform: string, host: Host): seq<string> {
    if dirs == [] then []
    else GetFiles(dirs[..|dirs| - 1], platform, host)
         + Candidates(Listing(dirs[|dirs| - 1], host), platform, host)
  }

  /** `os.path.join(root, f)` for every file a walk of `dir` lists. */
  function Listing(dir: string, host: Host): seq<string> {
    WalkPaths(host.walk(dir))
  }

  /** The walk listings of `dirs`, concatenated in order. */
  function Walked(dirs: seq<string>, host: Host): seq<string> {
    if dirs == [] then [] else Walked(dirs[..|dirs| - 1], host) + Listing(dirs[|dirs| - 1], host)
  }

  lemma {:induction false} CandidatesAppend(xs: seq<string>, ys: seq<string>, platform: string, host: Host)
    ensures Candidates(xs + ys, platform, host) == Candidates(xs, platform, host) + Candidates(ys, platform, host)
    decreases |ys|
  {
    if ys == [] {
      assert xs + ys == xs;
    } else {
      CandidatesAppend(xs, ys[..|ys| - 1], platform, host);
      assert (xs + ys)[..|xs + ys| - 1] == xs + ys[..|ys| - 1];
    }
  }

  /** `get_files` is `should_process` filtering the walk listings in order. */
  lemma {:induction false} GetFilesFilters(dirs: seq<string>, platform: string, host: Host)
    ensures GetFiles(dirs, platform, host) == Candidates(Walked(dirs, host), platform, host)
  {
    if dirs != [] {
      GetFilesFilters(dirs[..|dirs| - 1], platform, host);
      CandidatesAppend(Walked(dirs[..|dirs| - 1], host), Listing(dirs[|dirs| - 1], host), platform, host);
    }
  }

  lemma {:induction false} WalkedMember(dirs: seq<string>, host: Host, x: string)
    ensures x in Walked(dirs, host) <==> exists i :: 0 <= i < |dirs| && x in Listing(dirs[i], host)
  {
    if dirs != [] {
      var init := dirs[..|dirs| - 1];
      WalkedMember(init, host, x);
      assert dirs == init + [dirs[|dirs| - 1]];
      ExistsSnoc(init, dirs[|dirs| - 1], d => x in Listing(d, host));
    }
  }

  /** A file is yielded exactly when `should_process` admits it and a walk
      of one of the directories lists it. */
  lemma GetFilesMember(dirs: seq<string>, platform: string, host: Host, x: string)
    ensures x in GetFiles(dirs, platform, host) <==>
              ShouldProcess(platform, x, host) && exists i :: 0 <= i < |dirs| && x in Listing(dirs[i], host)
  {
    GetFilesFilters(dirs, platform, host);
    CandidatesMember(Walked(dirs, host), platform, host, x);
    WalkedMember(dirs, host, x);
  }

  /** Everything `main` needs besides the file list. */
  datatype Env = Env(platform: string, missing: Option<set<SymbolKey>>, host: Host, head: string -> HeadResponse)

  /** One iteration of the inner loop, or the `get_archs` call that raises before it. */
  datatype Step = Job(path: string, arch: Option<string>) | ArchsFailed(error: PyException)

  /** The steps one file contributes. */
  function FileSteps(file: string, env: Env): seq<Step> {
    match GetArchs(env.platform, env.host.lipoInfo(file))
    case Failure(e) => [ArchsFailed(e)]
    case Success(archs) => seq(|archs|, k requires 0 <= k < |archs| => Job(file, archs[k]))
  }

  /** Off darwin each file gives the single step `Job(file, None)`. */
  lemma FileStepsOffDarwin(file: string, env: Env)
    requires env.platform != "darwin"
    ensures FileSteps(file, env) == [Job(file, None)]
  {
  }

  /** The steps of each file, file by file. */
  function PerFile(files: seq<string>, env: Env): seq<seq<Step>> {
    seq(|files|, k requires 0 <= k < |files| => FileSteps(files[k], env))
  }

  /** The steps of the nested loops over `files`, in iteration order. */
  function Stream(files: seq<string>, env: Env): seq<Step> {
    Concat(PerFile(files, env))
  }

  function Concat<T>(xss: seq<seq<T>>): seq<T> {
    if xss == [] then [] else Concat(xss[..|xss| - 1]) + xss[|xss| - 1]
  }

  lemma {:induction false} ConcatAppend<T>(xss: seq<seq<T>>, yss: seq<seq<T>>)
    ensures Concat(xss + yss) == Concat(xss) + Concat(yss)
    decreases |yss|
  {
    if yss == [] {
      assert xss + yss == xss;
    } else {
      var init, last := yss[..|yss| - 1], yss[|yss| - 1];
      assert (xss + yss)[..|xss + yss| - 1] == xss + init;
      assert (xss + yss)[|xss + yss| - 1] == last;
      assert Concat(xss + yss) == Concat(xss + init) + last;
      ConcatAppend(xss, init);
      assert Concat(yss) == Concat(init) + last;
    }
  }

  lemma StreamAppend(a: seq<string>, b: seq<string>, env: Env)
    ensures Stream(a + b, env) == Stream(a, env) + Stream(b, env)
  {
    var whole, parts := PerFile(a + b, env), PerFile(a, env) + PerFile(b, env);
    forall k | 0 <= k < |whole| ensures whole[k] == parts[k] {
      if k < |a| {
        assert (a + b)[k] == a[k];
      } else {
        assert (a + b)[k] == b[k - |a|];
      }
    }
    assert whole == parts;
    ConcatAppend(PerFile(a, env), PerFile(b, env));
  }

  lemma StreamSnoc(files: seq<string>, i: nat, env: Env)
    requires i < |files|
    ensures Stream(files[..i + 1], env) == Stream(files[..i], env) + FileSteps(files[i], env)
  {
    assert files[..i + 1] == files[..i] + [files[i]];
    StreamAppend(files[..i], [files[i]], env);
    var one := PerFile([files[i]], env);
    assert one == [FileSteps(files[i], env)];
    assert one[..0] == [];
    assert Concat(one) == FileSteps(files[i], env);
  }

  /** What a step produces; a failing `get_archs` counts as raising. */
  function Outcome(step: Step, env: Env): JobOutcome {
    match step
    case ArchsFailed(e) => Raised(e)
    case Job(path, arch) => ProcessFile(env.platform, path, arch, env.missing, env.host, env.head)
  }

  function Outcomes(steps: seq<Step>, env: Env): (r: seq<JobOutcome>)
    ensures |r| == |steps| && forall k :: 0 <= k < |r| ==> r[k] == Outcome(steps[k], env)
  {
    seq(|steps|, k requires 0 <= k < |steps| => Outcome(steps[k], env))
  }

  lemma OutcomesAppend(xs: seq<Step>, ys: seq<Step>, env: Env)
    ensures Outcomes(xs + ys, env) == Outcomes(xs, env) + Outcomes(ys, env)
  {
    var a := Outcomes(xs + ys, env);
    var b := Outcomes(xs, env) + Outcomes(ys, env);
    assert forall k :: 0 <= k < |a| ==> a[k] == b[k];
  }

  /** The loops of `main` stop at the first exception; the `with` block
      still closes `symbols.zip`, which keeps what was written so far. */
  datatype RunResult = Finished(entries: seq<Entry>) | Crashed(error: PyException, partial: seq<Entry>)

  /** The state after one more result: `if filename and contents` appends
      to both `file_list` and the archive, with no duplicate check. */
  function Next(state: RunResult, o: JobOutcome): RunResult {
    match state
    case Crashed(_, _) => state
    case Finished(entries) =>
      match o
      case Raised(e) => Crashed(e, entries)
      case Rejected => state
      case Accepted(name, contents) => if name != "" && contents != "" then Finished(entries + [Entry(name, contents)]) else state
  }

  function Run(outcomes: seq<JobOutcome>): RunResult {
    if outcomes == [] then Finished([]) else Next(Run(outcomes[..|outcomes| - 1]), outcomes[|outcomes| - 1])
  }

  lemma RunSnoc(outcomes: seq<JobOutcome>, o: JobOutcome)
    ensures Run(outcomes + [o]) == Next(Run(outcomes), o)
  {
    assert (outcomes + [o])[..|outcomes|] == outcomes;
  }

  lemma {:induction false} RunCrashPersists(xs: seq<JobOutcome>, ys: seq<JobOutcome>)
    requires Run(xs).Crashed?
    ensures Run(xs + ys) == Run(xs)
    decreases |ys|
  {
    if ys == [] {
      assert xs + ys == xs;
    } else {
      var init := ys[..|ys| - 1];
      RunCrashPersists(xs, init);
      assert (xs + ys)[..|xs + ys| - 1] == xs + init;
    }
  }

  /** The reference definition: the truthy results in iteration order,
      duplicates included. */
  function Accepts(outcomes: seq<JobOutcome>): seq<Entry> {
    if outcomes == [] then []
    else
      var prev := Accepts(outcomes[..|outcomes| - 1]);
      var o := outcomes[|outcomes| - 1];
      if Truthy(o) then prev + [Entry(o.name, o.contents)] else prev
  }

  /** Without an exception the run archives exactly the reference entries. */
  lemma {:induction false} RunWithoutFailure(outcomes: seq<JobOutcome>)
    requires forall k :: 0 <= k < |outcomes| ==> !outcomes[k].Raised?
    ensures Run(outcomes) == Finished(Accepts(outcomes))
  {
    if outcomes != [] {
      var init := outcomes[..|outcomes| - 1];
      assert forall k :: 0 <= k < |init| ==> init[k] == outcomes[k];
      RunWithoutFailure(init);
    }
  }

  /** At the first exception the run stops with that exception, and the
      archive left on disk holds the reference entries of the results before it. */
  lemma RunFirstFailure(outcomes: seq<JobOutcome>, k: nat)
    requires k < |outcomes| && outcomes[k].Raised?
    requires forall i :: 0 <= i < k ==> !outcomes[i].Raised?
    ensures Run(outcomes) == Crashed(outcomes[k].error, Accepts(outcomes[..k]))
  {
    var before := outcomes[..k];
    CutAt(outcomes, k);
    assert forall i :: 0 <= i < |before| ==> !before[i].Raised? by {
      assert forall i :: 0 <= i < |before| ==> before[i] == outcomes[i];
    }
    RunWithoutFailure(before);
    RunSnoc(before, outcomes[k]);
    RunCrashPersists(outcomes[..k + 1], outcomes[k + 1..]);
  }

  lemma CutAt<T>(s: seq<T>, k: nat)
    requires k < |s|
    ensures s[..k + 1] == s[..k] + [s[k]]
    ensures s[..k + 1] + s[k + 1..] == s
  {
  }

  /** The index of the first result that raised. */
  function FirstFailure(outcomes: seq<JobOutcome>): (k: nat)
    requires exists k :: 0 <= k < |outcomes| && outcomes[k].Raised?
    ensures k < |outcomes| && outcomes[k].Raised?
    ensures forall i :: 0 <= i < k ==> !outcomes[i].Raised?
  {
    if outcomes[0].Raised? then 0
    else
      assert exists k :: 0 <= k < |outcomes[1..]| && outcomes[1..][k].Raised? by {
        var k :| 0 <= k < |outcomes| && outcomes[k].Raised?;
        assert outcomes[1..][k - 1] == outcomes[k];
      }
      var j := FirstFailure(outcomes[1..]);
      assert forall i :: 1 <= i <= j ==> outcomes[i] == outcomes[1..][i - 1];
      j + 1
  }

  /** The run finishes exactly when no result raised. */
  lemma RunFinishedIff(outcomes: seq<JobOutcome>)
    ensures Run(outcomes).Finished? <==> forall k :: 0 <= k < |outcomes| ==> !outcomes[k].Raised?
  {
    if forall k :: 0 <= k < |outcomes| ==> !outcomes[k].Raised? {
      RunWithoutFailure(outcomes);
    } else {
      RunFirstFailure(outcomes, FirstFailure(outcomes));
    }
  }

  lemma {:induction false} AcceptsAppend(xs: seq<JobOutcome>, ys: seq<JobOutcome>)
    ensures Accepts(xs + ys) == Accepts(xs) + Accepts(ys)
    decreases |ys|
  {
    if ys == [] {
      assert xs + ys == xs;
    } else {
      var init := ys[..|ys| - 1];
      AcceptsAppend(xs, init);
      assert (xs + ys)[..|xs + ys| - 1] == xs + init;
    }
  }

  /** No duplicate check: two results accepted under the same name both
      land in `file_list` and in the archive, whatever came between them. */
  lemma DuplicatesKept(before: seq<JobOutcome>, o1: JobOutcome, between: seq<JobOutcome>, o2: JobOutcome)
    requires Truthy(o1) && Truthy(o2) && o1.name == o2.name
    ensures var names := Names(Accepts(before + [o1] + between + [o2]));
            exists i, j :: 0 <= i < j < |names| && names[i] == o1.name && names[j] == o1.name
  {
    var e1 := Entry(o1.name, o1.contents);
    var e2 := Entry(o2.name, o2.contents);
    AcceptsAppend(before, [o1]);
    AcceptsAppend(before + [o1], between);
    AcceptsAppend(before + [o1] + between, [o2]);
    assert Accepts([o1]) == [e1] by { assert [o1][..0] == []; }
    assert Accepts([o2]) == [e2] by { assert [o2][..0] == []; }
    var all := Accepts(before) + [e1] + Accepts(between) + [e2];
    var names := Names(all);
    var i := |Accepts(before)|;
    assert names[i] == o1.name && names[|all| - 1] == o1.name;
  }

  /** `file_list` gets one name per truthy result; duplicates do not reduce the count. */
  lemma {:induction false} AcceptsCount(outcomes: seq<JobOutcome>)
    ensures |Accepts(outcomes)| == |TruthyIndices(outcomes)|
  {
    if outcomes != [] {
      var n := |outcomes| - 1;
      AcceptsCount(outcomes[..n]);
      TruthyIndicesSnoc(outcomes);
    }
  }

  /** The positions of the truthy results. */
  function TruthyIndices(outcomes: seq<JobOutcome>): set<nat> {
    set k: nat | k < |outcomes| && Truthy(outcomes[k])
  }

  lemma TruthyIndicesSnoc(outcomes: seq<JobOutcome>)
    requires outcomes != []
    ensures var n := |outcomes| - 1;
            TruthyIndices(outcomes) == TruthyIndices(outcomes[..n]) + (if Truthy(outcomes[n]) then {n} else {})
    ensures |outcomes| - 1 !in TruthyIndices(outcomes[..|outcomes| - 1])
  {
    var n := |outcomes| - 1;
    assert forall k :: 0 <= k < n ==> outcomes[..n][k] == outcomes[k];
  }

  /** How `main` ends: an archive with its manifest, the archive removed
      because nothing was collected, or an exception with the partial
      archive left behind. */
  datatype MainOutcome = Archived(archive: seq<Entry>) | Removed | Aborted(error: PyException, partial: seq<Entry>)

  /** The whole run of `main` after its dumper check, as a function of the results in iteration order. */
  function MainResult(run: RunResult, manifestName: string): (r: MainOutcome)
    ensures run.Crashed? ==> r == Aborted(run.error, run.partial)
    ensures r.Aborted? <==> run.Crashed?
    ensures r.Removed? <==> run == Finished([])
    ensures r.Archived? ==> |r.archive| >= 2 && r.archive[..|r.archive| - 1] == run.entries
                            && r.archive[|r.archive| - 1] == Entry(manifestName, Manifest(Names(run.entries)))
  {
    match run
    case Crashed(e, partial) => Aborted(e, partial)
    case Finished(entries) =>
      if entries == [] then Removed else Archived(entries + [Entry(manifestName, Manifest(Names(entries)))])
  }

  /** `main` after the dumper check: the nested file/arch loops, the
      manifest, and the removal of an empty archive. */
  method Gather(env: Env, manifestName: string) returns (outcome: MainOutcome)
    ensures outcome == MainResult(Run(Outcomes(Stream(GetFiles(SystemDirs(env.platform), env.platform, env.host), env), env)), manifestName)
  {
    var files := GetFiles(SystemDirs(env.platform), env.platform, env.host);
    ghost var all := Outcomes(Stream(files, env), env);
    var fileList: seq<string> := [];
    var zip: seq<Entry> := [];
    var i := 0;
    while i < |files|
      invariant 0 <= i <= |files|
      invariant Run(Outcomes(Stream(files[..i], env), env)) == Finished(zip)
      invariant fileList == Names(zip)
    {
      ghost var done := Outcomes(Stream(files[..i], env), env);
      ghost var later := Outcomes(Stream(files[i + 1..], env), env);
      ghost var mine := Outcomes(FileSteps(files[i], env), env);
      SplitAt(files, i, env);
      var crash;
      crash, zip, fileList := DumpFile(files[i], env, done, zip, fileList);
      if crash.Some? {
        RunCrashPersists(done + mine, later);
        return Aborted(crash.value, zip);
      }
      i := i + 1;
    }
    assert files[..i] == files;
    var manifest := Manifest(fileList);
    if fileList == [] {
      outcome := Removed;
    } else {
      outcome := Archived(zip + [Entry(manifestName, manifest)]);
    }
  }

  /** One iteration of the outer loop of `main`: `get_archs`, then
      `process_file` for each architecture, appending the truthy results. */
  method DumpFile(fullpath: string, env: Env, ghost done: seq<JobOutcome>, zip0: seq<Entry>, fileList0: seq<string>)
    returns (crash: Option<PyException>, zip: seq<Entry>, fileList: seq<string>)
    requires Run(done) == Finished(zip0) && fileList0 == Names(zip0)
    ensures var run := Run(done + Outcomes(FileSteps(fullpath, env), env));
            && (crash.None? ==> run == Finished(zip) && fileList == Names(zip))
            && (crash.Some? ==> run == Crashed(crash.value, zip))
  {
    ghost var mine := Outcomes(FileSteps(fullpath, env), env);
    zip, fileList := zip0, fileList0;
    var archs := GetArchs(env.platform, env.host.lipoInfo(fullpath));
    if archs.Failure? {
      assert mine == [Raised(archs.error)];
      RunSnoc(done, Raised(archs.error));
      return Some(archs.error), zip, fileList;
    }
    assert FileSteps(fullpath, env) == ArchJobs(fullpath, archs.value);
    ArchOutcomesAt(fullpath, archs.value, env);
    crash, zip, fileList := DumpArchs(fullpath, archs.value, env, done, mine, zip, fileList);
  }

  /** The jobs of one file once its architectures are known. */
  function ArchJobs(fullpath: string, archs: seq<Option<string>>): seq<Step> {
    seq(|archs|, k requires 0 <= k < |archs| => Job(fullpath, archs[k]))
  }

  lemma ArchOutcomesAt(fullpath: string, archs: seq<Option<string>>, env: Env)
    ensures var mine := Outcomes(ArchJobs(fullpath, archs), env);
            |mine| == |archs| && forall k :: 0 <= k < |archs| ==> mine[k] == Outcome(Job(fullpath, archs[k]), env)
  {
  }

  /** The inner loop of `main` over the architectures of one file. */
  method DumpArchs(fullpath: string, archs: seq<Option<string>>, env: Env,
                   ghost done: seq<JobOutcome>, ghost mine: seq<JobOutcome>, zip0: seq<Entry>, fileList0: seq<string>)
    returns (crash: Option<PyException>, zip: seq<Entry>, fileList: seq<string>)
    requires Run(done) == Finished(zip0) && fileList0 == Names(zip0)
    requires |mine| == |archs| && forall k :: 0 <= k < |archs| ==> mine[k] == Outcome(Job(fullpath, archs[k]), env)
    ensures var run := Run(done + mine);
            && (crash.None? ==> run == Finished(zip) && fileList == Names(zip))
            && (crash.Some? ==> run == Crashed(crash.value, zip))
  {
    zip, fileList := zip0, fileList0;
    crash := None;
    assert done + mine[..0] == done;
    var j := 0;
    while j < |archs| && crash.None?
      invariant 0 <= j <= |archs| == |mine|
      invariant crash.None? ==> Run(done + mine[..j]) == Finished(zip) && fileList == Names(zip)
      invariant crash.Some? ==> Run(done + mine) == Crashed(crash.value, zip)
    {
      var o := Outcome(Job(fullpath, archs[j]), env);
      crash, zip, fileList := Absorb(o, done, mine, j, zip, fileList);
      j := j + 1;
    }
    if crash.None? {
      assert mine[..j] == mine;
    }
  }

  /** The body of the inner loop: write an accepted result, skip a
      rejected one, or stop with a raised exception. */
  method Absorb(o: JobOutcome, ghost done: seq<JobOutcome>, ghost mine: seq<JobOutcome>, j: nat,
                zip0: seq<Entry>, fileList0: seq<string>)
    returns (crash: Option<PyException>, zip: seq<Entry>, fileList: seq<string>)
    requires j < |mine| && mine[j] == o
    requires Run(done + mine[..j]) == Finished(zip0) && fileList0 == Names(zip0)
    ensures crash.Some? ==> Run(done + mine) == Crashed(crash.value, zip)
    ensures crash.None? ==> Run(done + mine[..j + 1]) == Finished(zip) && fileList == Names(zip)
  {
    RunStep(done, mine, j, zip0);
    zip, fileList := zip0, fileList0;
    if o.Raised? {
      return Some(o.error), zip, fileList;
    }
    if Truthy(o) {
      NamesSnoc(zip, Entry(o.name, o.contents));
      fileList := fileList + [o.name];
      zip := zip + [Entry(o.name, o.contents)];
    }
    crash := None;
  }

  /** One result of the inner loop moves a finished run on by one step, or
      ends the run of the whole file with its exception. */
  lemma RunStep(done: seq<JobOutcome>, mine: seq<JobOutcome>, j: nat, zip: seq<Entry>)
    requires j < |mine| && Run(done + mine[..j]) == Finished(zip)
    ensures mine[j].Raised? ==> Run(done + mine) == Crashed(mine[j].error, zip)
    ensures Truthy(mine[j]) ==> Run(done + mine[..j + 1]) == Finished(zip + [Entry(mine[j].name, mine[j].contents)])
    ensures !mine[j].Raised? && !Truthy(mine[j]) ==> Run(done + mine[..j + 1]) == Finished(zip)
  {
    CutAt(mine, j);
    assert done + mine[..j + 1] == (done + mine[..j]) + [mine[j]];
    RunSnoc(done + mine[..j], mine[j]);
    if mine[j].Raised? {
      RunCrashPersists(done + mine[..j + 1], mine[j + 1..]);
      assert done + mine[..j + 1] + mine[j + 1..] == done + mine;
    }
  }

  /** The results of the first `i + 1` files extend those of the first `i`
      by the results of file `i`, and all of them continue with the rest. */
  lemma SplitAt(files: seq<string>, i: nat, env: Env)
    requires i < |files|
    ensures Outcomes(Stream(files[..i + 1], env), env)
         == Outcomes(Stream(files[..i], env), env) + Outcomes(FileSteps(files[i], env), env)
    ensures Outcomes(Stream(files, env), env)
         == Outcomes(Stream(files[..i], env), env) + Outcomes(FileSteps(files[i], env), env) + Outcomes(Stream(files[i + 1..], env), env)
  {
    StreamSnoc(files, i, env);
    OutcomesAppend(Stream(files[..i], env), FileSteps(files[i], env), env);
    assert files == files[..i + 1] + files[i + 1..];
    StreamAppend(files[..i + 1], files[i + 1..], env);
    OutcomesAppend(Stream(files[..i + 1], env), Stream(files[i + 1..], env), env);
  }
}
