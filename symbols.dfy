/** The logic both revisions of the symbol gatherer share: reading the first
    line of the dumper's output, the missing-symbols allow-list, the symbol
    store's key, the architectures of a binary, the missing-symbols feed and
    the manifest.  Every tool, filesystem query and HTTP answer is an oracle. */
module Symbols {
  import opened Wrappers
  import opened PyStr

  /** A (debug file, debug id) pair: the key of a symbol in the store and in the feed. */
  type SymbolKey = (string, string)

  /** Exit status and standard output of one run of an external tool. */
  datatype ToolRun = ToolRun(exitCode: int, stdout: string)

  /** The symbol server's answer to a HEAD request. */
  datatype HeadResponse = Status(code: int) | RequestFailed

  /** The host the gatherer runs on, as oracles for its filesystem and tools. */
  datatype Host = Host(
    isDir: string -> bool,                  // os.path.isdir
    isFile: string -> bool,                 // os.path.isfile
    executable: string -> bool,             // os.access(path, os.X_OK)
    walk: string -> seq<(string, string)>,  // os.walk(top), flattened to (root, file name) in walk order
    resolve: string -> string,              // what the readlink loop makes of a path
    fileType: string -> string,             // stdout of `file -Lb path`
    lipoInfo: string -> ToolRun,            // `lipo -info path`
    dump: seq<string> -> ToolRun)           // dump_syms run with an argument vector

  /** The fields of the dumper's first line that follow its (discarded) marker. */
  datatype ModuleRecord = ModuleRecord(platform: string, cpuArch: string, debugId: string, debugFile: string)

  /** What one (file, architecture) job produces: nothing, an archive entry
      name with the dumper's whole output, or an exception. */
  datatype JobOutcome = Rejected | Accepted(name: string, contents: string) | Raised(error: PyException)

  /** A member of the zip archive. */
  datatype Entry = Entry(name: string, data: string)

  function Key(m: ModuleRecord): SymbolKey { (m.debugFile, m.debugId) }

  /** The first line of dump_syms output, as the dumper writes it. */
  function ModuleLine(marker: string, m: ModuleRecord): string {
    Join([marker, m.platform, m.cpuArch, m.debugId, m.debugFile], " ")
  }

  lemma JoinFive(a: string, b: string, c: string, d: string, e: string, sep: string)
    ensures Join([a, b, c, d, e], sep) == a + sep + b + sep + c + sep + d + sep + e
  {
    assert [a, b, c, d, e][1..] == [b, c, d, e];
    assert [b, c, d, e][1..] == [c, d, e];
    assert [c, d, e][1..] == [d, e];
    assert [d, e][1..] == [e];
    assert Join([d, e], sep) == d + sep + e;
    assert Join([c, d, e], sep) == c + sep + Join([d, e], sep);
    assert Join([b, c, d, e], sep) == b + sep + Join([c, d, e], sep);
    assert Join([a, b, c, d, e], sep) == a + sep + Join([b, c, d, e], sep);
  }

  /** `module.split(' ', 4)` must give five pieces; the first is dropped
      unexamined and the fifth, the debug file, is the rest of the line. */
  function ParseModuleLine(line: string): (r: Option<ModuleRecord>)
    ensures r.Some? <==> Count(line, ' ') >= 4
    ensures r.Some? ==> ' ' !in r.value.platform && ' ' !in r.value.cpuArch && ' ' !in r.value.debugId
    ensures r.Some? ==> exists marker :: ' ' !in marker && line == ModuleLine(marker, r.value)
  {
    var bits := SplitN(line, ' ', 4);
    SplitNLength(line, ' ', 4);
    if |bits| != 5 then None
    else
      var m := ModuleRecord(bits[1], bits[2], bits[3], bits[4]);
      FivePieces(line);
      assert line == ModuleLine(bits[0], m);
      Some(m)
  }

  /** When `split(' ', 4)` gives five pieces, joining them with spaces
      restores the line. */
  lemma FivePieces(line: string)
    requires |SplitN(line, ' ', 4)| == 5
    ensures var b := SplitN(line, ' ', 4); line == Join([b[0], b[1], b[2], b[3], b[4]], " ")
  {
    JoinSplitN(line, ' ', 4);
    FiveParts(SplitN(line, ' ', 4), " ");
  }

  lemma FiveParts(b: seq<string>, sep: string)
    requires |b| == 5
    ensures Join(b, sep) == Join([b[0], b[1], b[2], b[3], b[4]], sep)
  {
    assert b == [b[0], b[1], b[2], b[3], b[4]];
  }

  /** Every line of the dumper's shape is accepted, whatever its marker says,
      and the debug file may itself contain spaces. */
  lemma ParseModuleLineRoundTrip(marker: string, m: ModuleRecord)
    requires ' ' !in marker && ' ' !in m.platform && ' ' !in m.cpuArch && ' ' !in m.debugId
    ensures ParseModuleLine(ModuleLine(marker, m)) == Some(m)
  {
    SplitNJoin([marker, m.platform, m.cpuArch, m.debugId, m.debugFile], ' ', 4);
  }

  /** `if missing_symbols and key not in missing_symbols: reject`; `None` and
      the empty set are both falsy and switch filtering off. */
  function Wanted(missing: Option<set<SymbolKey>>, key: SymbolKey): (w: bool)
    ensures missing.None? ==> w
    ensures missing == Some({}) ==> w
    ensures missing.Some? && missing.value != {} ==> (w <==> key in missing.value)
  {
    !(missing.Some? && missing.value != {} && key !in missing.value)
  }

  /** `os.path.join(debug_file, debug_id, debug_file + '.sym')`. */
  function SymbolFileName(debugFile: string, debugId: string): (r: string)
    ensures EndsWith(r, debugFile + ".sym") && |r| >= 4
  {
    PathJoin(PathJoin(debugFile, debugId), debugFile + ".sym")
  }

  /** For the names dump_syms reports, the key is `file/id/file.sym`. */
  lemma SymbolFileNamePlain(debugFile: string, debugId: string)
    requires debugFile != "" && debugId != ""
    requires !StartsWith(debugFile, "/") && !EndsWith(debugId, "/") && !StartsWith(debugId, "/") && !EndsWith(debugFile, "/")
    ensures SymbolFileName(debugFile, debugId) == debugFile + "/" + debugId + "/" + debugFile + ".sym"
  {
    PathJoinPlain(debugFile, debugId);
    var a := debugFile + "/" + debugId;
    assert a[|a| - 1..] == debugId[|debugId| - 1..];
    assert (debugFile + ".sym")[..1] == debugFile[..1];
    PathJoinPlain(a, debugFile + ".sym");
  }

  /** An absolute debug file name discards the other components of the join. */
  lemma SymbolFileNameAbsolute(debugFile: string, debugId: string)
    requires StartsWith(debugFile, "/")
    ensures SymbolFileName(debugFile, debugId) == debugFile + ".sym"
  {
    assert (debugFile + ".sym")[..1] == debugFile[..1];
  }

  /** What the dumper's run amounts to before the symbol server is asked. */
  datatype Extracted = NotFound | Found(record: ModuleRecord, stdout: string) | ExtractRaised(error: PyException)

  /** The part of `process_file` between the dumper and the server probe:
      a non-zero exit finds nothing, empty output raises IndexError at
      `splitlines()[0]`, a first line without five pieces finds nothing, and
      a record outside a non-empty allow-list is skipped. */
  function Extract(run: ToolRun, missing: Option<set<SymbolKey>>): (r: Extracted)
    ensures run.exitCode != 0 ==> r == NotFound
    ensures r.ExtractRaised? <==> run.exitCode == 0 && run.stdout == ""
    ensures r.ExtractRaised? ==> r.error == IndexError
    ensures r.Found? <==> run.exitCode == 0 && run.stdout != "" && ParseModuleLine(SplitLines(run.stdout)[0]).Some?
                          && Wanted(missing, Key(ParseModuleLine(SplitLines(run.stdout)[0]).value))
    ensures r.Found? ==> r.stdout == run.stdout && ParseModuleLine(SplitLines(run.stdout)[0]) == Some(r.record)
  {
    if run.exitCode != 0 then NotFound
    else
      var lines := SplitLines(run.stdout);
      if |lines| == 0 then ExtractRaised(IndexError)
      else
        match ParseModuleLine(lines[0])
        case None => NotFound
        case Some(m) => if Wanted(missing, Key(m)) then Found(m, run.stdout) else NotFound
  }

  /** When the server is asked for `name`, the dump is archived: the dump
      succeeded, its first line parses, the allow-list admits it, `name` is
      its store key and the server did not answer 200. */
  predicate Admits(run: ToolRun, missing: Option<set<SymbolKey>>, head: string -> HeadResponse, name: string)
  {
    && run.exitCode == 0
    && run.stdout != ""
    && var p := ParseModuleLine(SplitLines(run.stdout)[0]);
       && p.Some?
       && Wanted(missing, Key(p.value))
       && name == SymbolFileName(p.value.debugFile, p.value.debugId)
       && head(name) != Status(200)
  }

  /** `[dump_syms] + arch_arg + [path]`, where the architecture selector is
      passed on darwin only; a missing architecture there is not a string. */
  function DumpArgs(dumpSyms: string, platform: string, path: string, arch: Option<string>): (r: Result<seq<string>, PyException>)
    ensures platform != "darwin" ==> r == Success([dumpSyms, path])
    ensures platform == "darwin" && arch.Some? ==> r == Success([dumpSyms, "-a", arch.value, path])
    ensures platform == "darwin" && arch.None? ==> r == Failure(TypeError)
  {
    if platform == "darwin" then
      if arch.Some? then Success([dumpSyms, "-a", arch.value, path]) else Failure(TypeError)
    else Success([dumpSyms, path])
  }

  /** The `file` utility's description that marks a native binary. */
  function ObjectMagic(platform: string): string {
    if platform == "darwin" then "Mach-O" else "ELF"
  }

  function AsArchs(words: seq<string>): seq<Option<string>> {
    seq(|words|, k requires 0 <= k < |words| => Some(words[k]))
  }

  /** `get_archs`: off darwin a single job without architecture; on darwin
      the whitespace-separated words of the third ':'-field of `lipo -info`.
      `check_output` raises CalledProcessError when `lipo` exits non-zero,
      and the indexing raises IndexError when there is no third field. */
  function GetArchs(platform: string, lipo: ToolRun): (r: Result<seq<Option<string>>, PyException>)
    ensures platform != "darwin" ==> r == Success([None])
    ensures platform == "darwin" ==> (r.Failure? <==> lipo.exitCode != 0 || Count(lipo.stdout, ':') < 2)
    ensures r.Failure? ==> r.error == (if lipo.exitCode != 0 then CalledProcessError else IndexError)
    ensures platform == "darwin" && r.Success? ==>
              forall k :: 0 <= k < |r.value| ==> r.value[k].Some? && r.value[k].value != "" && NoSpace(r.value[k].value)
  {
    if platform == "darwin" then
      if lipo.exitCode != 0 then Failure(CalledProcessError)
      else
        var fields := Split(lipo.stdout, ':');
        SplitLength(lipo.stdout, ':');
        if |fields| < 3 then Failure(IndexError)
        else Success(AsArchs(Words(Strip(fields[2]))))
    else Success([None])
  }

  /** For `lipo -info` output "<a>:<b>: x86_64 i386\n", possibly followed by
      more ':'-fields, the architectures are exactly the listed words. */
  lemma LipoInfoArchs(a: string, b: string, archs: seq<string>, rest: string)
    requires ':' !in a && ':' !in b
    requires forall k :: 0 <= k < |archs| ==> archs[k] != "" && NoSpace(archs[k]) && ':' !in archs[k]
    requires rest == "" || rest[0] == ':'
    ensures GetArchs("darwin", ToolRun(0, a + ":" + b + ":" + (" " + Join(archs, " ") + "\n") + rest)) == Success(AsArchs(archs))
  {
    var t := " " + Join(archs, " ") + "\n";
    ListedNoColon(archs);
    ThirdField(a, b, t, rest);
    ListedWords(archs);
  }

  lemma ListedNoColon(archs: seq<string>)
    requires forall k :: 0 <= k < |archs| ==> ':' !in archs[k]
    ensures ':' !in " " + Join(archs, " ") + "\n"
  {
    var listed := Join(archs, " ");
    JoinNoChar(archs, " ", ':');
    assert " " + listed + "\n" == [' '] + listed + ['\n'];
  }

  /** The third ':'-field of "<a>:<b>:<t>" followed by nothing or by more fields. */
  lemma ThirdField(a: string, b: string, t: string, rest: string)
    requires ':' !in a && ':' !in b && ':' !in t
    requires rest == "" || rest[0] == ':'
    ensures var fields := Split(a + ":" + b + ":" + t + rest, ':'); |fields| >= 3 && fields[2] == t
  {
    TwoFields(a, b, t + rest);
    assert a + ":" + b + ":" + t + rest == a + ":" + b + ":" + (t + rest);
    LeadingField(t, rest);
  }

  /** Two leading ':'-fields come off a split one after the other. */
  lemma TwoFields(a: string, b: string, s: string)
    requires ':' !in a && ':' !in b
    ensures Split(a + ":" + b + ":" + s, ':') == [a, b] + Split(s, ':')
  {
    assert a + ":" + b + ":" + s == a + [':'] + (b + [':'] + s);
    SplitCons(a, ':', b + [':'] + s);
    SplitCons(b, ':', s);
  }

  /** A field ends at the next ':' or at the end. */
  lemma LeadingField(t: string, rest: string)
    requires ':' !in t
    requires rest == "" || rest[0] == ':'
    ensures Split(t + rest, ':')[0] == t
  {
    if rest == "" {
      assert t + rest == t;
    } else {
      assert t + rest == t + [':'] + rest[1..];
      SplitCons(t, ':', rest[1..]);
    }
  }
  /** `" x86_64 i386\n".strip().split() == ["x86_64", "i386"]`, in general. */
  lemma ListedWords(archs: seq<string>)
    requires forall k :: 0 <= k < |archs| ==> archs[k] != "" && NoSpace(archs[k])
    ensures Words(Strip(" " + Join(archs, " ") + "\n")) == archs
  {
    var listed := Join(archs, " ");
    var t := " " + listed + "\n";
    WordsStrip(t);
    assert t == (" " + listed) + ['\n'];
    WordsTrailingSpace(" " + listed, '\n');
    assert (" " + listed)[1..] == listed;
    WordsJoin(archs);
  }

  lemma {:induction false} JoinNoChar(parts: seq<string>, sep: string, c: char)
    requires c !in sep
    requires forall k :: 0 <= k < |parts| ==> c !in parts[k]
    ensures c !in Join(parts, sep)
  {
    if |parts| > 1 {
      JoinNoChar(parts[1..], sep, c);
    }
  }

  // ---------------------------------------------------------------------
  // The missing-symbols feed

  /** `'.dylib' if sys.platform == 'darwin' else '.so'`. */
  function LibraryExtension(platform: string): string {
    if platform == "darwin" then ".dylib" else ".so"
  }

  /** One feed line: its first two ','-fields after `rstrip()`, kept when
      the first ends with the library extension. */
  function FeedEntry(line: string, ext: string): (r: Option<SymbolKey>)
    ensures r.Some? ==> EndsWith(r.value.0, ext) && ',' !in r.value.0 && ',' !in r.value.1
    ensures ',' !in line ==> r.None?
  {
    var stripped := RStrip(line);
    assert ',' !in line ==> ',' !in stripped by {
      assert stripped == line[..|stripped|];
    }
    var bits := Split(stripped, ',');
    if |bits| < 2 then None
    else if EndsWith(bits[0], ext) then Some((bits[0], bits[1]))
    else None
  }

  /** The feed's set of keys from its lines (the header already skipped). */
  function FeedKeys(lines: seq<string>, ext: string): set<SymbolKey>
  {
    if lines == [] then {}
    else
      var prev := FeedKeys(lines[..|lines| - 1], ext);
      match FeedEntry(lines[|lines| - 1], ext)
      case None => prev
      case Some(key) => prev + {key}
  }

  /** `just_platform_symbols`: the header line is skipped (`next()` raises
      StopIteration on an empty feed), the rest are collected into a set. */
  function ParseFeed(feed: string, platform: string): Result<set<SymbolKey>, PyException>
  {
    var lines := SplitLines(feed);
    if |lines| == 0 then Failure(StopIteration)
    else Success(FeedKeys(lines[1..], LibraryExtension(platform)))
  }

  /** The loop of `just_platform_symbols`, adding each kept pair to a set. */
  method PlatformSymbols(feed: string, platform: string) returns (r: Result<set<SymbolKey>, PyException>)
    ensures r == ParseFeed(feed, platform)
  {
    var ext := LibraryExtension(platform);
    var lines := SplitLines(feed);
    if |lines| == 0 {
      return Failure(StopIteration);
    }
    var symbols: set<SymbolKey> := {};
    var i := 1;
    while i < |lines|
      invariant 1 <= i <= |lines|
      invariant symbols == FeedKeys(lines[1..i], ext)
    {
      FeedKeysNext(lines, i, ext);
      match FeedEntry(lines[i], ext) {
        case None =>
        case Some(key) => symbols := symbols + {key};
      }
      i := i + 1;
    }
    assert lines[1..i] == lines[1..];
    r := Success(symbols);
  }

  /** One more body line adds its key, if any, to the set. */
  lemma FeedKeysNext(lines: seq<string>, i: nat, ext: string)
    requires 1 <= i < |lines|
    ensures FeedEntry(lines[i], ext).None? ==> FeedKeys(lines[1..i + 1], ext) == FeedKeys(lines[1..i], ext)
    ensures FeedEntry(lines[i], ext).Some? ==>
              FeedKeys(lines[1..i + 1], ext) == FeedKeys(lines[1..i], ext) + {FeedEntry(lines[i], ext).value}
  {
    assert lines[1..i + 1][..i - 1] == lines[1..i];
    assert lines[1..i + 1][i - 1] == lines[i];
  }

  /** A key is in the feed's set exactly when some line yields it; repeats collapse. */
  lemma {:induction false} FeedKeysMember(lines: seq<string>, ext: string, key: SymbolKey)
    ensures key in FeedKeys(lines, ext) <==> exists i :: 0 <= i < |lines| && FeedEntry(lines[i], ext) == Some(key)
  {
    if lines != [] {
      var n := |lines| - 1;
      var init := lines[..n];
      FeedKeysMember(init, ext, key);
      FeedKeysSnoc(lines, ext, key);
      if key in FeedKeys(init, ext) {
        var i :| 0 <= i < |init| && FeedEntry(init[i], ext) == Some(key);
        assert lines[i] == init[i];
      } else if key !in FeedKeys(lines, ext) {
        forall i | 0 <= i < |lines|
          ensures FeedEntry(lines[i], ext) != Some(key)
        {
          if i < n {
            assert lines[i] == init[i];
          }
        }
      }
    }
  }

  /** Some element of `init + [last]` satisfies `p` exactly when some
      element of `init` does or `last` does. */
  lemma ExistsSnoc<T>(init: seq<T>, last: T, p: T -> bool)
    ensures (exists i :: 0 <= i < |init + [last]| && p((init + [last])[i]))
        <==> (exists i :: 0 <= i < |init| && p(init[i])) || p(last)
  {
    var xs := init + [last];
    assert xs[|init|] == last;
    if exists i :: 0 <= i < |init| && p(init[i]) {
      var i :| 0 <= i < |init| && p(init[i]);
      assert xs[i] == init[i];
    }
  }


  lemma FeedKeysSnoc(lines: seq<string>, ext: string, key: SymbolKey)
    requires lines != []
    ensures key in FeedKeys(lines, ext)
        <==> key in FeedKeys(lines[..|lines| - 1], ext) || FeedEntry(lines[|lines| - 1], ext) == Some(key)
  {
    var e := FeedEntry(lines[|lines| - 1], ext);
    if e.Some? {
      assert FeedKeys(lines, ext) == FeedKeys(lines[..|lines| - 1], ext) + {e.value};
    } else {
      assert FeedKeys(lines, ext) == FeedKeys(lines[..|lines| - 1], ext);
    }
  }

  /** Every key the feed yields names a library of the platform. */
  lemma FeedKeysExtension(feed: string, platform: string, key: SymbolKey)
    requires ParseFeed(feed, platform).Success? && key in ParseFeed(feed, platform).value
    ensures EndsWith(key.0, LibraryExtension(platform))
  {
    var lines := SplitLines(feed);
    FeedKeysMember(lines[1..], LibraryExtension(platform), key);
  }

  /** The header line never contributes: feeds that differ only there agree. */
  lemma FeedHeaderIgnored(header1: string, header2: string, body: string, platform: string)
    requires NoLineBreak(header1) && NoLineBreak(header2)
    ensures ParseFeed(header1 + "\n" + body, platform) == ParseFeed(header2 + "\n" + body, platform)
  {
    SplitLinesCons(header1, body);
    SplitLinesCons(header2, body);
    assert ([header1] + SplitLines(body))[1..] == SplitLines(body);
    assert ([header2] + SplitLines(body))[1..] == SplitLines(body);
  }

  /** A line "file,id" or "file,id,more..." yields (file, id) when the file
      is a platform library and the line does not end in whitespace. */
  lemma FeedEntryOf(debugFile: string, debugId: string, tail: string, ext: string)
    requires ',' !in debugFile && ',' !in debugId && EndsWith(debugFile, ext)
    requires tail == "" || tail[0] == ','
    requires var line := debugFile + "," + debugId + tail; !IsSpace(line[|line| - 1])
    ensures FeedEntry(debugFile + "," + debugId + tail, ext) == Some((debugFile, debugId))
  {
    var line := debugFile + "," + debugId + tail;
    assert RStrip(line) == line;
    var rest := debugId + tail;
    assert line == debugFile + [','] + rest;
    SplitCons(debugFile, ',', rest);
    assert Split(rest, ',')[0] == debugId by {
      if tail == "" {
        assert rest == debugId;
      } else {
        PeelFirst(debugId, tail);
        SplitCons(debugId, ',', tail[1..]);
      }
    }
    var bits := Split(line, ',');
    assert |bits| >= 2 && bits[0] == debugFile && bits[1] == debugId;
  }

  lemma PeelFirst<T>(a: seq<T>, t: seq<T>)
    requires |t| > 0
    ensures a + t == a + [t[0]] + t[1..]
  {
    assert t == [t[0]] + t[1..];
  }

  // ---------------------------------------------------------------------
  // Archive bookkeeping

  function Names(entries: seq<Entry>): seq<string> {
    seq(|entries|, k requires 0 <= k < |entries| => entries[k].name)
  }

  /** Appending an entry appends its name. */
  lemma NamesSnoc(entries: seq<Entry>, e: Entry)
    ensures Names(entries + [e]) == Names(entries) + [e.name]
  {
    assert forall k :: 0 <= k < |entries| ==> (entries + [e])[k] == entries[k];
  }

  /** `'\n'.join(file_list)`, the archive's index of symbol files. */
  function Manifest(names: seq<string>): string {
    Join(names, "\n")
  }

  /** The manifest can be read back line by line. */
  lemma ManifestLines(names: seq<string>)
    requires |names| >= 1 && forall k :: 0 <= k < |names| ==> '\n' !in names[k]
    ensures Split(Manifest(names), '\n') == names
  {
    SplitJoin(names, '\n');
  }

  /** `if filename and contents`: both must be non-empty strings. */
  predicate Truthy(o: JobOutcome) {
    o.Accepted? && o.name != "" && o.contents != ""
  }

  /** The names a run's outcomes would add to the archive. */
  function AcceptedNames(outcomes: seq<JobOutcome>): set<string>
  {
    set o | o in outcomes && Truthy(o) :: o.name
  }

  /** Which names are accepted does not depend on the order the outcomes arrive in. */
  lemma AcceptedNamesOrderFree(a: seq<JobOutcome>, b: seq<JobOutcome>)
    requires multiset(a) == multiset(b)
    ensures AcceptedNames(a) == AcceptedNames(b)
  {
    assert forall o :: o in a <==> o in b by {
      forall o ensures o in a <==> o in b {
        assert o in a <==> o in multiset(a);
        assert o in b <==> o in multiset(b);
      }
    }
  }

  // os.walk listings

  /** `os.path.join(root, f)` for every file an `os.walk` listing names. */
  function WalkPaths(entries: seq<(string, string)>): (r: seq<string>)
    ensures |r| == |entries|
  {
    if entries == [] then []
    else WalkPaths(entries[..|entries| - 1]) + [PathJoin(entries[|entries| - 1].0, entries[|entries| - 1].1)]
  }

  /** Each listed path is the join of its walk root and file name. */
  lemma {:induction false} WalkPathsAt(entries: seq<(string, string)>, k: nat)
    requires k < |entries|
    ensures WalkPaths(entries)[k] == PathJoin(entries[k].0, entries[k].1)
  {
    if k < |entries| - 1 {
      WalkPathsAt(entries[..|entries| - 1], k);
    }
  }

}
