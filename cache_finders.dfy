/**
 * The three `KotlinCacheFinder`s (Gradle module cache, local Maven repository,
 * the resolver's own verified cache) and `download`, over an explicit file
 * system value and explicit network and SHA-1 oracles.
 */
module CacheFinders {
  import opened Lang
  import opened Text
  import opened KotlinLibraries
  import opened ByteStreams

  /** The part of the local file system the finders look at. */
  datatype FileSystem = FileSystem(
    files: map<string, seq<int8>>,   // regular files (`isFile`) and their bytes
    dirs: map<string, seq<string>>,  // directories and the child names `listFiles` yields, in order
    failing: set<string>)            // paths whose opening, reading or writing throws IOException

  /** What the finders and the download consult but never change. */
  datatype Env = Env(
    home: string,                           // System.getProperty("user.home")
    remote: map<string, seq<seq<int8>>>,    // URL -> the chunks its stream yields; absent URLs fail
    sha1: seq<int8> -> seq<int8>)           // MessageDigest "SHA-1", left uninterpreted

  /** `new File(parent, name)`. */
  function Child(parent: string, name: string): string
  {
    parent + "/" + name
  }

  /** `file.toURI()`. */
  function FileUri(path: string): string
  {
    "file:" + path
  }

  const GradleCacheDir: string := ".gradle/caches/modules-2/files-2.1/"
  const MavenCacheDir: string := ".m2/repository/"
  const MCKTCacheDir: string := ".cache/anatawa12-mckt-resolver/kotlin-stdlib/"
  const RemoteRepository: string := "https://repo1.maven.org/maven2/"

  /** The first child directory of `dir` (in listing order) that holds a regular file `jarName`. */
  function FirstFileIn(fs: FileSystem, dir: string, names: seq<string>, jarName: string): (r: Option<string>)
    ensures r.Some? ==> r.value in fs.files
  {
    if names == [] then None
    else
      var candidate := Child(Child(dir, names[0]), jarName);
      if candidate in fs.files then Some(candidate) else FirstFileIn(fs, dir, names[1..], jarName)
  }

  /** `FirstFileIn` picks the file under the earliest listed child that has one. */
  lemma {:induction false} FirstFileInIsFirst(fs: FileSystem, dir: string, names: seq<string>, jarName: string)
    ensures FirstFileIn(fs, dir, names, jarName).Some? <==>
      exists i :: 0 <= i < |names| && Child(Child(dir, names[i]), jarName) in fs.files
    ensures FirstFileIn(fs, dir, names, jarName).Some? ==>
      exists i :: 0 <= i < |names| && FirstFileIn(fs, dir, names, jarName).value == Child(Child(dir, names[i]), jarName)
        && forall j :: 0 <= j < i ==> Child(Child(dir, names[j]), jarName) !in fs.files
  {
    if names != [] {
      FirstFileInIsFirst(fs, dir, names[1..], jarName);
      var r := FirstFileIn(fs, dir, names, jarName);
      if Child(Child(dir, names[0]), jarName) !in fs.files && r.Some? {
        var i :| 0 <= i < |names[1..]| && r.value == Child(Child(dir, names[1..][i]), jarName)
          && forall j :: 0 <= j < i ==> Child(Child(dir, names[1..][j]), jarName) !in fs.files;
        assert forall j :: 0 <= j < i + 1 ==> Child(Child(dir, names[j]), jarName) !in fs.files by {
          forall j | 0 <= j < i + 1 ensures Child(Child(dir, names[j]), jarName) !in fs.files {
            if j > 0 { assert names[j] == names[1..][j - 1]; }
          }
        }
      }
      if exists i :: 0 <= i < |names| && Child(Child(dir, names[i]), jarName) in fs.files {
        var i :| 0 <= i < |names| && Child(Child(dir, names[i]), jarName) in fs.files;
        if i > 0 { assert names[i] == names[1..][i - 1]; }
      }
    }
  }

  // ---------------------------------------------------------------------------
  // Gradle module cache

  /** Where the code as written lists: the dotted path ends in the jar's file name, not a version. */
  function GradleDirAsWritten(home: string, lib: Library, version: string): string
  {
    Child(home, GradleCacheDir + lib.DottedArchitectPath(version))
  }

  /** The Gradle layout: one hash directory per file under group/artifact/version. */
  function GradleDir(home: string, lib: Library, version: string): string
  {
    Child(home, GradleCacheDir + lib.GradleModuleDir(version))
  }

  /** `GradleKotlinCacheFinder.find` as written: no version directory, and no version override in the file name. */
  function GradleFindAsWritten(fs: FileSystem, home: string, lib: Library, version: string): (r: Option<string>)
    ensures r.Some? ==> r.value in fs.files
  {
    var dir := GradleDirAsWritten(home, lib, version);
    if dir !in fs.dirs then None
    else FirstFileIn(fs, dir, fs.dirs[dir], lib.ArchitectName() + "-" + version + ".jar")
  }

  /** `GradleKotlinCacheFinder.find` with the version directory and the pinned file name. */
  function GradleFind(fs: FileSystem, home: string, lib: Library, version: string): (r: Option<string>)
    ensures r.Some? ==> r.value in fs.files
  {
    var dir := GradleDir(home, lib, version);
    if dir !in fs.dirs then None
    else FirstFileIn(fs, dir, fs.dirs[dir], lib.ArchitectFileName(version))
  }

  /** The scan over `listFiles()` that `GradleKotlinCacheFinder.find` runs. */
  method ScanGradleCache(fs: FileSystem, home: string, lib: Library, version: string) returns (found: Option<string>)
    ensures found == GradleFind(fs, home, lib, version)
    ensures found.Some? ==> found.value in fs.files
  {
    var dir := GradleDir(home, lib, version);
    if dir !in fs.dirs {
      return None;
    }
    var files := fs.dirs[dir];
    var jarName := lib.ArchitectFileName(version);
    for i := 0 to |files|
      invariant FirstFileIn(fs, dir, files[i..], jarName) == FirstFileIn(fs, dir, files, jarName)
    {
      assert files[i..][1..] == files[i + 1..];
      var jarFile := Child(Child(dir, files[i]), jarName);
      if jarFile in fs.files {
        return Some(jarFile);
      }
    }
    return None;
  }

  /** A correctly laid out Gradle cache is found by the fixed finder and missed by the code as written. */
  lemma GradleAsWrittenMissesLayout(home: string, lib: Library, version: string, hash: string)
    ensures var dir := GradleDir(home, lib, version);
      var fs := FileSystem(map[Child(Child(dir, hash), lib.ArchitectFileName(version)) := []], map[dir := [hash]], {});
      GradleFind(fs, home, lib, version) == Some(Child(Child(dir, hash), lib.ArchitectFileName(version)))
      && GradleFindAsWritten(fs, home, lib, version) == None
  {
    var dir := GradleDir(home, lib, version);
    var w := GradleDirAsWritten(home, lib, version);
    assert |w| != |dir|;
  }

  // ---------------------------------------------------------------------------
  // local Maven repository

  /** `MavenKotlinCacheFinder`'s path as written: the file name uses the enum constant and skips `getVersionOf`. */
  function MavenPathAsWritten(home: string, lib: Library, version: string): string
  {
    Child(home, MavenCacheDir + ReplaceChar(lib.GroupId(), '.', '/') + "/" + lib.ArchitectName() + "/" + version
      + "/" + lib.ConstantName() + "-" + version + ".jar")
  }

  /** The repository layout under ~/.m2/repository. */
  function MavenPath(home: string, lib: Library, version: string): string
  {
    Child(home, MavenCacheDir + lib.RepositoryPath(version))
  }

  function MavenFind(fs: FileSystem, home: string, lib: Library, version: string): (r: Option<string>)
    ensures r.Some? <==> MavenPath(home, lib, version) in fs.files
    ensures r.Some? ==> r.value == MavenPath(home, lib, version)
  {
    var jarFile := MavenPath(home, lib, version);
    if jarFile in fs.files then Some(jarFile) else None
  }

  /** As written the Maven finder never looks at the file the repository layout puts there. */
  lemma MavenPathAsWrittenIsWrong(home: string, lib: Library, version: string)
    requires version != ""
    ensures MavenPathAsWritten(home, lib, version) != MavenPath(home, lib, version)
  {
    assert |MavenPathAsWritten(home, lib, version)| != |MavenPath(home, lib, version)|;
  }

  // ---------------------------------------------------------------------------
  // the resolver's own cache

  /** `MCKTKotlinCacheFinder.getCacheFile`: keyed by the enum constant and the Kotlin version. */
  function CacheFile(home: string, lib: Library, version: string): string
  {
    Child(home, MCKTCacheDir + lib.ConstantName() + "-" + version + ".jar")
  }

  function Sidecar(path: string): string
  {
    path + ".sha1"
  }

  /**
   * `MCKTKotlinCacheFinder.find` as written: reads 20 sidecar bytes and
   * compares them with the hex of the digest, which `toHexBytes` may also
   * throw on.
   */
  function MCKTFindAsWritten(fs: FileSystem, env: Env, lib: Library, version: string): (r: Result<Option<string>, Exception>)
  {
    var jarFile := CacheFile(env.home, lib, version);
    var side := Sidecar(jarFile);
    if jarFile !in fs.files then Ok(None)
    else if jarFile in fs.failing || side !in fs.files || side in fs.failing then Ok(None)
    else if |fs.files[side]| < 20 then Ok(None)
    else
      match HexAsWritten(env.sha1(fs.files[jarFile]))
      case Err(e) => Err(e)
      case Ok(hex) => if hex == fs.files[side][..20] then Ok(Some(jarFile)) else Ok(None)
  }

  /** With a 20-byte digest the 40 hex bytes never equal the 20 bytes read, so the cache never hits. */
  lemma MCKTFindAsWrittenNeverHits(fs: FileSystem, env: Env, lib: Library, version: string)
    requires var jarFile := CacheFile(env.home, lib, version);
      jarFile in fs.files ==> |env.sha1(fs.files[jarFile])| == 20
    ensures MCKTFindAsWritten(fs, env, lib, version).Ok? ==> MCKTFindAsWritten(fs, env, lib, version).value == None
  {
  }

  /** The verified cache: the sidecar must start with the lower-case hex of the file's SHA-1. */
  function MCKTFind(fs: FileSystem, env: Env, lib: Library, version: string): (r: Option<string>)
    ensures r.Some? ==> r.value == CacheFile(env.home, lib, version)
    ensures r.Some? ==> var side := Sidecar(r.value);
      r.value in fs.files && side in fs.files && |fs.files[side]| >= 40
      && HexDecode(fs.files[side][..40]) == Some(env.sha1(fs.files[r.value]))
    ensures var jarFile := CacheFile(env.home, lib, version); var side := Sidecar(jarFile);
      r.Some? <==>
        && jarFile in fs.files && jarFile !in fs.failing
        && side in fs.files && side !in fs.failing
        && |fs.files[side]| >= 40 && fs.files[side][..40] == HexEncode(env.sha1(fs.files[jarFile]))
  {
    var jarFile := CacheFile(env.home, lib, version);
    var side := Sidecar(jarFile);
    if jarFile !in fs.files then None
    else if jarFile in fs.failing || side !in fs.files || side in fs.failing then None
    else if |fs.files[side]| < 40 then None
    else if HexEncode(env.sha1(fs.files[jarFile])) == fs.files[side][..40] then
      HexRoundTrip(env.sha1(fs.files[jarFile]));
      Some(jarFile)
    else None
  }

  // ---------------------------------------------------------------------------
  // the finder chain

  datatype Finder = Gradle | Maven | MCKT

  /** `Resolver.finders`, in the order they are consulted. */
  const Finders: seq<Finder> := [Gradle, Maven, MCKT]

  function FindWith(finder: Finder, fs: FileSystem, env: Env, lib: Library, version: string): (r: Option<string>)
    ensures r.Some? ==> r.value in fs.files
  {
    match finder
    case Gradle => GradleFind(fs, env.home, lib, version)
    case Maven => MavenFind(fs, env.home, lib, version)
    case MCKT => MCKTFind(fs, env, lib, version)
  }

  /** The first finder of `finders` that reports a file. */
  function FirstHit(finders: seq<Finder>, fs: FileSystem, env: Env, lib: Library, version: string): (r: Option<string>)
    ensures r.Some? ==> r.value in fs.files
  {
    if finders == [] then None
    else
      var hit := FindWith(finders[0], fs, env, lib, version);
      if hit.Some? then hit else FirstHit(finders[1..], fs, env, lib, version)
  }

  /** The finders in `Finders` order; whatever is reported is an existing file. */
  function FindChain(fs: FileSystem, env: Env, lib: Library, version: string): (r: Option<string>)
    ensures r.Some? ==> r.value in fs.files
  {
    FirstHit(Finders, fs, env, lib, version)
  }

  /** The chain answers from the highest-priority cache that has the artifact. */
  lemma FindChainPriority(fs: FileSystem, env: Env, lib: Library, version: string)
    ensures GradleFind(fs, env.home, lib, version).Some? ==>
      FindChain(fs, env, lib, version) == GradleFind(fs, env.home, lib, version)
    ensures GradleFind(fs, env.home, lib, version).None? && MavenFind(fs, env.home, lib, version).Some? ==>
      FindChain(fs, env, lib, version) == MavenFind(fs, env.home, lib, version)
    ensures GradleFind(fs, env.home, lib, version).None? && MavenFind(fs, env.home, lib, version).None? ==>
      FindChain(fs, env, lib, version) == MCKTFind(fs, env, lib, version)
    ensures FindChain(fs, env, lib, version).None? <==>
      GradleFind(fs, env.home, lib, version).None? && MavenFind(fs, env.home, lib, version).None?
      && MCKTFind(fs, env, lib, version).None?
  {
    var tail: seq<Finder> := [MCKT];
    assert tail[1..] == [];
    assert FirstHit(tail, fs, env, lib, version) == MCKTFind(fs, env, lib, version);
    var mid: seq<Finder> := [Maven, MCKT];
    assert mid[1..] == tail;
    assert Finders[1..] == mid && Finders[0] == Gradle && mid[0] == Maven && tail[0] == MCKT;
    var m := MavenFind(fs, env.home, lib, version);
    assert FirstHit(mid, fs, env, lib, version) == if m.Some? then m else FirstHit(tail, fs, env, lib, version);
  }

  /** The loop over `finders` with its `break` on the first hit. */
  method FindCached(fs: FileSystem, env: Env, lib: Library, version: string) returns (found: Option<string>)
    ensures found == FindChain(fs, env, lib, version)
  {
    found := None;
    var k := 0;
    while k < |Finders|
      invariant 0 <= k <= |Finders|
      invariant found.None? ==> FirstHit(Finders[k..], fs, env, lib, version) == FindChain(fs, env, lib, version)
      invariant found.Some? ==> found == FindChain(fs, env, lib, version)
    {
      assert Finders[k..][1..] == Finders[k + 1..];
      var file: Option<string>;
      match Finders[k] {
        case Gradle => file := ScanGradleCache(fs, env.home, lib, version);
        case Maven => file := MavenFind(fs, env.home, lib, version);
        case MCKT => file := MCKTFind(fs, env, lib, version);
      }
      if file.Some? {
        found := file;
        break;
      }
      k := k + 1;
    }
  }

  // ---------------------------------------------------------------------------
  // download

  /**
   * `download` with the repository layout fixed: stream the artifact into the
   * cache file, then write the lower-case hex of its SHA-1 beside it. A missing
   * artifact or an unwritable file is an IOException, rethrown as a
   * RuntimeException.
   */
  function Download(fs: FileSystem, env: Env, lib: Library, version: string): (r: Result<(string, FileSystem), Exception>)
    ensures var writeTo, url := CacheFile(env.home, lib, version), RemoteRepository + lib.RepositoryPath(version);
      && (r.Ok? <==> url in env.remote && writeTo !in fs.failing && Sidecar(writeTo) !in fs.failing)
      && (url !in env.remote ==> r == Err(Runtime(IO(url))))
      && (url in env.remote && writeTo in fs.failing ==> r == Err(Runtime(IO(writeTo))))
      && (url in env.remote && writeTo !in fs.failing && Sidecar(writeTo) in fs.failing ==>
            r == Err(Runtime(IO(Sidecar(writeTo)))))
    ensures var writeTo, url := CacheFile(env.home, lib, version), RemoteRepository + lib.RepositoryPath(version);
      r.Ok? ==>
        && r.value.0 == FileUri(writeTo)
        && r.value.1.files.Keys == fs.files.Keys + {writeTo, Sidecar(writeTo)}
        && r.value.1.files[writeTo] == Concat(env.remote[url])
        && r.value.1.files[Sidecar(writeTo)] == HexEncode(env.sha1(Concat(env.remote[url])))
        && (forall p :: p in fs.files && p != writeTo && p != Sidecar(writeTo) ==> r.value.1.files[p] == fs.files[p])
        && r.value.1.dirs == fs.dirs && r.value.1.failing == fs.failing
  {
    var writeTo := CacheFile(env.home, lib, version);
    var url := RemoteRepository + lib.RepositoryPath(version);
    assert |Sidecar(writeTo)| != |writeTo|;
    if url !in env.remote then Err(Runtime(IO(url)))
    else if writeTo in fs.failing then Err(Runtime(IO(writeTo)))
    else if Sidecar(writeTo) in fs.failing then Err(Runtime(IO(Sidecar(writeTo))))
    else
      var content := Concat(env.remote[url]);
      var files := fs.files[writeTo := content][Sidecar(writeTo) := HexEncode(env.sha1(content))];
      Ok((FileUri(writeTo), fs.(files := files)))
  }

  /** `p` is the same regular file, with the same bytes, in both file systems. */
  predicate SameFile(a: FileSystem, b: FileSystem, p: string)
  {
    (p in a.files <==> p in b.files) && (p in a.files ==> a.files[p] == b.files[p])
  }

  lemma ChildNameAt(parent: string, name: string, k: int)
    requires 0 <= k < |name|
    ensures Child(parent, name)[|parent| + 1 + k] == name[k]
  {
  }

  lemma ChildParentAt(parent: string, name: string, k: int)
    requires 0 <= k < |parent|
    ensures Child(parent, name)[k] == parent[k]
  {
  }

  /** Files in the Gradle cache sit under `home/.g…`. */
  lemma GradleLetter(home: string, lib: Library, version: string, name: string)
    ensures Child(Child(GradleDir(home, lib, version), name), lib.ArchitectFileName(version))[|home| + 2] == 'g'
  {
    var g := GradleDir(home, lib, version);
    var rest := GradleCacheDir + lib.GradleModuleDir(version);
    ChildNameAt(home, rest, 1);
    assert rest[1] == GradleCacheDir[1] == 'g';
    ChildParentAt(g, name, |home| + 2);
    ChildParentAt(Child(g, name), lib.ArchitectFileName(version), |home| + 2);
  }

  /** The Maven repository sits under `home/.m…`. */
  lemma MavenLetter(home: string, lib: Library, version: string)
    ensures MavenPath(home, lib, version)[|home| + 2] == 'm'
  {
    var rest := MavenCacheDir + lib.RepositoryPath(version);
    ChildNameAt(home, rest, 1);
    assert rest[1] == MavenCacheDir[1] == 'm';
  }

  /** The cache file name of `lib`, the part of its path that differs between libraries. */
  function CacheFileName(lib: Library, version: string): string
  {
    lib.ConstantName() + "-" + version + ".jar"
  }

  lemma CacheFileSplit(home: string, lib: Library, version: string)
    ensures CacheFile(home, lib, version) == (home + "/" + MCKTCacheDir) + CacheFileName(lib, version)
  {
  }

  /** The resolver's cache sits under `home/.c…`. */
  lemma CacheLetter(home: string, lib: Library, version: string)
    ensures CacheFile(home, lib, version)[|home| + 2] == 'c'
    ensures Sidecar(CacheFile(home, lib, version))[|home| + 2] == 'c'
  {
    CacheFileSplit(home, lib, version);
    assert (home + "/" + MCKTCacheDir)[|home| + 2] == MCKTCacheDir[1] == 'c';
  }

  /** Different constant names give different cache file names. */
  lemma CacheFileNamesDistinct(lib: Library, other: Library, version: string)
    requires lib != other
    ensures CacheFileName(lib, version) != CacheFileName(other, version)
  {
    var ca, cb := lib.ConstantName(), other.ConstantName();
    assert ca != cb;
    var x, y := CacheFileName(lib, version), CacheFileName(other, version);
    if |ca| == |cb| {
      assert x[..|ca|] == ca && y[..|cb|] == cb;
    }
  }

  /** A cache file ends in ".jar", a sidecar in ".sha1", and sidecars of different files differ. */
  lemma SidecarFacts(home: string, lib: Library, version: string, p: string, q: string)
    ensures CacheFile(home, lib, version)[|CacheFile(home, lib, version)| - 1] == 'r'
    ensures Sidecar(p)[|Sidecar(p)| - 1] == '1'
    ensures p != q ==> Sidecar(p) != Sidecar(q)
  {
    var x := CacheFileName(lib, version);
    CacheFileSplit(home, lib, version);
    assert x[|x| - 1] == 'r';
    if Sidecar(p) == Sidecar(q) {
      assert Sidecar(p)[..|p|] == p && Sidecar(q)[..|q|] == q;
    }
  }

  lemma PrefixedDistinct(pre: string, x: string, y: string)
    requires x != y
    ensures pre + x != pre + y
  {
    assert (pre + x)[|pre|..] == x;
    assert (pre + y)[|pre|..] == y;
  }

  /** Two libraries never share a cache file or a sidecar, and no sidecar is a cache file. */
  lemma CacheFilesDistinct(home: string, lib: Library, other: Library, version: string)
    requires lib != other
    ensures var a, b := CacheFile(home, lib, version), CacheFile(home, other, version);
      a != b && a != Sidecar(b) && Sidecar(a) != b && Sidecar(a) != Sidecar(b)
  {
    CacheFileSplit(home, lib, version);
    CacheFileSplit(home, other, version);
    CacheFileNamesDistinct(lib, other, version);
    PrefixedDistinct(home + "/" + MCKTCacheDir, CacheFileName(lib, version), CacheFileName(other, version));
    var a, b := CacheFile(home, lib, version), CacheFile(home, other, version);
    SidecarFacts(home, lib, version, a, b);
    SidecarFacts(home, other, version, b, a);
  }

  /** `FirstFileIn` only looks at the candidate paths under `dir`. */
  lemma {:induction false} FirstFileInFrame(fs: FileSystem, fs': FileSystem, dir: string, names: seq<string>, jarName: string)
    requires forall name :: Child(Child(dir, name), jarName) in fs.files <==> Child(Child(dir, name), jarName) in fs'.files
    ensures FirstFileIn(fs', dir, names, jarName) == FirstFileIn(fs, dir, names, jarName)
  {
    if names != [] {
      FirstFileInFrame(fs, fs', dir, names[1..], jarName);
    }
  }

  /** Each finder reads only its own paths (and `failing`, `dirs`), so agreeing there means agreeing answers. */
  lemma GradleFindFrame(fs: FileSystem, fs': FileSystem, home: string, lib: Library, version: string)
    requires fs'.dirs == fs.dirs
    requires forall name :: SameFile(fs, fs', Child(Child(GradleDir(home, lib, version), name), lib.ArchitectFileName(version)))
    ensures GradleFind(fs', home, lib, version) == GradleFind(fs, home, lib, version)
  {
    var dir := GradleDir(home, lib, version);
    if dir in fs.dirs {
      FirstFileInFrame(fs, fs', dir, fs.dirs[dir], lib.ArchitectFileName(version));
    }
  }

  lemma MavenFindFrame(fs: FileSystem, fs': FileSystem, home: string, lib: Library, version: string)
    requires SameFile(fs, fs', MavenPath(home, lib, version))
    ensures MavenFind(fs', home, lib, version) == MavenFind(fs, home, lib, version)
  {
  }

  lemma MCKTFindFrame(fs: FileSystem, fs': FileSystem, env: Env, lib: Library, version: string)
    requires fs'.failing == fs.failing
    requires SameFile(fs, fs', CacheFile(env.home, lib, version))
    requires SameFile(fs, fs', Sidecar(CacheFile(env.home, lib, version)))
    ensures MCKTFind(fs', env, lib, version) == MCKTFind(fs, env, lib, version)
  {
  }

  lemma FindChainFrame(fs: FileSystem, fs': FileSystem, env: Env, lib: Library, version: string)
    requires GradleFind(fs', env.home, lib, version) == GradleFind(fs, env.home, lib, version)
    requires MavenFind(fs', env.home, lib, version) == MavenFind(fs, env.home, lib, version)
    requires MCKTFind(fs', env, lib, version) == MCKTFind(fs, env, lib, version)
    ensures FindChain(fs', env, lib, version) == FindChain(fs, env, lib, version)
  {
    FindChainPriority(fs, env, lib, version);
    FindChainPriority(fs', env, lib, version);
  }

  /** A download changes no file but the cache file and sidecar it writes. */
  lemma DownloadFrame(fs: FileSystem, env: Env, other: Library, version: string, p: string)
    requires Download(fs, env, other, version).Ok?
    requires p != CacheFile(env.home, other, version) && p != Sidecar(CacheFile(env.home, other, version))
    ensures SameFile(fs, Download(fs, env, other, version).value.1, p)
  {
  }

  lemma DownloadKeepsGradle(fs: FileSystem, env: Env, other: Library, lib: Library, version: string)
    requires Download(fs, env, other, version).Ok?
    ensures GradleFind(Download(fs, env, other, version).value.1, env.home, lib, version) == GradleFind(fs, env.home, lib, version)
  {
    var fs' := Download(fs, env, other, version).value.1;
    CacheLetter(env.home, other, version);
    forall name ensures SameFile(fs, fs', Child(Child(GradleDir(env.home, lib, version), name), lib.ArchitectFileName(version))) {
      GradleLetter(env.home, lib, version, name);
      DownloadFrame(fs, env, other, version, Child(Child(GradleDir(env.home, lib, version), name), lib.ArchitectFileName(version)));
    }
    GradleFindFrame(fs, fs', env.home, lib, version);
  }

  lemma DownloadKeepsMaven(fs: FileSystem, env: Env, other: Library, lib: Library, version: string)
    requires Download(fs, env, other, version).Ok?
    ensures MavenFind(Download(fs, env, other, version).value.1, env.home, lib, version) == MavenFind(fs, env.home, lib, version)
  {
    CacheLetter(env.home, other, version);
    MavenLetter(env.home, lib, version);
    DownloadFrame(fs, env, other, version, MavenPath(env.home, lib, version));
    MavenFindFrame(fs, Download(fs, env, other, version).value.1, env.home, lib, version);
  }

  lemma DownloadKeepsMCKT(fs: FileSystem, env: Env, other: Library, lib: Library, version: string)
    requires other != lib && Download(fs, env, other, version).Ok?
    ensures MCKTFind(Download(fs, env, other, version).value.1, env, lib, version) == MCKTFind(fs, env, lib, version)
  {
    var jarFile := CacheFile(env.home, lib, version);
    CacheFilesDistinct(env.home, lib, other, version);
    DownloadFrame(fs, env, other, version, jarFile);
    DownloadFrame(fs, env, other, version, Sidecar(jarFile));
    MCKTFindFrame(fs, Download(fs, env, other, version).value.1, env, lib, version);
  }

  /** A download for one library leaves what the finders report for any other library as it was. */
  lemma DownloadKeepsOtherFinds(fs: FileSystem, env: Env, other: Library, lib: Library, version: string)
    requires other != lib && Download(fs, env, other, version).Ok?
    ensures FindChain(Download(fs, env, other, version).value.1, env, lib, version) == FindChain(fs, env, lib, version)
  {
    DownloadKeepsGradle(fs, env, other, lib, version);
    DownloadKeepsMaven(fs, env, other, lib, version);
    DownloadKeepsMCKT(fs, env, other, lib, version);
    FindChainFrame(fs, Download(fs, env, other, version).value.1, env, lib, version);
  }

  /**
   * What `download` does step by step: `copy` into the file and the digester
   * at once, then `toHexBytes` of the digest into the sidecar.
   */
  method DownloadArtifact(fs: FileSystem, env: Env, lib: Library, version: string)
    returns (r: Result<(string, FileSystem), Exception>)
    ensures r == Download(fs, env, lib, version)
  {
    var writeTo := CacheFile(env.home, lib, version);
    var url := RemoteRepository + lib.RepositoryPath(version);
    if url !in env.remote {
      return Err(Runtime(IO(url)));
    }
    if writeTo in fs.failing {
      return Err(Runtime(IO(writeTo)));
    }
    var written := Copy(env.remote[url], [[], []]);
    var content, digested := written[0], written[1];
    assert content == Concat(env.remote[url]) by { assert [] + Concat(env.remote[url]) == Concat(env.remote[url]); }
    assert digested == content;
    if Sidecar(writeTo) in fs.failing {
      return Err(Runtime(IO(Sidecar(writeTo))));
    }
    var digest := env.sha1(digested);
    var digestArray := new int8[|digest|](i requires 0 <= i < |digest| => digest[i]);
    var hex := ToHexBytes(digestArray);
    assert digestArray[..] == digest;
    var files := fs.files[writeTo := content][Sidecar(writeTo) := hex[..]];
    return Ok((FileUri(writeTo), fs.(files := files)));
  }

  /** What the download writes, the verified cache accepts straight away. */
  lemma DownloadThenFind(fs: FileSystem, env: Env, lib: Library, version: string)
    requires Download(fs, env, lib, version).Ok?
    requires |env.sha1(Concat(env.remote[RemoteRepository + lib.RepositoryPath(version)]))| == 20
    ensures MCKTFind(Download(fs, env, lib, version).value.1, env, lib, version) == Some(CacheFile(env.home, lib, version))
  {
    var writeTo := CacheFile(env.home, lib, version);
    var fs' := Download(fs, env, lib, version).value.1;
    assert Sidecar(writeTo) != writeTo by {
      assert |Sidecar(writeTo)| != |writeTo|;
    }
    var content := Concat(env.remote[RemoteRepository + lib.RepositoryPath(version)]);
    assert fs'.files[writeTo] == content;
    assert fs'.files[Sidecar(writeTo)][..40] == HexEncode(env.sha1(content));
  }
}
