/**
 * `MCKTResolver.KotlinLibrary`: the closed catalog of artifacts the resolver
 * knows, their markers and Maven coordinates, and the path builders over them.
 */
module KotlinLibraries {
  import opened Lang
  import opened Text

  /** The enum constants, in declaration order. */
  datatype Library = KotlinStdlib | KotlinStdlibJdk7 | KotlinStdlibJdk8 | KotlinReflect | JetbrainsAnnotation
  {
    /** The enum constant's own name, which is what `toString` gives. */
    function ConstantName(): string
    {
      match this
      case KotlinStdlib => "KotlinStdlib"
      case KotlinStdlibJdk7 => "KotlinStdlibJdk7"
      case KotlinStdlibJdk8 => "KotlinStdlibJdk8"
      case KotlinReflect => "KotlinReflect"
      case JetbrainsAnnotation => "JetbrainsAnnotation"
    }

    /** Position in declaration order, which orders EnumSet and EnumMap iteration. */
    function Ordinal(): nat
    {
      match this
      case KotlinStdlib => 0
      case KotlinStdlibJdk7 => 1
      case KotlinStdlibJdk8 => 2
      case KotlinReflect => 3
      case JetbrainsAnnotation => 4
    }

    /** `libName`: the key used by MCKT-KT-Parts. */
    function LibName(): string
    {
      match this
      case KotlinStdlib => "kotlin-stdlib"
      case KotlinStdlibJdk7 => "kotlin-stdlib-jdk7"
      case KotlinStdlibJdk8 => "kotlin-stdlib-jdk8"
      case KotlinReflect => "kotlin-reflect"
      case JetbrainsAnnotation => "jetbrains-annotations"
    }

    /** `detectClassFileName`: the archive entry whose presence means the library is shaded in. */
    function DetectClassFileName(): string
    {
      match this
      case KotlinStdlib => "kotlin/Pair.class"
      case KotlinStdlibJdk7 => "kotlin/internal/jdk7/JDK7PlatformImplementations.class"
      case KotlinStdlibJdk8 => "kotlin/internal/jdk8/JDK8PlatformImplementations.class"
      case KotlinReflect => "kotlin/reflect/ReflectJvmMapping.class"
      case JetbrainsAnnotation => "org/jetbrains/annotations/Nullable.class"
    }

    function GroupId(): string
    {
      if this == JetbrainsAnnotation then "org.jetbrains" else "org.jetbrains.kotlin"
    }

    /** `architectName`: the Maven artifact id; the three-argument constructor reuses `libName`. */
    function ArchitectName(): string
    {
      if this == JetbrainsAnnotation then "annotations" else LibName()
    }

    /** `getVersionOf`: the Kotlin version, except that the annotations are pinned to 13.0. */
    function GetVersionOf(version: string): string
    {
      if this == JetbrainsAnnotation then "13.0" else version
    }

    /** `architectFileName`: "<artifact>-<version>.jar". */
    function ArchitectFileName(version: string): string
    {
      ArchitectName() + "-" + GetVersionOf(version) + ".jar"
    }

    /** "/<artifact>/<file name>": what both architect paths put after the group id. */
    function ArtifactTail(version: string): string
    {
      "/" + ArchitectName() + "/" + ArchitectFileName(version)
    }

    /** `architectPath` as written: slashed group and artifact, but no version directory. */
    function ArchitectPath(version: string): string
    {
      ReplaceChar(GroupId(), '.', '/') + ArtifactTail(version)
    }

    /** `dottedArchitectPath` as written: dotted group and artifact, but no version directory. */
    function DottedArchitectPath(version: string): string
    {
      GroupId() + ArtifactTail(version)
    }

    /** The Maven repository layout "group/artifact/version/artifact-version.jar". */
    function RepositoryPath(version: string): string
    {
      ReplaceChar(GroupId(), '.', '/') + "/" + ArchitectName() + "/" + GetVersionOf(version) + "/" + ArchitectFileName(version)
    }

    /** The Gradle module cache directory "group/artifact/version" that holds one hash directory per file. */
    function GradleModuleDir(version: string): string
    {
      GroupId() + "/" + ArchitectName() + "/" + GetVersionOf(version)
    }
  }

  /** `KotlinLibrary.VALUES`. */
  const Values: seq<Library> := [KotlinStdlib, KotlinStdlibJdk7, KotlinStdlibJdk8, KotlinReflect, JetbrainsAnnotation]

  /** `Values` lists every library once, each at its ordinal. */
  lemma ValuesInDeclarationOrder(l: Library)
    ensures |Values| == 5
    ensures l in Values && Values[l.Ordinal()] == l
    ensures forall i :: 0 <= i < |Values| ==> Values[i].Ordinal() == i
  {
  }

  /** The `byName` index, as a lookup. */
  function ByName(name: string): (r: Option<Library>)
  {
    if name == "kotlin-stdlib" then Some(KotlinStdlib)
    else if name == "kotlin-stdlib-jdk7" then Some(KotlinStdlibJdk7)
    else if name == "kotlin-stdlib-jdk8" then Some(KotlinStdlibJdk8)
    else if name == "kotlin-reflect" then Some(KotlinReflect)
    else if name == "jetbrains-annotations" then Some(JetbrainsAnnotation)
    else None
  }

  /** `byName` maps exactly the library names, each back to its own library. */
  lemma ByNameInverse(name: string, l: Library)
    ensures ByName(name) == Some(l) <==> name == l.LibName()
  {
  }

  /** The static initialiser of `KotlinLibrary`: one `put` per constant, in order. */
  method BuildByName() returns (byName: map<string, Library>)
    ensures forall name :: name in byName <==> ByName(name).Some?
    ensures forall name :: name in byName ==> ByName(name) == Some(byName[name])
  {
    byName := map[];
    for i := 0 to |Values|
      invariant forall name :: name in byName <==> exists j :: 0 <= j < i && Values[j].LibName() == name
      invariant forall name :: name in byName ==> byName[name].LibName() == name
    {
      byName := byName[Values[i].LibName() := Values[i]];
    }
    forall name | name in byName ensures ByName(name) == Some(byName[name]) {
      ByNameInverse(name, byName[name]);
    }
    forall name | ByName(name).Some? ensures name in byName {
      ByNameInverse(name, ByName(name).value);
      ValuesInDeclarationOrder(ByName(name).value);
    }
  }

  /**
   * The libraries a manifest without MCKT-KT-Parts asks for, by the value of
   * `java.specification.version`: stdlib, plus jdk7 on "1.7", plus jdk8 on "1.8".
   */
  function DefaultLibs(javaSpecificationVersion: string): (r: set<Library>)
    ensures KotlinStdlib in r
    ensures KotlinStdlibJdk7 in r <==> javaSpecificationVersion in {"1.7", "1.8"}
    ensures KotlinStdlibJdk8 in r <==> javaSpecificationVersion == "1.8"
    ensures r <= {KotlinStdlib, KotlinStdlibJdk7, KotlinStdlibJdk8}
  {
    if javaSpecificationVersion == "1.8" then {KotlinStdlib, KotlinStdlibJdk7, KotlinStdlibJdk8}
    else if javaSpecificationVersion == "1.7" then {KotlinStdlib, KotlinStdlibJdk7}
    else {KotlinStdlib}
  }

  /** The pinned artifact's file name does not depend on the negotiated version. */
  lemma AnnotationsArePinned(v: string, w: string)
    ensures JetbrainsAnnotation.ArchitectFileName(v) == JetbrainsAnnotation.ArchitectFileName(w) == "annotations-13.0.jar"
  {
  }

  /** Every other artifact's file name names the version it was built for. */
  lemma {:induction false} FileNameDeterminesVersion(l: Library, v: string, w: string)
    requires l != JetbrainsAnnotation
    requires l.ArchitectFileName(v) == l.ArchitectFileName(w)
    ensures v == w
  {
    var prefix := l.ArchitectName() + "-";
    var fv, fw := l.ArchitectFileName(v), l.ArchitectFileName(w);
    assert |v| == |w|;
    assert fv == prefix + v + ".jar" && fw == prefix + w + ".jar";
    assert v == fv[|prefix|..|prefix| + |v|];
    assert w == fw[|prefix|..|prefix| + |w|];
  }

  /** `architectPath` is `dottedArchitectPath` with the dots of the group id turned into slashes. */
  lemma ArchitectPathIsSlashedGroup(l: Library, v: string)
    ensures l.ArchitectPath(v) == ReplaceChar(l.GroupId(), '.', '/') + l.DottedArchitectPath(v)[|l.GroupId()|..]
  {
    assert l.DottedArchitectPath(v)[|l.GroupId()|..] == l.ArtifactTail(v);
  }

  /**
   * As written the download path has no version directory: for every library
   * and version it is one path segment short of the repository layout.
   */
  lemma ArchitectPathMissesVersionDirectory(l: Library, v: string)
    ensures |l.RepositoryPath(v)| == |l.ArchitectPath(v)| + |l.GetVersionOf(v)| + 1
    ensures l.ArchitectPath(v) != l.RepositoryPath(v)
  {
  }
}
