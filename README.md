# minecraft-kotlin-resolver, modelled in Dafny

`MCKTResolver` is a Minecraft Forge tweaker. Before the game starts, it
finds the Kotlin runtime libraries that the installed mods need, picks one
Kotlin version for all of them, and adds those libraries to the game's class
loader. It reads each mod jar in two ways:

- It looks for one marker class per library, which means the mod shades that
  library.
- It reads the optional `MCKT-*` manifest attributes, which declare a version,
  a list of library parts and, optionally, a path inside the mod for each part.

The newest declared version wins. Every library that is needed is then looked
up in three caches, in order:

1. the Gradle module cache;
2. the local Maven repository;
3. the resolver's own SHA-1 verified cache.

A library found in none of them is downloaded from Maven Central into the
resolver's own cache. A `.sha1` sidecar file is written beside it.

The model has these modules, one file each:

| module | file | what it holds |
|---|---|---|
| `Lang` | `lang.dfy` | Java's null as `Option`; exceptions as a `Result` error; Java `byte` and `int` as `int8` and `int32`. |
| `Text` | `text.dfy` | The `java.lang.String` operations the core relies on: `split` (trailing empty strings dropped), `trim`, `Integer.parseInt`, `replace` and `q`. |
| `KotlinVersions` | `kotlin_version.dfy` | `KotlinVersion`: parsing and comparison. |
| `KotlinLibraries` | `kotlin_library.dfy` | The `KotlinLibrary` enum, its path builders, the `byName` index and `defaultLibs`. |
| `ByteStreams` | `byte_streams.dfy` | `toHexBytes`, an array loop, and `copy`. |
| `CacheFinders` | `cache_finders.dfy` | The three finders, the finder chain and `download`. |
| `ResolverSpec` | `resolver_spec.dfy` | `Resolver`'s state as a value, and each of its operations as a function, with the properties proved about them. |
| `Resolver` | `resolver.dfy` | The `Resolver` class, whose fields its methods update in place. Each method that has a `ResolverSpec` counterpart is proved to leave the fields as that function says. `AddShadedLibraries` is a piece of `shadowedKotlinInMod` with no function of its own, so its contract states the new fields directly. |

The file system, the network, the SHA-1 digest and the class loading in
`detectKotlinVersion` are outside the model. They appear as values:

- a `FileSystem` holds the files, the directory listings and the paths whose
  I/O fails;
- an `Env` holds the home directory, the remote artifacts as sequences of
  read chunks, and SHA-1 as an opaque function;
- a `ModArchive` holds whether the jar opens, its entry names, the
  `KotlinVersion.CURRENT` string it declares (if loadable) and its manifest.

Several places in the source are wrong; the Findings section lists them. For
each one the model keeps the code as written, with a lemma that exhibits the
input showing the problem. It also has a corrected definition, and the rest of
the model uses the corrected one.

The test sources say what some members are meant to do:

- `KotlinVersionTest.compare` says that null is the oldest version.
- `ResolveTest.newer` says that the newer version wins.

Three behaviours of the code are easy to misread, and the model keeps each
as the code has it:

- With parts `kotlin-stdlib,kotlin-reflect` and jars `,lib/reflect.jar`, the
  empty first jar entry is not null. The stdlib is therefore recorded at the
  root of the mod, `jar:<mod>!/`.
- A path recorded from a manifest does not bypass the cache lookup: a finder
  hit replaces it.
- A jar that opens but has no manifest makes `getManifest()` return null.
  Reading its attributes then throws NullPointerException, which
  `collectKotlinInMod` does not catch, so the whole scan stops at that mod.

## Model

| member | source | states |
|---|---|---|
| Text.Split | src/main/java/MCKTResolver.java:613 | The pieces contain no separator, and a string without the separator splits into itself. `Text.SplitJoin` proves that splitting a join with a non-empty last piece gives the pieces back. |
| Text.SplitJoin | src/main/java/MCKTResolver.java:613 | `split` inverts joining with the separator when the pieces are separator-free and the last one is not empty. |
| Text.Trim | src/main/java/MCKTResolver.java:295 | The result neither starts nor ends with a character at or below a space. `Text.TrimKeepsClean` proves that such a string is left unchanged. |
| Text.TrimSlice | src/main/java/MCKTResolver.java:295 | The result is a contiguous slice of the input, and every character cut from either end is at or below a space. |
| Text.ParseInt | src/main/java/MCKTResolver.java:377-383 | `parseInteger`, through `Integer.parseInt`. The text must be an optional `-` or `+` followed by at least one ASCII digit. The result is an `int` exactly when that holds and the signed value fits in 32 bits, and then it is that value. |
| Text.ParseIntExamples | src/main/java/MCKTResolver.java:377-383 | Leading zeros and a leading `+` are accepted, and `-0` is 0. A bare sign, the empty string and a trailing non-digit give null. |
| Text.ParseIntToString | src/main/java/MCKTResolver.java:377-383 | Every `int` survives being printed in decimal and parsed back. |
| Text.ReplaceChar | src/main/java/MCKTResolver.java:585 | `String.replace(char, char)`: same length, and each matching character is replaced and no other. |
| Text.QStrips | src/main/java/MCKTResolver.java:452-454 | `q` strips exactly the first and last character. |
| Text.QInverse | src/main/java/MCKTResolver.java:452-454 | When `q` succeeds, the input is its result wrapped in one character on each side. |
| KotlinVersions.Parse | src/main/java/MCKTResolver.java:612-633 | A version exists exactly when the text has two or three dot-separated parts and every part parses as an `int`. Major, minor and (with three parts) patch are the parsed parts. Two parts give patch 0. |
| KotlinVersions.ParseVersionNullable | src/main/java/MCKTResolver.java:635-640 | Null in gives null out. An unparsable string throws `IllegalArgumentException("invalid version: " + s)`. Otherwise the result is `parse`'s value. |
| KotlinVersions.ParseFormat | src/main/java/MCKTResolver.java:612-633 | Every version written as `major.minor.patch` parses back to itself. |
| KotlinVersions.ParseTwoParts | src/main/java/MCKTResolver.java:621-626 | `major.minor` parses with patch 0. |
| KotlinVersions.ParseExample | src/test/java/KotlinVersionTest.java:6-9 | `"1.4.20"` parses to {1, 4, 20}. |
| KotlinVersions.ParseRejectsOtherCounts | src/main/java/MCKTResolver.java:627-629 | One part or four parts give null. |
| KotlinVersions.CompareTriples | src/main/java/MCKTResolver.java:646-652 | The element-wise comparison returns -1, 0 or 1. It is 0 exactly on equal triples and negative exactly when the first comes lexicographically before. |
| KotlinVersions.CompareVersionAsWritten | src/main/java/MCKTResolver.java:642-653 | On two versions it agrees with the lexicographic comparison. |
| KotlinVersions.CompareAsWrittenNullIsGreatest | src/main/java/MCKTResolver.java:643-645 | As written, null compares above every version. |
| KotlinVersions.CompareVersion | src/main/java/MCKTResolver.java:642-653 | Corrected: null is the least element. Negative exactly when `Older(a, b)`, zero exactly on equality, positive exactly when `Older(b, a)`. |
| KotlinVersions.CompareAgreesOnVersions | src/main/java/MCKTResolver.java:642-653 | The corrected comparison differs from the code as written only when exactly one side is null, and there it has the opposite sign. |
| KotlinVersions.CompareExamples | src/test/java/KotlinVersionTest.java:12-21 | The five expectations of `KotlinVersionTest.compare` hold for the corrected comparison. |
| KotlinVersions.CompareIsTotalOrder | src/main/java/MCKTResolver.java:642-653 | The comparison is antisymmetric and transitive. |
| KotlinVersions.Max | src/main/java/MCKTResolver.java:242-247 | One of the two arguments, not older than either. |
| KotlinLibraries.ValuesInDeclarationOrder | src/main/java/MCKTResolver.java:601 | `VALUES` lists each of the five constants once, each at its ordinal. |
| KotlinLibraries.ByNameInverse | src/main/java/MCKTResolver.java:602-608 | The index maps a name to a library exactly when the name is that library's `libName`. |
| KotlinLibraries.BuildByName | src/main/java/MCKTResolver.java:602-608 | The loop of `put`s builds a map whose keys are exactly the library names, each mapped to its own library. |
| KotlinLibraries.DefaultLibs | src/main/java/MCKTResolver.java:406-412 | The result always contains the stdlib. It contains jdk7 exactly when the Java specification version is "1.7" or "1.8", and jdk8 exactly when it is "1.8". It has nothing beyond the three stdlib variants. |
| KotlinLibraries.ByName | src/main/java/MCKTResolver.java:602-608 | The `byName` index as a lookup over the five `libName`s. `KotlinLibraries.ByNameInverse` proves that it maps a name to a library exactly when that is the library's name. |
| KotlinLibraries.Library.GetVersionOf | src/main/java/MCKTResolver.java:558-563 | The Kotlin version, except that the annotations override it with "13.0". `KotlinLibraries.AnnotationsArePinned` states the override. |
| KotlinLibraries.Library.ArchitectFileName | src/main/java/MCKTResolver.java:592-594 | `<artifact>-<getVersionOf(version)>.jar`. `KotlinLibraries.FileNameDeterminesVersion` proves it determines the version for every library but the annotations. |
| KotlinLibraries.Library.ArchitectPath | src/main/java/MCKTResolver.java:584-586 | The slashed group id, the artifact and the file name, without a version directory. `KotlinLibraries.ArchitectPathIsSlashedGroup` and `KotlinLibraries.ArchitectPathMissesVersionDirectory` state its shape. |
| KotlinLibraries.Library.DottedArchitectPath | src/main/java/MCKTResolver.java:588-590 | The same path with the group id's dots kept. `KotlinLibraries.ArchitectPathIsSlashedGroup` relates the two. |
| KotlinLibraries.AnnotationsArePinned | src/main/java/MCKTResolver.java:558-563 | The annotations artifact's file name is `annotations-13.0.jar` whatever the version. |
| KotlinLibraries.FileNameDeterminesVersion | src/main/java/MCKTResolver.java:592-598 | For every other library, equal file names mean equal versions. |
| KotlinLibraries.ArchitectPathIsSlashedGroup | src/main/java/MCKTResolver.java:584-590 | `architectPath` is `dottedArchitectPath` with the group id's dots replaced by slashes. |
| KotlinLibraries.ArchitectPathMissesVersionDirectory | src/main/java/MCKTResolver.java:584-586 | For every library and version, `architectPath` is one path segment shorter than the repository layout, so the two always differ. |
| ByteStreams.HexByte | src/main/java/MCKTResolver.java:429-432 | A nibble maps to an ASCII digit or a lower-case letter a-f. |
| ByteStreams.HexEncode | src/main/java/MCKTResolver.java:434-441 | Two characters per byte. `ByteStreams.HexRoundTrip` proves it is inverted by `HexDecode`. |
| ByteStreams.HexRoundTrip | src/main/java/MCKTResolver.java:434-441 | Decoding the hex of any byte sequence gives the sequence back. |
| ByteStreams.ToHexBytes | src/main/java/MCKTResolver.java:434-441 | The fresh array holds the lower-case hex of the digest, high nibble first. |
| ByteStreams.HexAsWritten | src/main/java/MCKTResolver.java:434-441 | As written: two characters per byte whenever no index is out of bounds. |
| ByteStreams.HexAsWrittenDomain | src/main/java/MCKTResolver.java:437 | As written, the conversion completes exactly when every byte lies in [0, 64). |
| ByteStreams.HexAsWrittenExamples | src/main/java/MCKTResolver.java:437 | Byte 16 gives "40" instead of "10". Byte 64 throws at index 16. Byte -1 throws at index 0x3FFFFFFF. |
| ByteStreams.Copy | src/main/java/MCKTResolver.java:443-450 | Each output ends with what it had plus every chunk read, in order. |
| CacheFinders.FirstFileIn | src/main/java/MCKTResolver.java:465-471 | A reported file exists. |
| CacheFinders.FirstFileInIsFirst | src/main/java/MCKTResolver.java:465-471 | The scan reports a file exactly when some listed child holds one, and reports the first such child. |
| CacheFinders.ScanGradleCache | src/main/java/MCKTResolver.java:460-472 | The listing loop returns the Gradle finder's result, and a returned file exists. |
| CacheFinders.GradleAsWrittenMissesLayout | src/main/java/MCKTResolver.java:463-467 | A correctly laid out Gradle cache entry is found by the corrected finder and missed by the code as written. |
| CacheFinders.GradleFindAsWritten | src/main/java/MCKTResolver.java:460-472 | The Gradle finder as written. It lists the directory named by `dottedArchitectPath` and looks for `<artifact>-<version>.jar`. A reported file exists. `CacheFinders.GradleAsWrittenMissesLayout` shows what it misses. |
| CacheFinders.GradleFind | src/main/java/MCKTResolver.java:460-472 | Corrected: it lists `group/artifact/version` and looks for `architectFileName` in each hash directory. A reported file exists. `CacheFinders.ScanGradleCache` is the listing loop. |
| CacheFinders.MavenPathAsWritten | src/main/java/MCKTResolver.java:480-482 | The path probed as written, named after the enum constant and without `getVersionOf`. `CacheFinders.MavenPathAsWrittenIsWrong` proves it never equals the repository layout. |
| CacheFinders.MavenFind | src/main/java/MCKTResolver.java:477-486 | A file is reported exactly when the repository-layout path exists, and it is that path. |
| CacheFinders.MavenPathAsWrittenIsWrong | src/main/java/MCKTResolver.java:480-482 | For every non-empty version, the path as written differs from the repository layout. |
| CacheFinders.CacheFile | src/main/java/MCKTResolver.java:524-526 | `getCacheFile`: `~/.cache/anatawa12-mckt-resolver/kotlin-stdlib/<constant>-<version>.jar`. `Download` writes it and `MCKTFind` reads it. |
| CacheFinders.MCKTFindAsWritten | src/main/java/MCKTResolver.java:493-522 | The verified-cache finder as written: 20 sidecar bytes compared with the hex of the digest, which can itself throw. `CacheFinders.MCKTFindAsWrittenNeverHits` proves it never hits. |
| CacheFinders.MCKTFindAsWrittenNeverHits | src/main/java/MCKTResolver.java:493-522 | With a 20-byte SHA-1, the finder as written never reports a file. |
| CacheFinders.MCKTFind | src/main/java/MCKTResolver.java:491-526 | A hit is the cache file. It hits exactly when the file and its `.sha1` sidecar exist and can be read, and the sidecar's first 40 bytes are the lower-case hex of the SHA-1 of the file's content. |
| CacheFinders.FindChain | src/main/java/MCKTResolver.java:159-180 | The finders tried in order Gradle, Maven, verified cache. Whatever it reports is an existing file. `CacheFinders.FindChainPriority` states the priority. |
| CacheFinders.FindChainPriority | src/main/java/MCKTResolver.java:172-180 | The chain reports the Gradle hit if there is one. Otherwise it reports the Maven hit if there is one, and otherwise exactly what the verified cache reports. It reports nothing exactly when all three miss. |
| CacheFinders.FindCached | src/main/java/MCKTResolver.java:172-180 | The loop over `finders` with `break` computes the chain's result. |
| CacheFinders.Download | src/main/java/MCKTResolver.java:209-233 | It succeeds exactly when the remote artifact exists and the cache file and its sidecar can be written. Each failure is its own `RuntimeException(IOException)`. On success the URI is the cache file's. The cache file holds the downloaded bytes and the sidecar the hex of their SHA-1. No other file, directory or failure changes. |
| CacheFinders.DownloadArtifact | src/main/java/MCKTResolver.java:209-233 | Copying to the file and the digester, and then `toHexBytes` into the sidecar, computes `Download`. |
| CacheFinders.DownloadThenFind | src/main/java/MCKTResolver.java:209-233 | After a successful download, the verified cache reports the downloaded file. |
| ResolverSpec.AddVersion | src/main/java/MCKTResolver.java:242-247 | The version becomes the newer of the two, and the locations are cleared exactly when the new version is strictly newer. The libraries are untouched. |
| ResolverSpec.AddVersionAsWritten | src/main/java/MCKTResolver.java:242-247 | `addVersion` as written, using the comparison in which null is the greatest version. `ResolverSpec.AddVersionAsWrittenStuckAtNull` shows the consequence. |
| ResolverSpec.AddVersionAsWrittenStuckAtNull | src/main/java/MCKTResolver.java:242-247 | As written, a null version is never replaced, and a null argument replaces any version. |
| ResolverSpec.MergeIsMaximum | src/main/java/MCKTResolver.java:242-247 | Merging a sequence of versions gives one of them (or the start), and no merged version is newer. |
| ResolverSpec.NewerVersionWins | src/test/java/ResolveTest.java:12-29 | `single` and `newer` end at 1.4.30 with the corrected merge. As written they end at null. |
| ResolverSpec.ShadedExactly | src/main/java/MCKTResolver.java:310-316 | A library counts as shaded exactly when its marker entry is present. |
| ResolverSpec.ShadowedKotlinInMod | src/main/java/MCKTResolver.java:309-327 | The libraries gain exactly the shaded ones. |
| ResolverSpec.DetectKotlinVersion | src/main/java/MCKTResolver.java:329-371 | Corrected: the class `kotlin.KotlinVersion` is loaded from the mod, so the result is its `CURRENT` string, or "1.1.0" when it cannot be loaded. `ResolverSpec.ShadowDetection` states how the result is used. |
| ResolverSpec.DetectKotlinVersionAsWritten | src/main/java/MCKTResolver.java:329-371 | As written: the lookup uses the resource path `kotlin/KotlinVersion.class` as a class name. The mod's `CURRENT` is never read. The result is "1.1.0", or NoClassDefFoundError when the entry `kotlin/KotlinVersion/class.class` exists. |
| ResolverSpec.DetectAsWrittenIgnoresCurrent | src/main/java/MCKTResolver.java:337 | As written, the entry looked up is `kotlin/KotlinVersion/class.class`, and without it the result is "1.1.0" whatever the mod declares. The binary name `kotlin.KotlinVersion` maps to the real class file. |
| ResolverSpec.ShadowDetection | src/main/java/MCKTResolver.java:309-327 | Only the stdlib marker touches the version. With the marker, a loadable version that parses is the one merged. Without a loadable version, 1.1.0 is merged. The scan throws exactly when the marker is present and the detected version is unparsable. |
| ResolverSpec.CheckHeader | src/main/java/MCKTResolver.java:268-281 | Corrected header checks: the schema, then the presence of the Kotlin version, then its parse, each with its own exception. `ResolverSpec.CheckHeaderAccepts` states when it accepts. |
| ResolverSpec.CheckHeaderAsWritten | src/main/java/MCKTResolver.java:268-281 | The header checks as written. `ResolverSpec.CheckHeaderAsWrittenExamples` exhibits the two wrong tests. |
| ResolverSpec.CheckHeaderAccepts | src/main/java/MCKTResolver.java:264-281 | Corrected: the header is accepted exactly when the schema parses to at most `MANIFEST_VERSION` and the Kotlin version is present and parses; the parsed version is what is merged. |
| ResolverSpec.CheckHeaderAsWrittenExamples | src/main/java/MCKTResolver.java:272-281 | As written: schema 1 is refused; schema 2 with Kotlin "x" is let through as null; a parsable version is refused while no version is known. |
| ResolverSpec.JarList | src/main/java/MCKTResolver.java:288-289 | Absent jars give all nulls of the parts' length; otherwise the comma-split pieces. |
| ResolverSpec.AddDeclaredParts | src/main/java/MCKTResolver.java:284-302 | The parts handling after an accepted header. `ResolverSpec.AddDeclaredPartsBranches` states its branches. |
| ResolverSpec.AddDeclaredPartsBranches | src/main/java/MCKTResolver.java:284-293 | Without `MCKT-KT-Parts` the default libraries are added. A jar list whose length differs from the parts list throws `IllegalStateException("invalid MCKT manifest: MCKT-KT-Jars and MCKT-KT-Parts conflict.")` and changes nothing. Otherwise the parts loop runs on the split lists. |
| ResolverSpec.AddParts | src/main/java/MCKTResolver.java:294-302 | The parts loop as a recursion over the lists. `ResolverSpec.AddPartsLibs` and `ResolverSpec.AddPartsLocations` state what it does. |
| ResolverSpec.AddPartsLibs | src/main/java/MCKTResolver.java:294-302 | The parts loop throws exactly on an unknown trimmed name. Otherwise it adds every named library. It never changes the version. |
| ResolverSpec.AddPartsBundled | src/main/java/MCKTResolver.java:294-302 | Earlier locations keep their keys. Every location the loop writes points into this mod. |
| ResolverSpec.AddPartsLocations | src/main/java/MCKTResolver.java:294-302 | When every part is known, each library with a non-null jar entry ends up at `jar:<mod>!/<jar>` for its last such entry. Every other library keeps its previous location, or stays without one. |
| ResolverSpec.LastJarForExists | src/main/java/MCKTResolver.java:294-302 | A library has a deciding jar entry exactly when some part names it with a non-null entry. |
| ResolverSpec.LastJarForIsLast | src/main/java/MCKTResolver.java:294-302 | The deciding entry is the last part that names the library with a non-null entry. |
| ResolverSpec.EmptyJarEntrySplit | src/main/java/MCKTResolver.java:289 | `",lib/reflect.jar"` gives an empty first entry, not null. |
| ResolverSpec.EmptyJarEntryIsRecorded | src/main/java/MCKTResolver.java:294-302 | A known part whose jar entry is the empty string is added to the libraries and recorded at the mod's root, `jar:<mod>!/`. |
| ResolverSpec.ReadManifest | src/main/java/MCKTResolver.java:262-302 | The manifest half of `collectKotlinInMod`. An unreadable manifest changes nothing. A missing manifest throws NullPointerException. No `MCKT-MF-Version` changes nothing. Otherwise the checked version is merged and the parts are handled. `ResolverSpec.CollectWithoutMetadata` and `ResolverSpec.CollectMonotone` state its effects. |
| ResolverSpec.Collect | src/main/java/MCKTResolver.java:258-306 | `collectKotlinInMod`: a mod that does not open is skipped; otherwise the shading scan runs, then the manifest. `ResolverSpec.CollectMonotone` and `ResolverSpec.CollectWithoutMetadata` state its effects. |
| ResolverSpec.CollectMonotone | src/main/java/MCKTResolver.java:258-306 | One mod never lowers the version and never removes a library. A location survives unless a newer version cleared the map, and new locations point into that mod. |
| ResolverSpec.CollectWithoutMetadata | src/main/java/MCKTResolver.java:258-266 | An unopenable mod changes nothing. A manifest without `MCKT-MF-Version`, or one that cannot be read, leaves only the shading effects. A mod without a manifest throws NullPointerException after its shading effects. |
| ResolverSpec.NoManifestEndsScan | src/main/java/MCKTResolver.java:249-266 | A mod that opens but has no manifest ends the scan with an exception, whatever mods follow it. |
| ResolverSpec.CollectAll | src/main/java/MCKTResolver.java:249-256 | `collectKotlinMods`: each mod in turn, with the first exception ending the scan. `ResolverSpec.CollectAllMonotone` states what the scan keeps. |
| ResolverSpec.CollectAllMonotone | src/main/java/MCKTResolver.java:249-256 | Over the whole scan, the version never decreases and the required set only grows. |
| ResolverSpec.CandidateDownloads | src/main/java/MCKTResolver.java:235-240 | The result is exactly the required libraries together with those already located. |
| ResolverSpec.InDeclarationOrder | src/main/java/MCKTResolver.java:172 | The iteration holds exactly the set's members, in strictly increasing ordinal. |
| ResolverSpec.VersionString | src/main/java/MCKTResolver.java:170 | Corrected: a null version throws NullPointerException. Otherwise the string parses back to the version. |
| ResolverSpec.VersionStringAsWrittenAlwaysThrows | src/main/java/MCKTResolver.java:170 | As written, the version string always throws. |
| ResolverSpec.FindChainLocation | src/main/java/MCKTResolver.java:172-180 | Whatever the chain reports lies in the Gradle module directory, at the Maven path or at the cache file. |
| ResolverSpec.ResolveLibraries | src/main/java/MCKTResolver.java:172-191 | The per-library loop of `runResolve`: a finder hit overwrites the location; a library still without one is downloaded, and a failed download ends the loop. `ResolverSpec.ResolveLocations`, `ResolverSpec.ResolveDownloadsOnlyMissing`, `ResolverSpec.ResolveKeys` and `ResolverSpec.ResolveCovers` state its result. |
| ResolverSpec.ResolveKeys | src/main/java/MCKTResolver.java:172-191 | After the loop the located libraries are the old ones plus every candidate, and entries outside the candidates are unchanged. |
| ResolverSpec.ResolveCovers | src/main/java/MCKTResolver.java:172-191 | Each candidate's location after the loop is its previous one or a cache location. |
| ResolverSpec.ResolveCandidates | src/main/java/MCKTResolver.java:168-191 | Resolving a scanned state locates exactly its candidates, each where a manifest put it or in a cache. |
| ResolverSpec.FinderHitOverridesBundled | src/main/java/MCKTResolver.java:173-180 | For the first candidate, a finder hit replaces a location recorded from a manifest. `ResolverSpec.ResolveLocations` states the rule for every candidate. |
| ResolverSpec.ResolveLocations | src/main/java/MCKTResolver.java:172-191 | For distinct candidates, each ends up at the first finder hit, judged against the file system the loop started from. Without a hit it keeps the location a manifest recorded. Only a library with neither gets the downloaded cache file. |
| ResolverSpec.ResolveDownloadsOnlyMissing | src/main/java/MCKTResolver.java:181-189 | For distinct candidates, the loop leaves the cache file and sidecar untouched for every library that is not a candidate, has a finder hit, or already has a location. |
| ResolverSpec.RunResolveLocations | src/main/java/MCKTResolver.java:165-191 | A finished run places every candidate as `ResolverSpec.ResolveLocations` says for the scanned state. It downloads no library that had a hit or a recorded location. |
| CacheFinders.DownloadKeepsOtherFinds | src/main/java/MCKTResolver.java:209-233 | Downloading one library does not change what the finder chain reports for any other library, because the two write and read disjoint paths. |
| CacheFinders.CacheFilesDistinct | src/main/java/MCKTResolver.java:524-526 | Two libraries never share a cache file or a sidecar, and no sidecar is a cache file. |
| ResolverSpec.LoaderSinkUris | src/main/java/MCKTResolver.java:195-199 | One URI per located library, in declaration order. |
| ResolverSpec.LocationsOf | src/main/java/MCKTResolver.java:196-198 | The i-th URI is the recorded location of the i-th library. |
| ResolverSpec.RunResolve | src/main/java/MCKTResolver.java:165-193 | `runResolve` up to the class loader: the scan, the version string, then the per-library loop over the candidates in declaration order. The first exception is the result. `ResolverSpec.RunResolveCovers` states a finished run. |
| ResolverSpec.RunResolveCovers | src/main/java/MCKTResolver.java:165-193 | A finished run had a version. It locates exactly the candidate libraries, each from a mod or a cache, and leaves the version and libraries as the scan made them. |
| Resolver.Resolver.constructor | src/main/java/MCKTResolver.java:155-164 | A new resolver has no version, no libraries and no locations, and `defaultLibs` comes from the Java specification version. |
| Resolver.Resolver.AddVersion | src/main/java/MCKTResolver.java:242-247 | Updates the fields as `ResolverSpec.AddVersion` says. |
| Resolver.Resolver.CandidateDownloads | src/main/java/MCKTResolver.java:235-240 | Returns `ResolverSpec.CandidateDownloads` of the fields and changes nothing. |
| Resolver.Resolver.AddShadedLibraries | src/main/java/MCKTResolver.java:310-317 | The libraries gain exactly the shaded ones. The flag is set exactly when the stdlib marker is present. Version and locations are unchanged. |
| Resolver.Resolver.ShadowedKotlinInMod | src/main/java/MCKTResolver.java:309-327 | The marker loop and the version merge leave the fields, or the exception, as `ResolverSpec.ShadowedKotlinInMod` says. |
| Resolver.Resolver.CollectKotlinInMod | src/main/java/MCKTResolver.java:258-306 | The new fields, or the exception, are those of `ResolverSpec.Collect`. |
| Resolver.Resolver.ReadManifest | src/main/java/MCKTResolver.java:262-282 | The header checks update the fields as `ResolverSpec.ReadManifest` says. |
| Resolver.Resolver.AddDeclaredParts | src/main/java/MCKTResolver.java:284-302 | The parts loop updates the fields as `ResolverSpec.AddDeclaredParts` says. |
| Resolver.Resolver.AddParts | src/main/java/MCKTResolver.java:294-302 | The loop over the parts updates the fields, or throws, as `ResolverSpec.AddParts` says. |
| Resolver.Resolver.CollectKotlinMods | src/main/java/MCKTResolver.java:249-256 | The scan over the mods updates the fields as `ResolverSpec.CollectAll` says. |
| Resolver.Resolver.ResolveLibraries | src/main/java/MCKTResolver.java:172-193 | The per-library loop leaves the locations and the file system as `ResolverSpec.ResolveLibraries` says, and does not touch the version or libraries. |
| Resolver.Resolver.RunResolve | src/main/java/MCKTResolver.java:165-199 | It fails exactly when `ResolverSpec.RunResolve` fails, with the same exception. On success the fields are the resolved state, and the result is the URIs for the class loader and the file system after downloads. |

## Left out

- `requestResolve`, `getDouble`, `needUpdate` and `ResolveCaller`: they are launcher plumbing around the resolver: system properties and the reflective call into `runResolve`.
- The static initialiser of `Resolver`: the checks on the launch class loader are left out. `defaultLibs` becomes the constructor's `DefaultLibs(java.specification.version)`.
- `detectKotlinVersion`: the class loading and the reflective read of `KotlinVersion.CURRENT` become the `currentVersion` field of `ModArchive`, which the corrected `DetectKotlinVersion` reads. Its absence gives the "1.1.0" fallback. A `toString` that returns null is not modelled. For the code as written (see Findings), the JVM's refusal of a class name containing `/` is modelled as `NoClassDefFoundError("IllegalName: " + name)`.
- `addURL` and `addClassLoaderExclusion`: the reflective calls into the class loader are left out. `RunResolve` returns the URIs it would add, in `EnumMap` order.
- The mod directories, `listFiles` and the `.jar`/`.zip` filter: `collectKotlinMods` takes the mods as a sequence.
- SHA-1 is an uninterpreted function; MessageDigest and `DigesterOutputStream` are not modelled beyond feeding it the streamed bytes.
- Files, directories and the network are a `FileSystem` value and a map from URL to read chunks. Path normalisation, `File` equality and `URI`/`URL` escaping and validation are not modelled; a URI is the string `file:` + path or `jar:<mod>!/<entry>`.
- `Text.ParseInt`: accepts ASCII digits only, whereas `Integer.parseInt` also accepts other Unicode decimal digits.
- Manifest attribute names are matched exactly; `Attributes.getValue` matches them case-insensitively.
- `Resolver.Resolver.RunResolve`: on an exception the contract states the result only, not what the fields hold at that point.
- `CacheFinders.Download`: a sidecar that cannot be written leaves the jar file written in the source; the model reports the failure without that partial write.
- `ByteStreams.Copy`: the 1024-byte buffer is not modelled; the input arrives as the chunks `in.read` returns.
- The cache file name uses the enum constant's name (`KotlinStdlib-1.4.30.jar`) rather than the artifact name. Writer and reader agree, so it is kept as written.

## Findings

| source | as written | input that shows it | evidently intended | confidence | as-written member | corrected member |
|---|---|---|---|---|---|---|
| src/main/java/MCKTResolver.java:644-645 | `compareVersion` returns -1 when `b` is null and 1 when `a` is null, so null is the greatest version | `compareVersion(null, {1,4,20})` returns 1; `KotlinVersionTest.compare` expects -1 | null is older than every version | high, not executed | KotlinVersions.CompareAsWrittenNullIsGreatest | KotlinVersions.CompareVersion |
| src/main/java/MCKTResolver.java:242-247 | `addVersion` never replaces a null `version`, and replaces any version with null | a fresh resolver, `addVersion({1,4,30})`: `version` stays null; `ResolveTest.single` expects {1,4,30} | the newer version replaces the current one | high, not executed | ResolverSpec.AddVersionAsWrittenStuckAtNull | ResolverSpec.AddVersion |
| src/main/java/MCKTResolver.java:274 | `mfVersionIn <= MANIFEST_VERSION` throws, so the supported schema 1 is refused and unknown schemas are accepted | `MCKT-MF-Version: 1`, `MCKT-KT-Version: 1.4.30` throws "Unsupported MCKT manifest version: 1" | refuse schemas newer than `MANIFEST_VERSION` | high, not executed | ResolverSpec.CheckHeaderAsWrittenExamples | ResolverSpec.CheckHeaderAccepts |
| src/main/java/MCKTResolver.java:278 | the null test is on the field `version`, not on the parsed Kotlin version | schema 2 with `MCKT-KT-Version: x` once a version is known hands null to `addVersion`; with none known, `1.4.30` throws "not parsable" | throw when `KotlinVersion.parse(ktVersion)` is null | high, not executed | ResolverSpec.CheckHeaderAsWrittenExamples | ResolverSpec.CheckHeaderAccepts |
| src/main/java/MCKTResolver.java:170 | indexes `version[0]`, `version[2]`, `version[3]` of a three-element array | any non-null version throws ArrayIndexOutOfBoundsException(3) | `version[0] + "." + version[1] + "." + version[2]` | high, not executed | ResolverSpec.VersionStringAsWrittenAlwaysThrows | ResolverSpec.VersionString |
| src/main/java/MCKTResolver.java:437 | high digit is `hexElements[digest[i] >>> 2]` | byte 16 writes "40"; byte 64 or any negative byte throws ArrayIndexOutOfBoundsException | `(digest[i] >>> 4) & 0xF` | high, not executed | ByteStreams.HexAsWrittenExamples | ByteStreams.ToHexBytes |
| src/main/java/MCKTResolver.java:507-518 | reads 20 bytes of the sidecar and compares them with the 40-byte hex of the digest | any cached file with a correct sidecar is treated as a miss and downloaded again | read and compare the 40 hex bytes | high, not executed | CacheFinders.MCKTFindAsWrittenNeverHits | CacheFinders.MCKTFind |
| src/main/java/MCKTResolver.java:480-482 | the Maven file name uses the enum constant name and skips `getVersionOf` | `~/.m2/repository/org/jetbrains/kotlin/kotlin-stdlib/1.4.30/KotlinStdlib-1.4.30.jar` is probed instead of `kotlin-stdlib-1.4.30.jar` | `groupPath/artifact/getVersionOf(v)/artifact-getVersionOf(v).jar` | high, not executed | CacheFinders.MavenPathAsWrittenIsWrong | CacheFinders.MavenFind |
| src/main/java/MCKTResolver.java:584-586 | `architectPath` has no version directory, and `download` fetches it | kotlin-stdlib 1.4.30 is fetched from `.../org/jetbrains/kotlin/kotlin-stdlib/kotlin-stdlib-1.4.30.jar` | `group/artifact/version/artifact-version.jar` | high, not executed | KotlinLibraries.ArchitectPathMissesVersionDirectory | CacheFinders.DownloadArtifact |
| src/main/java/MCKTResolver.java:463-467 | the Gradle finder lists `dottedArchitectPath`, a path ending in the jar's name, and skips `getVersionOf` in the file name | a cache holding `org.jetbrains.kotlin/kotlin-stdlib/1.4.30/<hash>/kotlin-stdlib-1.4.30.jar` is not found | list `group/artifact/version` and look for `architectFileName` | high, not executed | CacheFinders.GradleAsWrittenMissesLayout | CacheFinders.ScanGradleCache |
| src/main/java/MCKTResolver.java:361 | `loadClass(kotlinVersionClassPath)` passes the resource path `kotlin/KotlinVersion.class` as a class name, so `findClass` looks up `kotlin/KotlinVersion/class.class` | any mod that shades kotlin-stdlib 1.4.30 is detected as "1.1.0", the ClassNotFoundException being caught | `loadClass("kotlin.KotlinVersion")`, which reads the mod's own `CURRENT` | high, not executed | ResolverSpec.DetectAsWrittenIgnoresCurrent | ResolverSpec.ShadowDetection |
