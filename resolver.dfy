/**
 * `MCKTResolver.Resolver`: the object that scans the mods, merges what they
 * declare into its three fields, and then resolves every required library to
 * a location. Each method with a counterpart in ResolverSpec is proved to
 * leave the fields as that function says; `AddShadedLibraries`, a piece of
 * `shadowedKotlinInMod` with no function of its own, states its new fields
 * directly.
 */
module Resolver {
  import opened Lang
  import opened Text
  import opened KotlinVersions
  import opened KotlinLibraries
  import opened CacheFinders
  import opened ResolverSpec

  class Resolver {
    /** `int[] version`: the newest Kotlin version any mod asked for, or null. */
    var version: Option<Version>
    /** `EnumSet<KotlinLibrary> libs`: the libraries that must be on the class path. */
    var libs: set<Library>
    /** `EnumMap<KotlinLibrary, URI> bundledElements`: where each library has been found. */
    var bundledElements: map<Library, string>
    /** `defaultLibs`, fixed when the class is initialised. */
    const defaultLibs: set<Library>

    function Snapshot(): State
      reads this
    {
      State(version, libs, bundledElements)
    }

    /** The fields, with the exception a method threw, if any. */
    function OutcomeOf(thrown: Option<Exception>): Outcome
      reads this
    {
      if thrown.None? then Normal(Snapshot()) else Thrown(Snapshot(), thrown.value)
    }

    constructor(javaSpecificationVersion: string)
      ensures Snapshot() == Initial
      ensures defaultLibs == DefaultLibs(javaSpecificationVersion)
    {
      version := None;
      libs := {};
      bundledElements := map[];
      defaultLibs := DefaultLibs(javaSpecificationVersion);
    }

    /** `addVersion`. */
    method AddVersion(newVersion: Option<Version>)
      modifies this
      ensures Snapshot() == ResolverSpec.AddVersion(old(Snapshot()), newVersion)
    {
      if CompareVersion(version, newVersion) < 0 {
        version := newVersion;
        bundledElements := map[];
      }
    }

    /** `candidateDownloads`: a new set; the fields are left alone. */
    method CandidateDownloads() returns (willDownload: set<Library>)
      ensures willDownload == ResolverSpec.CandidateDownloads(Snapshot())
    {
      willDownload := {};
      willDownload := willDownload + libs;
      willDownload := willDownload + bundledElements.Keys;
    }

    /** `shadowedKotlinInMod`. */
    method ShadowedKotlinInMod(mod: ModArchive) returns (thrown: Option<Exception>)
      modifies this
      ensures OutcomeOf(thrown) == ResolverSpec.ShadowedKotlinInMod(old(Snapshot()), mod)
    {
      var hasKotlinStdlib := AddShadedLibraries(mod.entries);
      var kotlinVersion: Option<string> := None;
      if hasKotlinStdlib {
        kotlinVersion := Some(DetectKotlinVersion(mod));
      }
      if kotlinVersion.Some? {
        var parsed := ParseVersionNullable(kotlinVersion);
        if parsed.Err? {
          return Some(parsed.error);
        }
        AddVersion(parsed.value);
      }
      return None;
    }

    /** The marker loop of `shadowedKotlinInMod`: adds every shaded library and reports the stdlib. */
    method AddShadedLibraries(entries: set<string>) returns (hasKotlinStdlib: bool)
      modifies this
      ensures libs == old(libs) + Shaded(entries)
      ensures hasKotlinStdlib <==> KotlinStdlib in Shaded(entries)
      ensures version == old(version) && bundledElements == old(bundledElements)
    {
      hasKotlinStdlib := false;
      for i := 0 to |Values|
        invariant libs == old(libs) + ShadedUpTo(entries, i)
        invariant hasKotlinStdlib <==> 0 < i && KotlinStdlib.DetectClassFileName() in entries
        invariant version == old(version) && bundledElements == old(bundledElements)
      {
        ShadedUpToStep(entries, i);
        var value := Values[i];
        if value.DetectClassFileName() in entries {
          if value == KotlinStdlib {
            hasKotlinStdlib := true;
          }
          libs := libs + {value};
        }
      }
      assert ShadedUpTo(entries, |Values|) == Shaded(entries);
      ShadedExactly(entries, KotlinStdlib);
    }

    /** `collectKotlinInMod`, with the header checks fixed. */
    method CollectKotlinInMod(mod: ModArchive) returns (thrown: Option<Exception>)
      modifies this
      ensures OutcomeOf(thrown) == Collect(old(Snapshot()), mod, defaultLibs)
    {
      if !mod.opens {
        return None;
      }
      thrown := ShadowedKotlinInMod(mod);
      if thrown.None? {
        thrown := ReadManifest(mod.manifest, mod.uri);
      }
    }

    /** The manifest part of `collectKotlinInMod`: the header checks, then the declared parts. */
    method ReadManifest(manifest: Manifest, modUri: string) returns (thrown: Option<Exception>)
      modifies this
      ensures OutcomeOf(thrown) == ResolverSpec.ReadManifest(old(Snapshot()), manifest, modUri, defaultLibs)
    {
      if manifest == ManifestUnreadable {
        return None;
      }
      if manifest == NoManifest {
        return Some(NullPointer);
      }
      var attrs := manifest.attrs;
      if "MCKT-MF-Version" !in attrs {
        return None;
      }
      var mfVersion := attrs["MCKT-MF-Version"];
      var mfVersionIn := ParseInt(mfVersion);
      var ktVersion := Get(attrs, "MCKT-KT-Version");
      if mfVersionIn.None? || mfVersionIn.value > ManifestVersion {
        return Some(UnsupportedManifest(mfVersion));
      }
      if ktVersion.None? {
        return Some(MissingKotlinVersion);
      }
      var parsed := Parse(ktVersion.value);
      if parsed.None? {
        return Some(UnparsableKotlinVersion(ktVersion.value));
      }
      AddVersion(parsed);
      thrown := AddDeclaredParts(attrs, modUri);
    }

    /** The MCKT-KT-Parts / MCKT-KT-Jars loop of `collectKotlinInMod`. */
    method AddDeclaredParts(attrs: map<string, string>, modUri: string) returns (thrown: Option<Exception>)
      modifies this
      ensures OutcomeOf(thrown) == ResolverSpec.AddDeclaredParts(old(Snapshot()), attrs, modUri, defaultLibs)
    {
      var parts := Get(attrs, "MCKT-KT-Parts");
      var jars := Get(attrs, "MCKT-KT-Jars");
      if parts.None? {
        libs := libs + defaultLibs;
        return None;
      }
      var partList := Split(parts.value, ',');
      var jarList := JarList(|partList|, jars);
      if |jarList| != |partList| {
        return Some(IllegalState("invalid MCKT manifest: MCKT-KT-Jars and MCKT-KT-Parts conflict."));
      }
      thrown := AddParts(partList, jarList, modUri);
    }

    /** The loop over the parts: each trimmed name must be known; a non-null jar entry records its location. */
    method AddParts(partList: seq<string>, jarList: seq<Option<string>>, modUri: string) returns (thrown: Option<Exception>)
      requires |partList| == |jarList|
      modifies this
      ensures OutcomeOf(thrown) == ResolverSpec.AddParts(old(Snapshot()), partList, jarList, modUri)
    {
      for i := 0 to |partList|
        invariant ResolverSpec.AddParts(Snapshot(), partList[i..], jarList[i..], modUri)
          == ResolverSpec.AddParts(old(Snapshot()), partList, jarList, modUri)
      {
        var part := Trim(partList[i]);
        var jar := jarList[i];
        assert partList[i..][0] == partList[i] && jarList[i..][0] == jar;
        assert partList[i..][1..] == partList[i + 1..] && jarList[i..][1..] == jarList[i + 1..];
        var lib := ByName(part);
        if lib.None? {
          return Some(IllegalState("unknown library key: " + part));
        }
        libs := libs + {lib.value};
        if jar.Some? {
          bundledElements := bundledElements[lib.value := JarUri(modUri, jar.value)];
        }
      }
      return None;
    }

    /** `collectKotlinMods`: every mod in order; an exception ends the scan. */
    method CollectKotlinMods(mods: seq<ModArchive>) returns (thrown: Option<Exception>)
      modifies this
      ensures OutcomeOf(thrown) == CollectAll(old(Snapshot()), mods, defaultLibs)
    {
      for i := 0 to |mods|
        invariant CollectAll(Snapshot(), mods[i..], defaultLibs) == CollectAll(old(Snapshot()), mods, defaultLibs)
      {
        assert mods[i..][0] == mods[i] && mods[i..][1..] == mods[i + 1..];
        thrown := CollectKotlinInMod(mods[i]);
        if thrown.Some? {
          return;
        }
      }
      return None;
    }

    /**
     * The loop of `runResolve` over the candidates: a finder hit is recorded;
     * a library still without a location is downloaded.
     */
    method ResolveLibraries(order: seq<Library>, version: string, fs: FileSystem, env: Env)
      returns (r: Result<FileSystem, Exception>)
      modifies this
      ensures var expected := ResolverSpec.ResolveLibraries(order, version, old(bundledElements), fs, env);
        && (r.Ok? <==> expected.Ok?)
        && (r.Err? ==> r.error == expected.error)
        && (r.Ok? ==> bundledElements == expected.value.0 && r.value == expected.value.1)
      ensures this.version == old(this.version) && libs == old(libs)
    {
      var files := fs;
      for i := 0 to |order|
        invariant this.version == old(this.version) && libs == old(libs)
        invariant ResolverSpec.ResolveLibraries(order[i..], version, bundledElements, files, env)
          == ResolverSpec.ResolveLibraries(order, version, old(bundledElements), fs, env)
      {
        var library := order[i];
        assert order[i..][0] == library && order[i..][1..] == order[i + 1..];
        var file := FindCached(files, env, library, version);
        if file.Some? {
          bundledElements := bundledElements[library := FileUri(file.value)];
        }
        if library !in bundledElements {
          var downloaded := DownloadArtifact(files, env, library, version);
          if downloaded.Err? {
            return Err(downloaded.error);
          }
          files := downloaded.value.1;
          bundledElements := bundledElements[library := downloaded.value.0];
        }
      }
      assert order[|order|..] == [];
      return Ok(files);
    }

    /**
     * `runResolve` up to the class loader: on success the fields hold the
     * resolved state and the result lists the locations to add, in
     * declaration order, with the file system after any downloads.
     */
    method RunResolve(mods: seq<ModArchive>, fs: FileSystem, env: Env) returns (r: Result<(seq<string>, FileSystem), Exception>)
      modifies this
      ensures var expected := ResolverSpec.RunResolve(old(Snapshot()), mods, defaultLibs, fs, env);
        && (r.Ok? <==> expected.Ok?)
        && (r.Err? ==> r.error == expected.error)
        && (r.Ok? ==> Snapshot() == expected.value.0 && r.value == (LoaderSinkUris(bundledElements), expected.value.1))
    {
      var thrown := CollectKotlinMods(mods);
      if thrown.Some? {
        return Err(thrown.value);
      }
      var libraries := CandidateDownloads();
      var order := InDeclarationOrder(libraries);
      var versionString := VersionString(version);
      if versionString.Err? {
        return Err(versionString.error);
      }
      var resolved := ResolveLibraries(order, versionString.value, fs, env);
      if resolved.Err? {
        return Err(resolved.error);
      }
      var files := resolved.value;
      r := Ok((LoaderSinkUris(bundledElements), files));
    }
  }
}
