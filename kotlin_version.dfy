/**
 * `MCKTResolver.KotlinVersion`: parsing "major.minor[.patch]" into a triple of
 * Java ints, and the comparison of two possibly-null triples.
 */
module KotlinVersions {
  import opened Lang
  import opened Text

  /** The `int[3]` the resolver keeps: {major, minor, patch}. */
  datatype Version = Version(major: int32, minor: int32, patch: int32)

  /** `parse`: three dot-separated ints, or two with patch 0; anything else is null. */
  function Parse(s: string): (r: Option<Version>)
    ensures r.Some? ==> |Split(s, '.')| in {2, 3}
    ensures r.Some? && |Split(s, '.')| == 2 ==> r.value.patch == 0
    ensures r.Some? ==> ParseInt(Split(s, '.')[0]) == Some(r.value.major)
    ensures r.Some? ==> ParseInt(Split(s, '.')[1]) == Some(r.value.minor)
    ensures r.Some? && |Split(s, '.')| == 3 ==> ParseInt(Split(s, '.')[2]) == Some(r.value.patch)
    ensures r.Some? <==> |Split(s, '.')| in {2, 3} && forall i :: 0 <= i < |Split(s, '.')| ==> ParseInt(Split(s, '.')[i]).Some?
  {
    var elements := Split(s, '.');
    if |elements| in {2, 3} then PartsParse(elements); ParseParts(elements) else None
  }

  /** Two or three parts each read by `Integer.parseInt`; patch 0 when there are two. */
  function ParseParts(elements: seq<string>): Option<Version>
    requires |elements| in {2, 3}
  {
    if |elements| == 3 then
      var a, b, c := ParseInt(elements[0]), ParseInt(elements[1]), ParseInt(elements[2]);
      if a.Some? && b.Some? && c.Some? then Some(Version(a.value, b.value, c.value)) else None
    else
      var a, b := ParseInt(elements[0]), ParseInt(elements[1]);
      if a.Some? && b.Some? then Some(Version(a.value, b.value, 0)) else None
  }

  lemma PartsParse(elements: seq<string>)
    requires |elements| in {2, 3}
    ensures (forall i :: 0 <= i < |elements| ==> ParseInt(elements[i]).Some?) <==>
      ParseInt(elements[0]).Some? && ParseInt(elements[1]).Some? && (|elements| == 3 ==> ParseInt(elements[2]).Some?)
  {
  }

  /** `parseVersionNullable`: null stays null; a string `parse` rejects throws. */
  function ParseVersionNullable(s: Option<string>): (r: Result<Option<Version>, Exception>)
    ensures r == Ok(None) <==> s.None?
    ensures r.Err? <==> s.Some? && Parse(s.value).None?
    ensures r.Err? ==> r.error == IllegalArgument("invalid version: " + s.value)
    ensures r.Ok? && r.value.Some? ==> Parse(s.value) == r.value
  {
    match s
    case None => Ok(None)
    case Some(text) =>
      match Parse(text)
      case None => Err(IllegalArgument("invalid version: " + text))
      case Some(v) => Ok(Some(v))
  }

  /** "major.minor.patch" with each part in decimal. */
  function Format(v: Version): string
  {
    IntToString(v.major as int) + "." + IntToString(v.minor as int) + "." + IntToString(v.patch as int)
  }

  /** Every version survives being written out and parsed back. */
  lemma ParseFormat(v: Version)
    ensures Parse(Format(v)) == Some(v)
  {
    var ps := [IntToString(v.major as int), IntToString(v.minor as int), IntToString(v.patch as int)];
    assert JoinWith(ps[1..], '.') == ps[1] + "." + ps[2] by {
      assert ps[1..][1..] == [ps[2]];
    }
    assert JoinWith(ps, '.') == Format(v);
    SplitJoin(ps, '.');
    ParseIntToString(v.major);
    ParseIntToString(v.minor);
    ParseIntToString(v.patch);
  }

  /** A two-part string is read with patch 0. */
  lemma ParseTwoParts(major: int32, minor: int32)
    ensures Parse(IntToString(major as int) + "." + IntToString(minor as int)) == Some(Version(major, minor, 0))
  {
    var ps := [IntToString(major as int), IntToString(minor as int)];
    assert JoinWith(ps, '.') == IntToString(major as int) + "." + IntToString(minor as int);
    SplitJoin(ps, '.');
    ParseIntToString(major);
    ParseIntToString(minor);
  }

  /** KotlinVersionTest.parse: "1.4.20" is {1, 4, 20}. */
  lemma ParseExample()
    ensures Parse("1.4.20") == Some(Version(1, 4, 20))
  {
    assert Format(Version(1, 4, 20)) == "1.4.20";
    ParseFormat(Version(1, 4, 20));
  }

  /** A single number or four parts is not a version. */
  lemma ParseRejectsOtherCounts()
    ensures Parse("1") == None
    ensures Parse("1.2.3.4") == None
  {
    assert Split("1", '.') == ["1"];
    var ps := ["1", "2", "3", "4"];
    assert JoinWith(ps, '.') == "1.2.3.4";
    SplitJoin(ps, '.');
  }

  // ---------------------------------------------------------------------------
  // ordering

  /** Strict lexicographic order on (major, minor, patch): the reference definition. */
  predicate Before(a: Version, b: Version)
  {
    || a.major < b.major
    || (a.major == b.major && a.minor < b.minor)
    || (a.major == b.major && a.minor == b.minor && a.patch < b.patch)
  }

  /** The element-by-element comparison shared by both null policies. */
  function CompareTriples(a: Version, b: Version): (r: int)
    ensures r in {-1, 0, 1}
    ensures r == 0 <==> a == b
    ensures r < 0 <==> Before(a, b)
    ensures r > 0 <==> Before(b, a)
  {
    if a.major < b.major then -1
    else if a.major > b.major then 1
    else if a.minor < b.minor then -1
    else if a.minor > b.minor then 1
    else if a.patch < b.patch then -1
    else if a.patch > b.patch then 1
    else 0
  }

  /**
   * `compareVersion` as the source has it: identical references (so two nulls)
   * are equal, a null `b` gives -1 and a null `a` gives 1, which makes null the
   * GREATEST version.
   */
  function CompareVersionAsWritten(a: Option<Version>, b: Option<Version>): (r: int)
    ensures r in {-1, 0, 1}
    ensures a.Some? && b.Some? ==> r == CompareTriples(a.value, b.value)
  {
    if a.None? && b.None? then 0
    else if b.None? then -1
    else if a.None? then 1
    else CompareTriples(a.value, b.value)
  }

  /** What the code does with null: it sorts above every version. */
  lemma CompareAsWrittenNullIsGreatest(v: Version)
    ensures CompareVersionAsWritten(None, Some(v)) == 1
    ensures CompareVersionAsWritten(Some(v), None) == -1
    ensures CompareVersionAsWritten(None, None) == 0
  {
  }

  /** Null strictly before every version; two versions by `Before`. */
  predicate Older(a: Option<Version>, b: Option<Version>)
  {
    || (a.None? && b.Some?)
    || (a.Some? && b.Some? && Before(a.value, b.value))
  }

  /**
   * `compareVersion` with the null policy its tests ask for ("null is old"):
   * null is the unique least element.
   */
  function CompareVersion(a: Option<Version>, b: Option<Version>): (r: int)
    ensures r in {-1, 0, 1}
    ensures r == 0 <==> a == b
    ensures r < 0 <==> Older(a, b)
    ensures r > 0 <==> Older(b, a)
  {
    if a.None? && b.None? then 0
    else if b.None? then 1
    else if a.None? then -1
    else CompareTriples(a.value, b.value)
  }

  /** The two policies agree except where exactly one side is null. */
  lemma CompareAgreesOnVersions(a: Option<Version>, b: Option<Version>)
    ensures a.None? == b.None? ==> CompareVersion(a, b) == CompareVersionAsWritten(a, b)
    ensures a.None? != b.None? ==> CompareVersion(a, b) == -CompareVersionAsWritten(a, b)
  {
  }

  /** KotlinVersionTest.compare, checked against the corrected comparison. */
  lemma CompareExamples()
    ensures CompareVersion(None, None) == 0
    ensures CompareVersion(None, Some(Version(1, 4, 20))) == -1
    ensures CompareVersion(Some(Version(1, 4, 20)), None) == 1
    ensures CompareVersion(Some(Version(1, 4, 20)), Some(Version(1, 4, 30))) == -1
    ensures CompareVersion(Some(Version(1, 4, 30)), Some(Version(1, 4, 20))) == 1
  {
  }

  /** `CompareVersion` is a total order: antisymmetric and transitive. */
  lemma CompareIsTotalOrder(a: Option<Version>, b: Option<Version>, c: Option<Version>)
    ensures CompareVersion(a, b) == -CompareVersion(b, a)
    ensures CompareVersion(a, b) <= 0 && CompareVersion(b, c) <= 0 ==> CompareVersion(a, c) <= 0
  {
  }

  /** The larger of two versions, keeping the first on a tie. */
  function Max(a: Option<Version>, b: Option<Version>): (r: Option<Version>)
    ensures r == a || r == b
    ensures CompareVersion(a, r) <= 0 && CompareVersion(b, r) <= 0
  {
    if CompareVersion(a, b) < 0 then b else a
  }
}
