/**
 * The derivation builders (SemVerExtensions.kt, and the same members in SemVer.kt):
 * each returns a new value with exactly one part replaced, validating new parts
 * as direct construction does.
 */
module Extensions {
  import opened Wrappers
  import opened Identifiers
  import opened Versions

  /**
   * An argument of the `vararg ids: Any` builders: a prebuilt value, or anything
   * else, which the source turns into text with `toString`.
   */
  datatype Arg =
    | PreReleaseArg(preRelease: PreReleaseVersion)
    | BuildMetadataArg(buildMetadata: BuildMetadata)
    | TextArg(text: string)

  /** `toString` of an argument. */
  function ArgToString(a: Arg): string
  {
    match a
    case PreReleaseArg(p) => IdsToString(p.ids)
    case BuildMetadataArg(b) => IdsToString(b.ids)
    case TextArg(t) => t
  }

  function ArgTexts(args: seq<Arg>): (r: seq<string>)
    ensures |r| == |args| && forall i :: 0 <= i < |args| ==> r[i] == ArgToString(args[i])
  {
    if |args| == 0 then [] else [ArgToString(args[0])] + ArgTexts(args[1..])
  }

  // ---------------------------------------------------------------- NormalVersion

  /** `NormalVersion.withMajorVersion`: a new major, validated as `NumericId(major, false)`. */
  function NormalVersionWithMajor(n: NormalVersion, major: string): (r: Result<NormalVersion, Error>)
    ensures r.Ok? <==> NewNumericId(major, false).Ok?
    ensures r.Ok? ==> r.value.major.digits == major && r.value.minor == n.minor && r.value.patch == n.patch
    ensures r.Err? ==> r.error == InvalidIdentifier(NewNumericId(major, false).error)
  {
    match NewNumericId(major, false)
    case Err(e) => Err(InvalidIdentifier(e))
    case Ok(x) => Ok(n.(major := x))
  }

  /** `NormalVersion.withMinorVersion` */
  function NormalVersionWithMinor(n: NormalVersion, minor: string): (r: Result<NormalVersion, Error>)
    ensures r.Ok? <==> NewNumericId(minor, false).Ok?
    ensures r.Ok? ==> r.value.minor.digits == minor && r.value.major == n.major && r.value.patch == n.patch
    ensures r.Err? ==> r.error == InvalidIdentifier(NewNumericId(minor, false).error)
  {
    match NewNumericId(minor, false)
    case Err(e) => Err(InvalidIdentifier(e))
    case Ok(x) => Ok(n.(minor := x))
  }

  /** `NormalVersion.withPatchVersion` */
  function NormalVersionWithPatch(n: NormalVersion, patch: string): (r: Result<NormalVersion, Error>)
    ensures r.Ok? <==> NewNumericId(patch, false).Ok?
    ensures r.Ok? ==> r.value.patch.digits == patch && r.value.major == n.major && r.value.minor == n.minor
    ensures r.Err? ==> r.error == InvalidIdentifier(NewNumericId(patch, false).error)
  {
    match NewNumericId(patch, false)
    case Err(e) => Err(InvalidIdentifier(e))
    case Ok(x) => Ok(n.(patch := x))
  }

  /** Replacing a component of a normal version built from text is building it from the new text. */
  lemma NormalVersionWithMatchesConstruction(major: string, minor: string, patch: string, x: string)
    requires NewNormalVersion(major, minor, patch).Ok?
    ensures NormalVersionWithMajor(NewNormalVersion(major, minor, patch).value, x) == NewNormalVersion(x, minor, patch)
    ensures NormalVersionWithMinor(NewNormalVersion(major, minor, patch).value, x) == NewNormalVersion(major, x, patch)
    ensures NormalVersionWithPatch(NewNormalVersion(major, minor, patch).value, x) == NewNormalVersion(major, minor, x)
  {
  }

  // ---------------------------------------------------------------- SemVer

  /** `SemVer.withMajorVersion`: only the major version changes. */
  function WithMajorVersion(v: SemVer, major: string): (r: Result<SemVer, Error>)
    ensures r.Ok? ==> r.value.normalVersion.major.digits == major
    ensures r.Ok? ==> r.value.normalVersion.minor == v.normalVersion.minor &&
                      r.value.normalVersion.patch == v.normalVersion.patch &&
                      r.value.preReleaseVersion == v.preReleaseVersion && r.value.buildMetadata == v.buildMetadata
    ensures NewNumericId(major, false).Err? ==> r == Err(InvalidIdentifier(NewNumericId(major, false).error))
    ensures InULongRange(v.normalVersion) ==> (r.Ok? <==> NewNumericId(major, false).Ok? && ToULong(major).Some?)
  {
    match NormalVersionWithMajor(v.normalVersion, major)
    case Err(e) => Err(e)
    case Ok(n) => NewSemVer(n, v.preReleaseVersion, v.buildMetadata)
  }

  /** `SemVer.withMinorVersion`: only the minor version changes. */
  function WithMinorVersion(v: SemVer, minor: string): (r: Result<SemVer, Error>)
    ensures r.Ok? ==> r.value.normalVersion.minor.digits == minor
    ensures r.Ok? ==> r.value.normalVersion.major == v.normalVersion.major &&
                      r.value.normalVersion.patch == v.normalVersion.patch &&
                      r.value.preReleaseVersion == v.preReleaseVersion && r.value.buildMetadata == v.buildMetadata
    ensures NewNumericId(minor, false).Err? ==> r == Err(InvalidIdentifier(NewNumericId(minor, false).error))
    ensures InULongRange(v.normalVersion) ==> (r.Ok? <==> NewNumericId(minor, false).Ok? && ToULong(minor).Some?)
  {
    match NormalVersionWithMinor(v.normalVersion, minor)
    case Err(e) => Err(e)
    case Ok(n) => NewSemVer(n, v.preReleaseVersion, v.buildMetadata)
  }

  /** `SemVer.withPatchVersion`: only the patch version changes. */
  function WithPatchVersion(v: SemVer, patch: string): (r: Result<SemVer, Error>)
    ensures r.Ok? ==> r.value.normalVersion.patch.digits == patch
    ensures r.Ok? ==> r.value.normalVersion.major == v.normalVersion.major &&
                      r.value.normalVersion.minor == v.normalVersion.minor &&
                      r.value.preReleaseVersion == v.preReleaseVersion && r.value.buildMetadata == v.buildMetadata
    ensures NewNumericId(patch, false).Err? ==> r == Err(InvalidIdentifier(NewNumericId(patch, false).error))
    ensures InULongRange(v.normalVersion) ==> (r.Ok? <==> NewNumericId(patch, false).Ok? && ToULong(patch).Some?)
  {
    match NormalVersionWithPatch(v.normalVersion, patch)
    case Err(e) => Err(e)
    case Ok(n) => NewSemVer(n, v.preReleaseVersion, v.buildMetadata)
  }

  /** `SemVer.withNormalVersion(normalVersion)`: only the normal version changes. */
  function WithNormalVersion(v: SemVer, n: NormalVersion): (r: Result<SemVer, Error>)
    ensures r.Ok? <==> InULongRange(n)
    ensures r.Ok? ==> r.value.normalVersion == n && r.value.preReleaseVersion == v.preReleaseVersion &&
                      r.value.buildMetadata == v.buildMetadata
  {
    NewSemVer(n, v.preReleaseVersion, v.buildMetadata)
  }

  /** `SemVer.withNormalVersion(major, minor, patch)`: the parts validated as by `NormalVersion(major, minor, patch)`. */
  function WithNormalVersionParts(v: SemVer, major: string, minor: string, patch: string): (r: Result<SemVer, Error>)
    ensures r.Ok? ==> NormalVersionToString(r.value.normalVersion) == major + "." + minor + "." + patch
    ensures r.Ok? ==> r.value.preReleaseVersion == v.preReleaseVersion && r.value.buildMetadata == v.buildMetadata
    ensures NewNormalVersion(major, minor, patch).Err? ==> r == Err(NewNormalVersion(major, minor, patch).error)
    ensures r.Ok? <==> NewNormalVersion(major, minor, patch).Ok? &&
                       ToULong(major).Some? && ToULong(minor).Some? && ToULong(patch).Some?
  {
    match NewNormalVersion(major, minor, patch)
    case Err(e) => Err(e)
    case Ok(n) => NewSemVer(n, v.preReleaseVersion, v.buildMetadata)
  }

  /**
   * `SemVer.withPreReleaseVersion(vararg ids: Any)`: no argument clears the pre-release,
   * a prebuilt PreReleaseVersion in first place is installed, anything else is turned
   * into text and classified with leading zeroes disallowed. Build metadata is kept.
   */
  function WithPreReleaseVersion(v: SemVer, args: seq<Arg>): (r: Result<SemVer, Error>)
    ensures r.Ok? ==> r.value.normalVersion == v.normalVersion && r.value.buildMetadata == v.buildMetadata
    ensures r.Ok? && args == [] ==> r.value.preReleaseVersion.None?
    ensures r.Ok? && args != [] && args[0].PreReleaseArg? ==> r.value.preReleaseVersion == Some(args[0].preRelease)
    ensures r.Ok? && args != [] && !args[0].PreReleaseArg? ==>
              NewPreReleaseVersion(ArgTexts(args)).Ok? &&
              r.value.preReleaseVersion == Some(NewPreReleaseVersion(ArgTexts(args)).value)
    ensures args != [] && !args[0].PreReleaseArg? && NewPreReleaseVersion(ArgTexts(args)).Err? ==>
              r == Err(NewPreReleaseVersion(ArgTexts(args)).error)
    ensures InULongRange(v.normalVersion) ==>
              (r.Ok? <==> args == [] || args[0].PreReleaseArg? ||
                          forall i :: 0 <= i < |args| ==> ParseId(ArgToString(args[i]), false).Ok?)
  {
    if |args| == 0 then NewSemVer(v.normalVersion, None, v.buildMetadata)
    else if args[0].PreReleaseArg? then NewSemVer(v.normalVersion, Some(args[0].preRelease), v.buildMetadata)
    else
      match NewPreReleaseVersion(ArgTexts(args))
      case Err(e) => Err(e)
      case Ok(p) => NewSemVer(v.normalVersion, Some(p), v.buildMetadata)
  }

  /**
   * `SemVer.withBuildMetadata(vararg ids: Any)`: no argument clears the build metadata,
   * a prebuilt BuildMetadata in first place is installed, anything else is turned into
   * text and classified with leading zeroes allowed. The pre-release is kept.
   */
  function WithBuildMetadata(v: SemVer, args: seq<Arg>): (r: Result<SemVer, Error>)
    ensures r.Ok? ==> r.value.normalVersion == v.normalVersion && r.value.preReleaseVersion == v.preReleaseVersion
    ensures r.Ok? && args == [] ==> r.value.buildMetadata.None?
    ensures r.Ok? && args != [] && args[0].BuildMetadataArg? ==> r.value.buildMetadata == Some(args[0].buildMetadata)
    ensures r.Ok? && args != [] && !args[0].BuildMetadataArg? ==>
              NewBuildMetadata(ArgTexts(args)).Ok? &&
              r.value.buildMetadata == Some(NewBuildMetadata(ArgTexts(args)).value)
    ensures args != [] && !args[0].BuildMetadataArg? && NewBuildMetadata(ArgTexts(args)).Err? ==>
              r == Err(NewBuildMetadata(ArgTexts(args)).error)
    ensures InULongRange(v.normalVersion) ==>
              (r.Ok? <==> args == [] || args[0].BuildMetadataArg? ||
                          forall i :: 0 <= i < |args| ==> ParseId(ArgToString(args[i]), true).Ok?)
  {
    if |args| == 0 then NewSemVer(v.normalVersion, v.preReleaseVersion, None)
    else if args[0].BuildMetadataArg? then NewSemVer(v.normalVersion, v.preReleaseVersion, Some(args[0].buildMetadata))
    else
      match NewBuildMetadata(ArgTexts(args))
      case Err(e) => Err(e)
      case Ok(b) => NewSemVer(v.normalVersion, v.preReleaseVersion, Some(b))
  }

  // ---------------------------------------------------------------- properties

  /** Setting the same major version twice is setting it once; likewise minor and patch. */
  lemma WithComponentIdempotent(v: SemVer, x: string)
    ensures WithMajorVersion(v, x).Ok? ==> WithMajorVersion(WithMajorVersion(v, x).value, x) == WithMajorVersion(v, x)
    ensures WithMinorVersion(v, x).Ok? ==> WithMinorVersion(WithMinorVersion(v, x).value, x) == WithMinorVersion(v, x)
    ensures WithPatchVersion(v, x).Ok? ==> WithPatchVersion(WithPatchVersion(v, x).value, x) == WithPatchVersion(v, x)
  {
  }

  /** Replacing the pre-release or the build metadata does not move the normal-version precedence. */
  lemma SuffixBuildersKeepNormalPrecedence(v: SemVer, w: SemVer, args: seq<Arg>)
    requires CompareNormalVersions(v.normalVersion, w.normalVersion) != 0
    ensures WithPreReleaseVersion(v, args).Ok? ==>
              CompareSemVers(WithPreReleaseVersion(v, args).value, w) == CompareSemVers(v, w)
    ensures WithBuildMetadata(v, args).Ok? ==>
              CompareSemVers(WithBuildMetadata(v, args).value, w) == CompareSemVers(v, w)
  {
  }

  /** Replacing the build metadata never changes precedence or equality. */
  lemma WithBuildMetadataKeepsEquality(v: SemVer, args: seq<Arg>)
    requires WithBuildMetadata(v, args).Ok?
    ensures SemVerEquals(WithBuildMetadata(v, args).value, v)
  {
    var r := WithBuildMetadata(v, args).value;
    BuildMetadataIgnored(v, v, r.buildMetadata, v.buildMetadata);
    CompareSemVersReflexive(v);
    assert v.(buildMetadata := r.buildMetadata) == r;
  }

  /** SemVer(NormalVersion(1, 0, 0)) */
  function Release100(): SemVer
  {
    SemVer(NormalVersion(NumericId("1"), NumericId("0"), NumericId("0")), None, None)
  }

  /** Setting each normal-version component of 1.0.0 in turn, as the source's tests do. */
  lemma ComponentBuilderExamples()
    ensures var a := WithMajorVersion(Release100(), "2");
      a.Ok? && var b := WithMinorVersion(a.value, "1");
      b.Ok? && var c := WithPatchVersion(b.value, "1");
      c.Ok? && ToString(c.value) == "2.1.1"
    ensures var r := WithNormalVersionParts(Release100(), "2", "1", "1"); r.Ok? && ToString(r.value) == "2.1.1"
    ensures var r := WithNormalVersion(Release100(), NormalVersion(NumericId("2"), NumericId("1"), NumericId("1")));
      r.Ok? && ToString(r.value) == "2.1.1"
    ensures WithNormalVersionParts(Release100(), "1", "0", "[]").Err?
  {
    assert !IsDigit("[]"[0]);
  }

  /** 1.0.0-beta.1 */
  function Beta1(): SemVer
  {
    Release100().(preReleaseVersion := Some(PreReleaseVersion([AlphanumericId("beta"), NumericId("1")])))
  }

  lemma Beta1Renders()
    ensures ToString(Beta1()) == "1.0.0-beta.1"
  {
    var ids := [AlphanumericId("beta"), NumericId("1")];
    assert Texts(ids) == ["beta", "1"];
    assert IdsToString(ids) == "beta" + "." + "1";
  }

  /** Replacing the pre-release of 1.0.0 from texts: `withPreReleaseVersion("beta", "1")`. */
  lemma PreReleaseFromTextExample()
    ensures var r := WithPreReleaseVersion(Release100(), [TextArg("beta"), TextArg("1")]);
      r.Ok? && ToString(r.value) == "1.0.0-beta.1"
  {
    Beta1Parsed();
    assert ArgTexts([TextArg("beta"), TextArg("1")]) == ["beta", "1"];
    Beta1Renders();
  }

  /** The texts "beta", "1" make an alphanumeric and a numeric pre-release identifier. */
  lemma Beta1Parsed()
    ensures NewPreReleaseVersion(["beta", "1"]) == Ok(PreReleaseVersion([AlphanumericId("beta"), NumericId("1")]))
  {
    assert IsIdentifierText("beta") by {
      forall i | 0 <= i < 4 ensures IsIdentifierChar("beta"[i]) { }
    }
    var texts := ["beta", "1"];
    assert ParseId(texts[0], false) == Ok(AlphanumericId("beta"));
    assert ParseId(texts[1], false) == Ok(NumericId("1"));
    var parsed := ParseIdList(texts, false);
    assert parsed.Ok? && parsed.value == [AlphanumericId("beta"), NumericId("1")];
  }

  /** Installing a prebuilt pre-release, clearing it, and rejecting a bad text. */
  lemma PreReleaseBuilderExamples()
    ensures var r := WithPreReleaseVersion(Release100(), [PreReleaseArg(Beta1().preReleaseVersion.value)]);
      r.Ok? && ToString(r.value) == "1.0.0-beta.1"
    ensures var r := WithPreReleaseVersion(Release100(), []); r.Ok? && !HasPreReleaseVersion(r.value)
  {
    Beta1Renders();
  }

  /** Texts that are not identifiers are refused as a pre-release and as build metadata. */
  lemma InvalidTextBuilderExamples()
    ensures WithPreReleaseVersion(Release100(), [TextArg("beta"), TextArg("[]")]).Err?
    ensures WithBuildMetadata(Release100(), [TextArg("beta"), TextArg("[]")]).Err?
  {
    assert !IsIdentifierText("[]") by { assert !IsIdentifierChar("[]"[0]); }
  }

  /** Replacing the build metadata of 1.0.0. */
  lemma BuildMetadataBuilderExamples()
    ensures var r := WithBuildMetadata(Release100(), [TextArg("001")]); r.Ok? && ToString(r.value) == "1.0.0+001"
  {
    var build := BuildMetadata([NumericId("001")]);
    Build001Installed();
    assert ToString(SemVer(Release100().normalVersion, None, Some(build))) == "1.0.0" + "+" + "001";
  }

  /** The text "001" is read as numeric build metadata and installed on 1.0.0. */
  lemma Build001Installed()
    ensures WithBuildMetadata(Release100(), [TextArg("001")]) ==
      Ok(SemVer(Release100().normalVersion, None, Some(BuildMetadata([NumericId("001")]))))
  {
    Build001Parsed();
    assert ArgTexts([TextArg("001")]) == ["001"];
  }

  /** The text "001" makes numeric build metadata: leading zeroes are allowed there. */
  lemma Build001Parsed()
    ensures NewBuildMetadata(["001"]) == Ok(BuildMetadata([NumericId("001")]))
  {
    DigitsValueLeadingZero("1");
    DigitsValueLeadingZero("01");
    assert "0" + "01" == "001";
    assert ParseId("001", true) == Ok(NumericId("001"));
    var texts := ["001"];
    var parsed := ParseIdList(texts, true);
    assert ParseId(texts[0], true) == Ok(NumericId("001"));
    assert parsed.Ok? && parsed.value == [NumericId("001")];
  }

  /** Clearing the build metadata of 1.0.0 with an empty argument list. */
  lemma BuildMetadataClearExample()
    ensures var r := WithBuildMetadata(Release100(), []); r.Ok? && !HasBuildMetadata(r.value)
  {
  }
}
