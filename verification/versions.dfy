/**
 * The version value model of SemVer.kt: `NormalVersion`, `PreReleaseVersion`,
 * `BuildMetadata` and the `SemVer` composite, their constructors, `toString`
 * and the precedence order (`compareTo`, with `equals` as compare == 0).
 */
module Versions {
  import opened Wrappers
  import opened Strings
  import opened Identifiers

  /** A field declared as `NumericId` in the source. */
  type NumericIdentifier = id: Id | id.NumericId? witness NumericId("0")

  datatype NormalVersion = NormalVersion(major: NumericIdentifier, minor: NumericIdentifier, patch: NumericIdentifier)

  /** The list constructors do not require a non-empty list; only the parser guarantees one. */
  datatype PreReleaseVersion = PreReleaseVersion(ids: seq<Id>)

  datatype BuildMetadata = BuildMetadata(ids: seq<Id>)

  datatype SemVer = SemVer(
    normalVersion: NormalVersion,
    preReleaseVersion: Option<PreReleaseVersion>,
    buildMetadata: Option<BuildMetadata>)

  /** Exceptions the value model throws. */
  datatype Error =
    | InvalidIdentifier(reason: IdError)  // IllegalArgumentException from an identifier constructor
    | NumberFormat(input: string)         // NumberFormatException from `toULong`

  // ---------------------------------------------------------------- construction

  /** `NormalVersion(major, minor, patch)` from raw values: three NumericIds without leading zeroes, built in order. */
  function NewNormalVersion(major: string, minor: string, patch: string): (r: Result<NormalVersion, Error>)
    ensures r.Ok? <==> NewNumericId(major, false).Ok? && NewNumericId(minor, false).Ok? && NewNumericId(patch, false).Ok?
    ensures r.Ok? ==> r.value.major.digits == major && r.value.minor.digits == minor && r.value.patch.digits == patch
    ensures NewNumericId(major, false).Err? ==> r == Err(InvalidIdentifier(NewNumericId(major, false).error))
    ensures NewNumericId(major, false).Ok? && NewNumericId(minor, false).Err? ==>
              r == Err(InvalidIdentifier(NewNumericId(minor, false).error))
    ensures NewNumericId(major, false).Ok? && NewNumericId(minor, false).Ok? && NewNumericId(patch, false).Err? ==>
              r == Err(InvalidIdentifier(NewNumericId(patch, false).error))
  {
    match NewNumericId(major, false)
    case Err(e) => Err(InvalidIdentifier(e))
    case Ok(x) =>
      match NewNumericId(minor, false)
      case Err(e) => Err(InvalidIdentifier(e))
      case Ok(y) =>
        match NewNumericId(patch, false)
        case Err(e) => Err(InvalidIdentifier(e))
        case Ok(z) => Ok(NormalVersion(x, y, z))
  }

  /** `PreReleaseVersion(vararg ids: String)`: each text classified by `Id.parse`, leading zeroes disallowed. */
  function NewPreReleaseVersion(texts: seq<string>): (r: Result<PreReleaseVersion, Error>)
    ensures r.Ok? <==> forall i :: 0 <= i < |texts| ==> ParseId(texts[i], false).Ok?
    ensures r.Ok? ==> Texts(r.value.ids) == texts
    ensures r.Ok? ==> |r.value.ids| == |texts| && forall i :: 0 <= i < |texts| ==> ParseId(texts[i], false) == Ok(r.value.ids[i])
    ensures r.Err? ==> (r.error.InvalidIdentifier? &&
                        exists i :: 0 <= i < |texts| && ParseId(texts[i], false) == Err(r.error.reason) &&
                                    forall j :: 0 <= j < i ==> ParseId(texts[j], false).Ok?)
  {
    match ParseIdList(texts, false)
    case Err(e) => Err(InvalidIdentifier(e))
    case Ok(ids) => TextsOfParsed(texts, false, ids); Ok(PreReleaseVersion(ids))
  }

  /** `BuildMetadata(vararg ids: String)`: each text classified by `Id.parse`, leading zeroes allowed. */
  function NewBuildMetadata(texts: seq<string>): (r: Result<BuildMetadata, Error>)
    ensures r.Ok? <==> forall i :: 0 <= i < |texts| ==> ParseId(texts[i], true).Ok?
    ensures r.Ok? ==> Texts(r.value.ids) == texts
    ensures r.Ok? ==> |r.value.ids| == |texts| && forall i :: 0 <= i < |texts| ==> ParseId(texts[i], true) == Ok(r.value.ids[i])
    ensures r.Err? ==> (r.error.InvalidIdentifier? &&
                        exists i :: 0 <= i < |texts| && ParseId(texts[i], true) == Err(r.error.reason) &&
                                    forall j :: 0 <= j < i ==> ParseId(texts[j], true).Ok?)
  {
    match ParseIdList(texts, true)
    case Err(e) => Err(InvalidIdentifier(e))
    case Ok(ids) => TextsOfParsed(texts, true, ids); Ok(BuildMetadata(ids))
  }

  /** Classified identifiers keep their texts. */
  lemma TextsOfParsed(texts: seq<string>, allowLeadingZeroes: bool, ids: seq<Id>)
    requires ParseIdList(texts, allowLeadingZeroes) == Ok(ids)
    ensures Texts(ids) == texts
  {
    assert forall i :: 0 <= i < |texts| ==> ParseId(texts[i], allowLeadingZeroes) == Ok(ids[i]);
  }

  /** The three components pass `toULong`, as the SemVer constructor demands. */
  predicate InULongRange(n: NormalVersion)
  {
    ToULong(n.major.digits).Some? && ToULong(n.minor.digits).Some? && ToULong(n.patch.digits).Some?
  }

  /**
   * The `SemVer` constructor: it stores its parts and computes `majorVersion`,
   * `minorVersion`, `patchVersion` with `toULong`, which throws for a component
   * beyond the 64-bit range (major checked first, then minor, then patch).
   */
  function NewSemVer(n: NormalVersion, pre: Option<PreReleaseVersion>, build: Option<BuildMetadata>): (r: Result<SemVer, Error>)
    ensures r.Ok? <==> DigitsValue(n.major.digits) <= ULONG_MAX && DigitsValue(n.minor.digits) <= ULONG_MAX &&
                       DigitsValue(n.patch.digits) <= ULONG_MAX
    ensures r.Ok? ==> r.value == SemVer(n, pre, build)
    ensures r.Err? ==> (r.error.NumberFormat? &&
                        r.error.input in {n.major.digits, n.minor.digits, n.patch.digits} &&
                        IsDigits(r.error.input) && DigitsValue(r.error.input) > ULONG_MAX)
  {
    if ToULong(n.major.digits).None? then Err(NumberFormat(n.major.digits))
    else if ToULong(n.minor.digits).None? then Err(NumberFormat(n.minor.digits))
    else if ToULong(n.patch.digits).None? then Err(NumberFormat(n.patch.digits))
    else Ok(SemVer(n, pre, build))
  }

  /** `majorVersion`: the value computed by the constructor. */
  function MajorVersion(v: SemVer): (r: nat)
    requires InULongRange(v.normalVersion)
    ensures r <= ULONG_MAX && r == DigitsValue(v.normalVersion.major.digits)
  {
    ToULong(v.normalVersion.major.digits).value
  }

  function MinorVersion(v: SemVer): (r: nat)
    requires InULongRange(v.normalVersion)
    ensures r <= ULONG_MAX && r == DigitsValue(v.normalVersion.minor.digits)
  {
    ToULong(v.normalVersion.minor.digits).value
  }

  function PatchVersion(v: SemVer): (r: nat)
    requires InULongRange(v.normalVersion)
    ensures r <= ULONG_MAX && r == DigitsValue(v.normalVersion.patch.digits)
  {
    ToULong(v.normalVersion.patch.digits).value
  }

  predicate HasPreReleaseVersion(v: SemVer) { v.preReleaseVersion.Some? }

  predicate HasBuildMetadata(v: SemVer) { v.buildMetadata.Some? }

  // ---------------------------------------------------------------- rendering

  /** `Ids.toString`: the identifier texts joined with `.`. */
  function IdsToString(ids: seq<Id>): string
  {
    Join(Texts(ids), '.')
  }

  /** `NormalVersion.toString`: the three components joined with `.`. */
  function NormalVersionToString(n: NormalVersion): string
  {
    n.major.digits + "." + n.minor.digits + "." + n.patch.digits
  }

  function PreReleaseSuffix(pre: Option<PreReleaseVersion>): string
  {
    if pre.Some? then "-" + IdsToString(pre.value.ids) else ""
  }

  function BuildMetadataSuffix(build: Option<BuildMetadata>): string
  {
    if build.Some? then "+" + IdsToString(build.value.ids) else ""
  }

  /** `SemVer.toString`: normal version, then `-` and the pre-release, then `+` and the build metadata. */
  function ToString(v: SemVer): string
  {
    NormalVersionToString(v.normalVersion) + PreReleaseSuffix(v.preReleaseVersion) + BuildMetadataSuffix(v.buildMetadata)
  }

  // ---------------------------------------------------------------- precedence

  function Components(n: NormalVersion): seq<Id>
  {
    [n.major, n.minor, n.patch]
  }

  /** The first non-zero comparison of the paired-up identifiers, or 0 when the shorter list runs out. */
  function ZipCompare(xs: seq<Id>, ys: seq<Id>): int
  {
    if |xs| == 0 || |ys| == 0 then 0
    else if CompareIds(xs[0], ys[0]) != 0 then CompareIds(xs[0], ys[0])
    else ZipCompare(xs[1..], ys[1..])
  }

  /** `NormalVersion.compareTo` */
  function CompareNormalVersions(a: NormalVersion, b: NormalVersion): int
  {
    ZipCompare(Components(a), Components(b))
  }

  /** `PreReleaseVersion.compareTo`: the first unequal pair decides, otherwise the shorter list is lower. */
  function ComparePreReleaseVersions(a: PreReleaseVersion, b: PreReleaseVersion): int
  {
    var r := ZipCompare(a.ids, b.ids);
    if r == 0 then CompareNat(|a.ids|, |b.ids|) else r
  }

  /** `SemVer.compareTo`: build metadata is never consulted. */
  function CompareSemVers(a: SemVer, b: SemVer): int
  {
    var r := CompareNormalVersions(a.normalVersion, b.normalVersion);
    if r == 0 then
      match (a.preReleaseVersion, b.preReleaseVersion)
      case (Some(_), None) => -1
      case (None, Some(_)) => 1
      case (Some(p), Some(q)) => ComparePreReleaseVersions(p, q)
      case (None, None) => 0
    else r
  }

  /** The `equals` of each of the three classes: compare == 0. */
  predicate NormalVersionEquals(a: NormalVersion, b: NormalVersion) { CompareNormalVersions(a, b) == 0 }

  predicate PreReleaseVersionEquals(a: PreReleaseVersion, b: PreReleaseVersion) { ComparePreReleaseVersions(a, b) == 0 }

  predicate SemVerEquals(a: SemVer, b: SemVer) { CompareSemVers(a, b) == 0 }

  /**
   * Precedence of identifier lists as SemVer 2.0.0 (item 11.4) states it, used as the
   * reference for the source's zip-then-size formulation.
   */
  function LexCompare(xs: seq<Id>, ys: seq<Id>): int
  {
    if |xs| == 0 && |ys| == 0 then 0
    else if |xs| == 0 then -1
    else if |ys| == 0 then 1
    else if CompareIds(xs[0], ys[0]) != 0 then CompareIds(xs[0], ys[0])
    else LexCompare(xs[1..], ys[1..])
  }

  /** The source's pre-release comparison is the reference lexicographic order. */
  lemma {:induction false} ComparePreReleaseIsLex(xs: seq<Id>, ys: seq<Id>)
    ensures ComparePreReleaseVersions(PreReleaseVersion(xs), PreReleaseVersion(ys)) == LexCompare(xs, ys)
  {
    if |xs| > 0 && |ys| > 0 && CompareIds(xs[0], ys[0]) == 0 {
      ComparePreReleaseIsLex(xs[1..], ys[1..]);
    }
  }

  /** On lists of one length the zip comparison is the reference order. */
  lemma {:induction false} ZipCompareIsLex(xs: seq<Id>, ys: seq<Id>)
    requires |xs| == |ys|
    ensures ZipCompare(xs, ys) == LexCompare(xs, ys)
  {
    if |xs| > 0 && CompareIds(xs[0], ys[0]) == 0 {
      ZipCompareIsLex(xs[1..], ys[1..]);
    }
  }

  /**
   * Declarative form of the reference order: `xs` is below `ys` when the first unequal
   * pair is smaller, or when all shared positions are equal and `xs` is shorter.
   */
  ghost predicate PrecedesAt(xs: seq<Id>, ys: seq<Id>, k: int)
  {
    0 <= k <= |xs| && k <= |ys| &&
    (forall j :: 0 <= j < k ==> CompareIds(xs[j], ys[j]) == 0) &&
    ((k < |xs| && k < |ys| && CompareIds(xs[k], ys[k]) < 0) || (k == |xs| && k < |ys|))
  }

  lemma {:induction false} LexCompareFirstDifference(xs: seq<Id>, ys: seq<Id>)
    ensures LexCompare(xs, ys) < 0 <==> exists k :: PrecedesAt(xs, ys, k)
  {
    if |xs| == 0 && |ys| > 0 {
      assert PrecedesAt(xs, ys, 0);
    } else if |xs| > 0 && |ys| > 0 {
      if CompareIds(xs[0], ys[0]) < 0 {
        assert PrecedesAt(xs, ys, 0);
      } else if CompareIds(xs[0], ys[0]) > 0 {
        forall k | PrecedesAt(xs, ys, k) ensures false { }
      } else {
        LexCompareFirstDifference(xs[1..], ys[1..]);
        if LexCompare(xs, ys) < 0 {
          var k :| PrecedesAt(xs[1..], ys[1..], k);
          assert PrecedesAt(xs, ys, k + 1) by {
            forall j | 0 <= j < k + 1 ensures CompareIds(xs[j], ys[j]) == 0 {
              if j > 0 { assert xs[j] == xs[1..][j - 1] && ys[j] == ys[1..][j - 1]; }
            }
          }
        }
        forall k | PrecedesAt(xs, ys, k) ensures LexCompare(xs, ys) < 0 {
          assert k > 0;
          assert PrecedesAt(xs[1..], ys[1..], k - 1) by {
            forall j | 0 <= j < k - 1 ensures CompareIds(xs[1..][j], ys[1..][j]) == 0 {
              assert xs[1..][j] == xs[j + 1] && ys[1..][j] == ys[j + 1];
            }
          }
        }
      }
    } else if |xs| > 0 {
      forall k | PrecedesAt(xs, ys, k) ensures false { }
    } else {
      forall k | PrecedesAt(xs, ys, k) ensures false { }
    }
  }

  lemma {:induction false} LexCompareAntisymmetric(xs: seq<Id>, ys: seq<Id>)
    ensures LexCompare(xs, ys) == -LexCompare(ys, xs)
  {
    if |xs| > 0 && |ys| > 0 {
      CompareIdsAntisymmetric(xs[0], ys[0]);
      if CompareIds(xs[0], ys[0]) == 0 {
        LexCompareAntisymmetric(xs[1..], ys[1..]);
      }
    }
  }

  lemma {:induction false} LexCompareReflexive(xs: seq<Id>)
    ensures LexCompare(xs, xs) == 0
  {
    if |xs| > 0 {
      CompareIdsReflexive(xs[0]);
      LexCompareReflexive(xs[1..]);
    }
  }

  lemma {:induction false} LexCompareTransitive(xs: seq<Id>, ys: seq<Id>, zs: seq<Id>)
    requires LexCompare(xs, ys) <= 0 && LexCompare(ys, zs) <= 0
    ensures LexCompare(xs, zs) <= 0
    ensures LexCompare(xs, zs) == 0 ==> LexCompare(xs, ys) == 0 && LexCompare(ys, zs) == 0
  {
    if |xs| > 0 && |ys| > 0 && |zs| > 0 {
      var a, b, c := xs[0], ys[0], zs[0];
      CompareIdsAntisymmetric(a, b);
      CompareIdsAntisymmetric(b, c);
      CompareIdsTransitive(a, b, c);
      if CompareIds(a, b) == 0 && CompareIds(b, c) == 0 {
        LexCompareTransitive(xs[1..], ys[1..], zs[1..]);
      }
    }
  }

  /** Lists that compare as 0 are interchangeable on either side of a comparison. */
  lemma {:induction false} LexCompareZeroCongruent(xs: seq<Id>, ys: seq<Id>, zs: seq<Id>)
    requires LexCompare(xs, ys) == 0
    ensures LexCompare(xs, zs) == LexCompare(ys, zs)
    ensures LexCompare(zs, xs) == LexCompare(zs, ys)
  {
    if |xs| > 0 && |ys| > 0 {
      CompareIdsZeroCongruent(xs[0], ys[0], if |zs| > 0 then zs[0] else xs[0]);
      LexCompareZeroCongruent(xs[1..], ys[1..], if |zs| > 0 then zs[1..] else zs);
    }
  }

  /** The normal version is ordered by major, then minor, then patch, each by numeric value. */
  lemma CompareNormalVersionsByValue(a: NormalVersion, b: NormalVersion)
    ensures CompareNormalVersions(a, b) ==
      if DigitsValue(a.major.digits) != DigitsValue(b.major.digits)
      then CompareNat(DigitsValue(a.major.digits), DigitsValue(b.major.digits))
      else if DigitsValue(a.minor.digits) != DigitsValue(b.minor.digits)
      then CompareNat(DigitsValue(a.minor.digits), DigitsValue(b.minor.digits))
      else CompareNat(DigitsValue(a.patch.digits), DigitsValue(b.patch.digits))
  {
    var xs, ys := Components(a), Components(b);
    assert xs[1..] == [a.minor, a.patch] && ys[1..] == [b.minor, b.patch];
    assert xs[1..][1..] == [a.patch] && ys[1..][1..] == [b.patch];
    assert ZipCompare([a.patch], [b.patch]) == CompareIds(a.patch, b.patch);
    assert ZipCompare(xs[1..], ys[1..]) ==
      if CompareIds(a.minor, b.minor) != 0 then CompareIds(a.minor, b.minor) else CompareIds(a.patch, b.patch);
  }

  /** Normal versions are equal exactly when their three components have equal values. */
  lemma NormalVersionEqualsByValue(a: NormalVersion, b: NormalVersion)
    ensures NormalVersionEquals(a, b) <==>
      DigitsValue(a.major.digits) == DigitsValue(b.major.digits) &&
      DigitsValue(a.minor.digits) == DigitsValue(b.minor.digits) &&
      DigitsValue(a.patch.digits) == DigitsValue(b.patch.digits)
  {
    CompareNormalVersionsByValue(a, b);
  }

  lemma NormalVersionIsLex(a: NormalVersion, b: NormalVersion)
    ensures CompareNormalVersions(a, b) == LexCompare(Components(a), Components(b))
  {
    ZipCompareIsLex(Components(a), Components(b));
  }

  /** A key that puts every pre-release below the release, used to read `CompareSemVers` casewise. */
  function PreReleaseKeyCompare(p: Option<PreReleaseVersion>, q: Option<PreReleaseVersion>): int
  {
    match (p, q)
    case (Some(_), None) => -1
    case (None, Some(_)) => 1
    case (Some(x), Some(y)) => LexCompare(x.ids, y.ids)
    case (None, None) => 0
  }

  lemma CompareSemVersCases(a: SemVer, b: SemVer)
    ensures CompareSemVers(a, b) ==
      var r := LexCompare(Components(a.normalVersion), Components(b.normalVersion));
      if r == 0 then PreReleaseKeyCompare(a.preReleaseVersion, b.preReleaseVersion) else r
  {
    NormalVersionIsLex(a.normalVersion, b.normalVersion);
    if a.preReleaseVersion.Some? && b.preReleaseVersion.Some? {
      ComparePreReleaseIsLex(a.preReleaseVersion.value.ids, b.preReleaseVersion.value.ids);
    }
  }

  lemma CompareSemVersAntisymmetric(a: SemVer, b: SemVer)
    ensures CompareSemVers(a, b) == -CompareSemVers(b, a)
  {
    CompareSemVersCases(a, b);
    CompareSemVersCases(b, a);
    LexCompareAntisymmetric(Components(a.normalVersion), Components(b.normalVersion));
    if a.preReleaseVersion.Some? && b.preReleaseVersion.Some? {
      LexCompareAntisymmetric(a.preReleaseVersion.value.ids, b.preReleaseVersion.value.ids);
    }
  }

  lemma CompareSemVersReflexive(a: SemVer)
    ensures CompareSemVers(a, a) == 0
  {
    CompareSemVersCases(a, a);
    LexCompareReflexive(Components(a.normalVersion));
    if a.preReleaseVersion.Some? {
      LexCompareReflexive(a.preReleaseVersion.value.ids);
    }
  }

  lemma CompareSemVersTransitive(a: SemVer, b: SemVer, c: SemVer)
    requires CompareSemVers(a, b) <= 0 && CompareSemVers(b, c) <= 0
    ensures CompareSemVers(a, c) <= 0
    ensures CompareSemVers(a, c) == 0 ==> CompareSemVers(a, b) == 0 && CompareSemVers(b, c) == 0
  {
    CompareSemVersCases(a, b);
    CompareSemVersCases(b, c);
    CompareSemVersCases(a, c);
    var na, nb, nc := Components(a.normalVersion), Components(b.normalVersion), Components(c.normalVersion);
    LexCompareTransitive(na, nb, nc);
    if LexCompare(na, nb) == 0 && LexCompare(nb, nc) == 0 {
      var p, q, s := a.preReleaseVersion, b.preReleaseVersion, c.preReleaseVersion;
      if p.Some? && q.Some? && s.Some? {
        LexCompareTransitive(p.value.ids, q.value.ids, s.value.ids);
      }
    }
  }

  /** `SemVer.equals` is an equivalence: reflexive, symmetric and transitive. */
  lemma SemVerEqualsIsEquivalence(a: SemVer, b: SemVer, c: SemVer)
    ensures SemVerEquals(a, a)
    ensures SemVerEquals(a, b) ==> SemVerEquals(b, a)
    ensures SemVerEquals(a, b) && SemVerEquals(b, c) ==> SemVerEquals(a, c)
  {
    CompareSemVersReflexive(a);
    CompareSemVersAntisymmetric(a, b);
    if SemVerEquals(a, b) && SemVerEquals(b, c) {
      CompareSemVersTransitive(a, b, c);
      CompareSemVersAntisymmetric(b, c);
      CompareSemVersAntisymmetric(a, b);
      CompareSemVersTransitive(c, b, a);
      CompareSemVersAntisymmetric(a, c);
    }
  }

  /** Versions are equal when the normal versions are equal and the pre-releases are both absent or equal. */
  lemma SemVerEqualsIff(a: SemVer, b: SemVer)
    ensures SemVerEquals(a, b) <==>
      NormalVersionEquals(a.normalVersion, b.normalVersion) &&
      (a.preReleaseVersion.None? <==> b.preReleaseVersion.None?) &&
      (a.preReleaseVersion.Some? && b.preReleaseVersion.Some? ==>
         PreReleaseVersionEquals(a.preReleaseVersion.value, b.preReleaseVersion.value))
  {
  }

  /** Build metadata never takes part in precedence. */
  lemma BuildMetadataIgnored(a: SemVer, b: SemVer, x: Option<BuildMetadata>, y: Option<BuildMetadata>)
    ensures CompareSemVers(a.(buildMetadata := x), b.(buildMetadata := y)) == CompareSemVers(a, b)
    ensures SemVerEquals(a, a.(buildMetadata := x))
  {
    CompareSemVersReflexive(a);
  }

  /** With equal normal versions, a pre-release is below the release. */
  lemma PreReleaseBelowRelease(a: SemVer, b: SemVer)
    requires NormalVersionEquals(a.normalVersion, b.normalVersion)
    requires a.preReleaseVersion.Some? && b.preReleaseVersion.None?
    ensures CompareSemVers(a, b) < 0 && CompareSemVers(b, a) > 0
  {
    CompareSemVersAntisymmetric(a, b);
  }

  /** The normal version decides before anything else is looked at. */
  lemma NormalVersionDecides(a: SemVer, b: SemVer)
    requires !NormalVersionEquals(a.normalVersion, b.normalVersion)
    ensures CompareSemVers(a, b) == CompareNormalVersions(a.normalVersion, b.normalVersion)
  {
  }

  /** A release version `major.minor.patch` without suffixes. */
  function Release(major: NumericText, minor: NumericText, patch: NumericText): SemVer
  {
    SemVer(NormalVersion(NumericId(major), NumericId(minor), NumericId(patch)), None, None)
  }

  /** Releases ordered by their normal versions: 1.0.0 < 2.0.0 < 2.1.0 < 2.1.1. */
  lemma ReleaseChainPrecedence()
    ensures CompareSemVers(Release("1", "0", "0"), Release("2", "0", "0")) < 0
    ensures CompareSemVers(Release("2", "0", "0"), Release("2", "1", "0")) < 0
    ensures CompareSemVers(Release("2", "1", "0"), Release("2", "1", "1")) < 0
  {
    var v100, v200, v210, v211 := Release("1", "0", "0"), Release("2", "0", "0"), Release("2", "1", "0"), Release("2", "1", "1");
    CompareNormalVersionsByValue(v100.normalVersion, v200.normalVersion);
    CompareNormalVersionsByValue(v200.normalVersion, v210.normalVersion);
    CompareNormalVersionsByValue(v210.normalVersion, v211.normalVersion);
  }

  /** 1.0.0 with the given pre-release identifiers. */
  function Version100(pre: seq<Id>): SemVer
  {
    SemVer(NormalVersion(NumericId("1"), NumericId("0"), NumericId("0")),
           if pre == [] then None else Some(PreReleaseVersion(pre)), None)
  }

  lemma CompareVersion100(p: seq<Id>, q: seq<Id>)
    ensures CompareSemVers(Version100(p), Version100(q)) ==
      if p == [] && q == [] then 0 else if p == [] then 1 else if q == [] then -1 else LexCompare(p, q)
  {
    var n := Version100([]).normalVersion;
    NormalVersionIsLex(n, n);
    LexCompareReflexive(Components(n));
    if p != [] && q != [] {
      ComparePreReleaseIsLex(p, q);
    }
  }

  /**
   * The precedence chain of SemVer 2.0.0 item 11 as the source's tests list it:
   * 1.0.0-alpha < 1.0.0-alpha.1 < 1.0.0-alpha.beta < 1.0.0-beta < 1.0.0-beta.2
   * < 1.0.0-beta.11 < 1.0.0-rc.1 < 1.0.0, and 1.0.0-b10 < 1.0.0-b9.
   */
  lemma PrecedenceExamples()
    ensures var alpha, beta, rc := AlphanumericId("alpha"), AlphanumericId("beta"), AlphanumericId("rc");
      CompareSemVers(Version100([alpha]), Version100([alpha, NumericId("1")])) < 0 &&
      CompareSemVers(Version100([alpha, NumericId("1")]), Version100([alpha, beta])) < 0 &&
      CompareSemVers(Version100([alpha, beta]), Version100([beta])) < 0 &&
      CompareSemVers(Version100([beta]), Version100([beta, NumericId("2")])) < 0 &&
      CompareSemVers(Version100([beta, NumericId("2")]), Version100([beta, NumericId("11")])) < 0 &&
      CompareSemVers(Version100([beta, NumericId("11")]), Version100([rc, NumericId("1")])) < 0 &&
      CompareSemVers(Version100([rc, NumericId("1")]), Version100([])) < 0
    ensures CompareSemVers(Version100([AlphanumericId("b10")]), Version100([AlphanumericId("b9")])) < 0
    ensures CompareSemVers(Release("1", "0", "0"), Release("2", "0", "0")) < 0 &&
            CompareSemVers(Release("2", "0", "0"), Release("2", "1", "0")) < 0 &&
            CompareSemVers(Release("2", "1", "0"), Release("2", "1", "1")) < 0
    ensures CompareSemVers(Version100([AlphanumericId("alpha")]), Version100([])) < 0
  {
    ReleaseChainPrecedence();
    PreReleaseBelowRelease(Version100([AlphanumericId("alpha")]), Version100([]));
    AlphaPrecedence();
    BetaPrecedence();
    ReleasePrecedence();
  }

  /** The alpha steps of the chain: a longer list after its prefix, numeric before alphanumeric. */
  lemma AlphaPrecedence()
    ensures var alpha, beta := AlphanumericId("alpha"), AlphanumericId("beta");
      CompareSemVers(Version100([alpha]), Version100([alpha, NumericId("1")])) < 0 &&
      CompareSemVers(Version100([alpha, NumericId("1")]), Version100([alpha, beta])) < 0 &&
      CompareSemVers(Version100([alpha, beta]), Version100([beta])) < 0
  {
    var alpha, beta, one := AlphanumericId("alpha"), AlphanumericId("beta"), NumericId("1");
    assert CompareIds(alpha, beta) < 0 && CompareIds(one, beta) < 0;
    CompareIdsReflexive(alpha);
    CompareVersion100([alpha], [alpha, one]);
    assert LexCompare([alpha], [alpha, one]) == LexCompare([], [one]);
    CompareVersion100([alpha, one], [alpha, beta]);
    assert LexCompare([alpha, one], [alpha, beta]) == LexCompare([one], [beta]);
    CompareVersion100([alpha, beta], [beta]);
  }

  /** The beta steps of the chain: numeric identifiers by value, 2 before 11. */
  lemma BetaPrecedence()
    ensures var beta, rc := AlphanumericId("beta"), AlphanumericId("rc");
      CompareSemVers(Version100([beta]), Version100([beta, NumericId("2")])) < 0 &&
      CompareSemVers(Version100([beta, NumericId("2")]), Version100([beta, NumericId("11")])) < 0 &&
      CompareSemVers(Version100([beta, NumericId("11")]), Version100([rc, NumericId("1")])) < 0
  {
    var beta, rc := AlphanumericId("beta"), AlphanumericId("rc");
    var one, two, eleven := NumericId("1"), NumericId("2"), NumericId("11");
    assert DigitsValue("11") == 11;
    assert CompareIds(beta, rc) < 0 && CompareIds(two, eleven) < 0;
    CompareIdsReflexive(beta);
    CompareVersion100([beta], [beta, two]);
    assert LexCompare([beta], [beta, two]) == LexCompare([], [two]);
    CompareVersion100([beta, two], [beta, eleven]);
    assert LexCompare([beta, two], [beta, eleven]) == LexCompare([two], [eleven]);
    CompareVersion100([beta, eleven], [rc, one]);
  }

  /** The last step of the chain, a pre-release before the release, and b10 before b9. */
  lemma ReleasePrecedence()
    ensures CompareSemVers(Version100([AlphanumericId("rc"), NumericId("1")]), Version100([])) < 0
    ensures CompareSemVers(Version100([AlphanumericId("b10")]), Version100([AlphanumericId("b9")])) < 0
  {
    CompareVersion100([AlphanumericId("rc"), NumericId("1")], []);
    CompareVersion100([AlphanumericId("b10")], [AlphanumericId("b9")]);
  }
}
