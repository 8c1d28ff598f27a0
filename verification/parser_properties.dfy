/**
 * What the hand-written parser accepts and what it builds: parsing and rendering are
 * inverse on the well-formed versions, and nothing else is accepted.
 */
module ParserProperties {
  import opened Wrappers
  import opened Strings
  import opened Identifiers
  import opened Versions
  import opened SimpleParser

  /** Identifiers that re-classify to themselves from their own text: what `parseIds` can produce. */
  predicate CanonicalIds(ids: seq<Id>, allowLeadingZeroes: bool)
  {
    |ids| >= 1 && forall i :: 0 <= i < |ids| ==> ParseId(ids[i].ToString(), allowLeadingZeroes) == Ok(ids[i])
  }

  /**
   * A version the parser can return: components without leading zeroes and within the
   * 64-bit range, a non-empty pre-release classified without leading zeroes, non-empty
   * build metadata classified with leading zeroes allowed.
   */
  predicate WellFormed(v: SemVer)
  {
    var n := v.normalVersion;
    !HasLeadingZero(n.major.digits) && !HasLeadingZero(n.minor.digits) && !HasLeadingZero(n.patch.digits) &&
    InULongRange(n) &&
    (v.preReleaseVersion.Some? ==> CanonicalIds(v.preReleaseVersion.value.ids, false)) &&
    (v.buildMetadata.Some? ==> CanonicalIds(v.buildMetadata.value.ids, true))
  }

  // ---------------------------------------------------------------- helpers

  lemma IdTextChars(id: Id)
    ensures |id.ToString()| > 0
    ensures forall i :: 0 <= i < |id.ToString()| ==> IsIdentifierChar(id.ToString()[i])
  {
  }

  /** The rendered identifiers hold no `.` inside a piece and no `+` at all. */
  lemma IdsTextChars(ids: seq<Id>)
    ensures forall i :: 0 <= i < |ids| ==> '.' !in Texts(ids)[i]
    ensures forall k :: 0 <= k < |IdsToString(ids)| ==> IdsToString(ids)[k] != '+'
  {
    var texts := Texts(ids);
    forall i | 0 <= i < |ids|
      ensures '.' !in texts[i]
      ensures forall j :: 0 <= j < |texts[i]| ==> texts[i][j] !in {'+'}
    {
      IdTextChars(ids[i]);
    }
    JoinAvoids(texts, '.', {'+'});
  }

  /** Classifying the texts of canonical identifiers gives them back. */
  lemma ParseIdListOfTexts(ids: seq<Id>, allowLeadingZeroes: bool)
    requires CanonicalIds(ids, allowLeadingZeroes)
    ensures ParseIdList(Texts(ids), allowLeadingZeroes) == Ok(ids)
  {
    var r := ParseIdList(Texts(ids), allowLeadingZeroes);
    assert r.Ok?;
    assert |r.value| == |ids|;
    assert forall i :: 0 <= i < |ids| ==> r.value[i] == ids[i];
    assert r.value == ids;
  }

  /** The text at the cursor: the segment, then the rest of the input from its delimiter on. */
  lemma SegmentSplits(input: string, start: nat, delimiters: set<char>)
    requires start <= |input|
    ensures input[start..] == Segment(input, start, delimiters) + input[NextStart(input, start, delimiters) - 1..]
  {
  }

  /** A digit string without leading zero, followed by nothing or a delimiter, is read as that NumericId. */
  lemma NumericStageOn(input: string, start: nat, id: NumericIdentifier, rest: string, delimiters: set<char>)
    requires start <= |input| && input[start..] == id.digits + rest
    requires delimiters <= {'.', '-', '+'}
    requires rest == [] || rest[0] in delimiters
    requires !HasLeadingZero(id.digits)
    ensures NumericStage(input, start, delimiters) == Ok(id)
    ensures NextStart(input, start, delimiters) == start + |id.digits| + 1
    ensures input[start + |id.digits|..] == rest
  {
    assert forall i :: 0 <= i < |id.digits| ==> id.digits[i] !in delimiters by {
      assert forall i :: 0 <= i < |id.digits| ==> IsDigit(id.digits[i]);
    }
    TakeUntilPrefix(id.digits, rest, delimiters);
    assert Segment(input, start, delimiters) == id.digits;
    assert NewNumericId(id.digits, false) == Ok(id);
    SliceConcat(input, start, id.digits, rest);
  }

  /** The rendering of canonical identifiers, followed by nothing or a delimiter, is read back as them. */
  lemma IdsStageOn(input: string, start: nat, ids: seq<Id>, rest: string, delimiters: set<char>, allowLeadingZeroes: bool)
    requires start <= |input| && input[start..] == IdsToString(ids) + rest
    requires delimiters <= {'+'}
    requires rest == [] || rest[0] in delimiters
    requires CanonicalIds(ids, allowLeadingZeroes)
    ensures IdsStage(input, start, delimiters, allowLeadingZeroes) == Ok(ids)
    ensures NextStart(input, start, delimiters) == start + |IdsToString(ids)| + 1
  {
    IdsTextChars(ids);
    TakeUntilPrefix(IdsToString(ids), rest, delimiters);
    SplitJoin(Texts(ids), '.');
    ParseIdListOfTexts(ids, allowLeadingZeroes);
  }

  /** Rendered build metadata (or none) at the cursor's delimiter is read back, and the SemVer built. */
  lemma ParseBuildOn(input: string, n: NormalVersion, pre: Option<PreReleaseVersion>, start: nat, build: Option<BuildMetadata>)
    requires 1 <= start <= |input| + 1
    requires input[start - 1..] == BuildMetadataSuffix(build)
    requires build.Some? ==> CanonicalIds(build.value.ids, true)
    requires InULongRange(n)
    ensures ParseBuild(input, n, pre, start) == Ok(SemVer(n, pre, build))
  {
    if build.Some? {
      ParseBuildMetadataOn(input, n, pre, start, build.value);
    } else {
      ParseBuildWithout(input, n, pre, start);
    }
  }

  /** Rendered build metadata at the cursor's `+` is read back. */
  lemma ParseBuildMetadataOn(input: string, n: NormalVersion, pre: Option<PreReleaseVersion>, start: nat, build: BuildMetadata)
    requires 1 <= start <= |input|
    requires input[start - 1..] == "+" + IdsToString(build.ids)
    requires CanonicalIds(build.ids, true)
    requires InULongRange(n)
    ensures ParseBuild(input, n, pre, start) == Ok(SemVer(n, pre, Some(build)))
  {
    assert input[start - 1] == input[start - 1..][0] == '+';
    assert input[start..] == IdsToString(build.ids) + "";
    IdsStageOn(input, start, build.ids, "", {}, true);
    ParseBuildWith(input, n, pre, start, build.ids);
  }

  /** A rendered pre-release at the cursor's `-` is read back, then the build metadata after it. */
  lemma ParsePreReleaseOn(input: string, n: NormalVersion, start: nat, pre: PreReleaseVersion, build: Option<BuildMetadata>)
    requires 1 <= start <= |input|
    requires input[start - 1..] == "-" + (IdsToString(pre.ids) + BuildMetadataSuffix(build))
    requires CanonicalIds(pre.ids, false)
    requires build.Some? ==> CanonicalIds(build.value.ids, true)
    requires InULongRange(n)
    ensures ParseSuffixes(input, n, start) == Ok(SemVer(n, Some(pre), build))
  {
    var text := IdsToString(pre.ids);
    var rest := BuildMetadataSuffix(build);
    SliceConcat(input, start - 1, "-", text + rest);
    SliceConcat(input, start, text, rest);
    IdsStageOn(input, start, pre.ids, rest, {'+'}, false);
    var next := start + |text| + 1;
    ParseBuildOn(input, n, Some(pre), next, build);
    ParseSuffixesPre(input, n, start, pre.ids);
    assert NextStart(input, start, {'+'}) == next;
    assert PreReleaseVersion(pre.ids) == pre;
    assert ParseSuffixes(input, n, start) == ParseBuild(input, n, Some(pre), next);
  }

  /** Rendered suffixes at the cursor's delimiter are read back. */
  lemma ParseSuffixesOn(input: string, n: NormalVersion, start: nat, pre: Option<PreReleaseVersion>, build: Option<BuildMetadata>)
    requires 1 <= start <= |input| + 1
    requires input[start - 1..] == PreReleaseSuffix(pre) + BuildMetadataSuffix(build)
    requires pre.Some? ==> CanonicalIds(pre.value.ids, false)
    requires build.Some? ==> CanonicalIds(build.value.ids, true)
    requires InULongRange(n)
    ensures ParseSuffixes(input, n, start) == Ok(SemVer(n, pre, build))
  {
    if pre.Some? {
      ConcatAssoc("-", IdsToString(pre.value.ids), BuildMetadataSuffix(build));
      ParsePreReleaseOn(input, n, start, pre.value, build);
    } else {
      assert !(start <= |input| && input[start - 1] == '-');
      ParseBuildOn(input, n, pre, start, build);
    }
  }

  // ---------------------------------------------------------------- round trips

  /** The normal-version stages, when all three succeed, hand over to the suffix stages. */
  lemma ParseNormalSteps(input: string, n: NormalVersion, s1: nat, s2: nat, s3: nat)
    requires |input| > 0
    requires NumericStage(input, 0, {'.'}) == Ok(n.major) && NextStart(input, 0, {'.'}) == s1 && s1 < |input|
    requires NumericStage(input, s1, {'.'}) == Ok(n.minor) && NextStart(input, s1, {'.'}) == s2 && s2 < |input|
    requires NumericStage(input, s2, {'-', '+'}) == Ok(n.patch) && NextStart(input, s2, {'-', '+'}) == s3
    ensures Parse(input) == ParseSuffixes(input, n, s3)
  {
  }

  /** A component followed by a dot is read, and the cursor lands just after the dot. */
  lemma DotStageOn(input: string, start: nat, id: NumericIdentifier, tail: string)
    requires start <= |input| && input[start..] == id.digits + ("." + tail)
    requires !HasLeadingZero(id.digits)
    ensures NumericStage(input, start, {'.'}) == Ok(id)
    ensures NextStart(input, start, {'.'}) == start + |id.digits| + 1
    ensures start + |id.digits| + 1 <= |input| && input[start + |id.digits| + 1..] == tail
  {
    NumericStageOn(input, start, id, "." + tail, {'.'});
    SliceConcat(input, start + |id.digits|, ".", tail);
  }

  /** A rendered normal version is read component by component: what each numeric stage sees. */
  lemma NormalStagesOn(input: string, n: NormalVersion, suffix: string, s1: nat, s2: nat, s3: nat)
    requires input == n.major.digits + ("." + (n.minor.digits + ("." + (n.patch.digits + suffix))))
    requires !HasLeadingZero(n.major.digits) && !HasLeadingZero(n.minor.digits) && !HasLeadingZero(n.patch.digits)
    requires suffix == [] || suffix[0] in {'-', '+'}
    requires s1 == |n.major.digits| + 1 && s2 == s1 + |n.minor.digits| + 1 && s3 == s2 + |n.patch.digits| + 1
    ensures NumericStage(input, 0, {'.'}) == Ok(n.major) && NextStart(input, 0, {'.'}) == s1 && s1 < |input|
    ensures NumericStage(input, s1, {'.'}) == Ok(n.minor) && NextStart(input, s1, {'.'}) == s2 && s2 < |input|
    ensures NumericStage(input, s2, {'-', '+'}) == Ok(n.patch) && NextStart(input, s2, {'-', '+'}) == s3
    ensures s3 <= |input| + 1 && input[s3 - 1..] == suffix
  {
    MajorMinorStagesOn(input, n, n.patch.digits + suffix, s1, s2);
    NumericStageOn(input, s2, n.patch, suffix, {'-', '+'});
  }

  /** The major and minor stages of a rendered normal version, and where they leave the cursor. */
  lemma MajorMinorStagesOn(input: string, n: NormalVersion, tail: string, s1: nat, s2: nat)
    requires input == n.major.digits + ("." + (n.minor.digits + ("." + tail)))
    requires !HasLeadingZero(n.major.digits) && !HasLeadingZero(n.minor.digits)
    requires s1 == |n.major.digits| + 1 && s2 == s1 + |n.minor.digits| + 1
    ensures NumericStage(input, 0, {'.'}) == Ok(n.major) && NextStart(input, 0, {'.'}) == s1 && s1 < |input|
    ensures NumericStage(input, s1, {'.'}) == Ok(n.minor) && NextStart(input, s1, {'.'}) == s2
    ensures s2 <= |input| && input[s2..] == tail
  {
    assert input[0..] == input;
    DotStageOn(input, 0, n.major, n.minor.digits + ("." + tail));
    DotStageOn(input, s1, n.minor, tail);
  }

  /** The rendered text, with its parts named, is parsed stage by stage. */
  lemma ParseRenderedText(input: string, n: NormalVersion, suffix: string, pre: Option<PreReleaseVersion>, build: Option<BuildMetadata>)
    requires suffix == PreReleaseSuffix(pre) + BuildMetadataSuffix(build)
    requires input == n.major.digits + ("." + (n.minor.digits + ("." + (n.patch.digits + suffix))))
    requires !HasLeadingZero(n.major.digits) && !HasLeadingZero(n.minor.digits) && !HasLeadingZero(n.patch.digits)
    requires InULongRange(n)
    requires pre.Some? ==> CanonicalIds(pre.value.ids, false)
    requires build.Some? ==> CanonicalIds(build.value.ids, true)
    ensures Parse(input) == Ok(SemVer(n, pre, build))
  {
    assert suffix == [] || suffix[0] in {'-', '+'};
    var s1 := |n.major.digits| + 1;
    var s2 := s1 + |n.minor.digits| + 1;
    var s3 := s2 + |n.patch.digits| + 1;
    NormalStagesOn(input, n, suffix, s1, s2, s3);
    ParseNormalSteps(input, n, s1, s2, s3);
    ParseSuffixesOn(input, n, s3, pre, build);
  }

  /** The rendering of a version, with its concatenations grouped to the right. */
  lemma ToStringShape(v: SemVer)
    ensures ToString(v) == v.normalVersion.major.digits + ("." + (v.normalVersion.minor.digits + ("." +
              (v.normalVersion.patch.digits + (PreReleaseSuffix(v.preReleaseVersion) + BuildMetadataSuffix(v.buildMetadata))))))
  {
    var n := v.normalVersion;
    var pre, build := v.preReleaseVersion, v.buildMetadata;
    var suffix := PreReleaseSuffix(pre) + BuildMetadataSuffix(build);
    var major, minor, patch := n.major.digits, n.minor.digits, n.patch.digits;
    ConcatAssoc(NormalVersionToString(n), PreReleaseSuffix(pre), BuildMetadataSuffix(build));
    ConcatAssoc(major + "." + minor + ".", patch, suffix);
    ConcatAssoc(major + "." + minor, ".", patch + suffix);
    ConcatAssoc(major + ".", minor, "." + (patch + suffix));
    ConcatAssoc(major, ".", minor + ("." + (patch + suffix)));
  }

  /** Rendering a well-formed version and parsing the text gives the version back. */
  lemma RenderParse(v: SemVer)
    requires WellFormed(v)
    ensures Parse(ToString(v)) == Ok(v)
  {
    ToStringShape(v);
    var suffix := PreReleaseSuffix(v.preReleaseVersion) + BuildMetadataSuffix(v.buildMetadata);
    ParseRenderedText(ToString(v), v.normalVersion, suffix, v.preReleaseVersion, v.buildMetadata);
  }

  // ---------------------------------------------------------------- what a successful parse saw

  /** A numeric stage that succeeds read exactly its digits, up to the delimiter or the end. */
  lemma NumericStageText(input: string, start: nat, delimiters: set<char>, id: NumericIdentifier, next: nat)
    requires start <= |input| && NumericStage(input, start, delimiters) == Ok(id) && NextStart(input, start, delimiters) == next
    ensures input[start..] == id.digits + input[next - 1..] && start < next
    ensures next <= |input| ==> input[next - 1] in delimiters
  {
    SegmentSplits(input, start, delimiters);
  }

  /** The identifiers an identifier stage returns are canonical: each re-classifies to itself from its text. */
  lemma IdsStageCanonical(input: string, start: nat, delimiters: set<char>, allowLeadingZeroes: bool)
    requires start <= |input| && IdsStage(input, start, delimiters, allowLeadingZeroes).Ok?
    ensures CanonicalIds(IdsStage(input, start, delimiters, allowLeadingZeroes).value, allowLeadingZeroes)
  {
    var pieces := Pieces(input, start, delimiters);
    var ids := IdsStage(input, start, delimiters, allowLeadingZeroes).value;
    assert ParseIdList(pieces, allowLeadingZeroes) == Ok(ids);
    forall i | 0 <= i < |ids|
      ensures ParseId(ids[i].ToString(), allowLeadingZeroes) == Ok(ids[i])
    {
      assert ParseId(pieces[i], allowLeadingZeroes) == Ok(ids[i]);
    }
  }

  /** A component the SemVer constructor accepted is within the 64-bit range. */
  lemma NewSemVerInRange(n: NormalVersion, pre: Option<PreReleaseVersion>, build: Option<BuildMetadata>)
    requires NewSemVer(n, pre, build).Ok?
    ensures InULongRange(n)
  {
  }

  /** A successful build stage: what it returns and the text it consumed. */
  lemma ParseBuildText(input: string, n: NormalVersion, pre: Option<PreReleaseVersion>, start: nat)
    requires 1 <= start <= |input| + 1
    requires start <= |input| ==> input[start - 1] == '+'
    requires ParseBuild(input, n, pre, start).Ok?
    ensures var v := ParseBuild(input, n, pre, start).value;
      v.normalVersion == n && v.preReleaseVersion == pre && InULongRange(n) &&
      input[start - 1..] == BuildMetadataSuffix(v.buildMetadata) &&
      (v.buildMetadata.Some? ==> CanonicalIds(v.buildMetadata.value.ids, true))
  {
    ParseBuildResult(input, n, pre, start);
    if start <= |input| {
      WholeBuildText(input, start, IdsStage(input, start, {}, true).value);
    }
  }

  /** What a successful build stage returns, case by case. */
  lemma ParseBuildResult(input: string, n: NormalVersion, pre: Option<PreReleaseVersion>, start: nat)
    requires 1 <= start
    requires ParseBuild(input, n, pre, start).Ok?
    ensures InULongRange(n)
    ensures start <= |input| && input[start - 1] == '+' ==>
      IdsStage(input, start, {}, true).Ok? &&
      ParseBuild(input, n, pre, start).value == SemVer(n, pre, Some(BuildMetadata(IdsStage(input, start, {}, true).value)))
    ensures !(start <= |input| && input[start - 1] == '+') ==> ParseBuild(input, n, pre, start).value == SemVer(n, pre, None)
  {
    NewSemVerInRange(n, pre, ParseBuild(input, n, pre, start).value.buildMetadata);
  }

  /** Build metadata runs to the end of the input: the text after `+` is the rendering of what was read. */
  lemma WholeBuildText(input: string, start: nat, ids: seq<Id>)
    requires 1 <= start <= |input| && input[start - 1] == '+'
    requires IdsStage(input, start, {}, true) == Ok(ids)
    ensures input[start - 1..] == "+" + IdsToString(ids) && CanonicalIds(ids, true)
  {
    IdsStageCanonical(input, start, {}, true);
    assert Segment(input, start, {}) == input[start..];
    SliceCons(input, start - 1);
  }

  /** After `-`, a successful pre-release stage followed by a successful build stage. */
  lemma ParsePreReleaseText(input: string, n: NormalVersion, start: nat)
    requires 1 <= start <= |input| && input[start - 1] == '-'
    requires ParseSuffixes(input, n, start).Ok?
    ensures var v := ParseSuffixes(input, n, start).value;
      v.normalVersion == n && InULongRange(n) &&
      input[start - 1..] == PreReleaseSuffix(v.preReleaseVersion) + BuildMetadataSuffix(v.buildMetadata) &&
      v.preReleaseVersion.Some? && CanonicalIds(v.preReleaseVersion.value.ids, false) &&
      (v.buildMetadata.Some? ==> CanonicalIds(v.buildMetadata.value.ids, true))
  {
    PreReleaseStageOk(input, n, start);
    var ids := IdsStage(input, start, {'+'}, false).value;
    ParseSuffixesPre(input, n, start, ids);
    var next := NextStart(input, start, {'+'});
    var v := ParseSuffixes(input, n, start).value;
    BuildAfterPreRelease(input, n, ids, next, v);
    IdsStageCanonical(input, start, {'+'}, false);
    PreReleaseSuffixText(input, start, ids, v.buildMetadata);
  }

  /** The build stage after a pre-release, starting at `next` and giving the version `v`. */
  lemma BuildAfterPreRelease(input: string, n: NormalVersion, ids: seq<Id>, next: nat, v: SemVer)
    requires 1 <= next <= |input| + 1 && (next <= |input| ==> input[next - 1] == '+')
    requires ParseBuild(input, n, Some(PreReleaseVersion(ids)), next) == Ok(v)
    ensures v.normalVersion == n && InULongRange(n) && v.preReleaseVersion == Some(PreReleaseVersion(ids))
    ensures input[next - 1..] == BuildMetadataSuffix(v.buildMetadata)
    ensures v.buildMetadata.Some? ==> CanonicalIds(v.buildMetadata.value.ids, true)
  {
    ParseBuildText(input, n, Some(PreReleaseVersion(ids)), next);
  }

  /** The pre-release segment followed by the build text makes up the suffix. */
  lemma PreReleaseSuffixText(input: string, start: nat, ids: seq<Id>, build: Option<BuildMetadata>)
    requires 1 <= start <= |input| && input[start - 1] == '-'
    requires Segment(input, start, {'+'}) == IdsToString(ids)
    requires input[NextStart(input, start, {'+'}) - 1..] == BuildMetadataSuffix(build)
    ensures input[start - 1..] == PreReleaseSuffix(Some(PreReleaseVersion(ids))) + BuildMetadataSuffix(build)
  {
    var next := NextStart(input, start, {'+'});
    DelimitedSegment(input, start, '-', IdsToString(ids), {'+'});
    SuffixesJoin(input, start - 1, next - 1, "-" + IdsToString(ids), BuildMetadataSuffix(build));
  }

  /** A head followed by a rest whose text is known. */
  lemma SuffixesJoin(input: string, i: nat, j: nat, head: string, tail: string)
    requires i <= j <= |input|
    requires input[i..] == head + input[j..]
    requires input[j..] == tail
    ensures input[i..] == head + tail
  {
  }

  /** The suffix stages succeed after a `-` only if the pre-release stage does. */
  lemma PreReleaseStageOk(input: string, n: NormalVersion, start: nat)
    requires 1 <= start <= |input| && input[start - 1] == '-'
    requires ParseSuffixes(input, n, start).Ok?
    ensures IdsStage(input, start, {'+'}, false).Ok?
  {
  }

  /** The delimiter before the cursor, the segment at the cursor, and what follows it make up the rest of the input. */
  lemma DelimitedSegment(input: string, start: nat, delimiter: char, text: string, delimiters: set<char>)
    requires 1 <= start <= |input| && input[start - 1] == delimiter && Segment(input, start, delimiters) == text
    ensures input[start - 1..] == ([delimiter] + text) + input[NextStart(input, start, delimiters) - 1..]
  {
    SegmentSplits(input, start, delimiters);
    SliceCons(input, start - 1);
  }

  /** The suffix stages, when they succeed: the suffix text is the rendering of what they return. */
  lemma ParseSuffixesText(input: string, n: NormalVersion, start: nat)
    requires 1 <= start <= |input| + 1
    requires start <= |input| ==> input[start - 1] in {'-', '+'}
    requires ParseSuffixes(input, n, start).Ok?
    ensures var v := ParseSuffixes(input, n, start).value;
      v.normalVersion == n && InULongRange(n) &&
      input[start - 1..] == PreReleaseSuffix(v.preReleaseVersion) + BuildMetadataSuffix(v.buildMetadata) &&
      (v.preReleaseVersion.Some? ==> CanonicalIds(v.preReleaseVersion.value.ids, false)) &&
      (v.buildMetadata.Some? ==> CanonicalIds(v.buildMetadata.value.ids, true))
  {
    if start <= |input| && input[start - 1] == '-' {
      ParsePreReleaseText(input, n, start);
    } else {
      assert ParseSuffixes(input, n, start) == ParseBuild(input, n, None, start);
      ParseBuildText(input, n, None, start);
    }
  }

  /** When parsing succeeds, the three numeric stages succeeded and the suffix stages produced the result. */
  lemma ParseOkStages(input: string) returns (n: NormalVersion, s1: nat, s2: nat, s3: nat)
    requires Parse(input).Ok?
    ensures |input| > 0 && s1 < |input| && s2 < |input|
    ensures NumericStage(input, 0, {'.'}) == Ok(n.major) && NextStart(input, 0, {'.'}) == s1
    ensures NumericStage(input, s1, {'.'}) == Ok(n.minor) && NextStart(input, s1, {'.'}) == s2
    ensures NumericStage(input, s2, {'-', '+'}) == Ok(n.patch) && NextStart(input, s2, {'-', '+'}) == s3
    ensures Parse(input) == ParseSuffixes(input, n, s3)
  {
    var major := NumericStage(input, 0, {'.'}).value;
    s1 := NextStart(input, 0, {'.'});
    var minor := NumericStage(input, s1, {'.'}).value;
    s2 := NextStart(input, s1, {'.'});
    var patch := NumericStage(input, s2, {'-', '+'}).value;
    s3 := NextStart(input, s2, {'-', '+'});
    n := NormalVersion(major, minor, patch);
  }

  /** Three components separated by dots and then a suffix: the text they were read from. */
  lemma TextChain(input: string, major: string, minor: string, patch: string, suffix: string, s1: nat, s2: nat, s3: nat)
    requires 0 < s1 < |input| && s1 < s2 < |input| && s2 < s3 <= |input| + 1
    requires input[0..] == major + input[s1 - 1..] && input[s1 - 1] in {'.'}
    requires input[s1..] == minor + input[s2 - 1..] && input[s2 - 1] in {'.'}
    requires input[s2..] == patch + input[s3 - 1..] && input[s3 - 1..] == suffix
    ensures input == major + ("." + (minor + ("." + (patch + suffix))))
  {
    SliceCons(input, s1 - 1);
    SliceCons(input, s2 - 1);
    assert input[0..] == input;
  }

  /** The stages of a successful parse, put back together, give the rendering of the result. */
  lemma RenderOfStages(input: string, v: SemVer, s1: nat, s2: nat, s3: nat)
    requires |input| > 0 && s1 < |input| && s2 < |input| && s3 <= |input| + 1
    requires NumericStage(input, 0, {'.'}) == Ok(v.normalVersion.major) && NextStart(input, 0, {'.'}) == s1
    requires NumericStage(input, s1, {'.'}) == Ok(v.normalVersion.minor) && NextStart(input, s1, {'.'}) == s2
    requires NumericStage(input, s2, {'-', '+'}) == Ok(v.normalVersion.patch) && NextStart(input, s2, {'-', '+'}) == s3
    requires input[s3 - 1..] == PreReleaseSuffix(v.preReleaseVersion) + BuildMetadataSuffix(v.buildMetadata)
    ensures ToString(v) == input
  {
    var n := v.normalVersion;
    NumericStageText(input, 0, {'.'}, n.major, s1);
    NumericStageText(input, s1, {'.'}, n.minor, s2);
    NumericStageText(input, s2, {'-', '+'}, n.patch, s3);
    var suffix := PreReleaseSuffix(v.preReleaseVersion) + BuildMetadataSuffix(v.buildMetadata);
    TextChain(input, n.major.digits, n.minor.digits, n.patch.digits, suffix, s1, s2, s3);
    ToStringShape(v);
  }

  /** The stages of a successful parse only return well-formed versions. */
  lemma WellFormedOfStages(input: string, n: NormalVersion, s2: nat, s3: nat)
    requires s2 < |input| && !HasLeadingZero(n.major.digits) && !HasLeadingZero(n.minor.digits)
    requires NumericStage(input, s2, {'-', '+'}) == Ok(n.patch) && NextStart(input, s2, {'-', '+'}) == s3
    requires ParseSuffixes(input, n, s3).Ok?
    ensures WellFormed(ParseSuffixes(input, n, s3).value)
  {
    ParseSuffixesText(input, n, s3);
  }

  /** Whatever parsing returns is well-formed and renders back to the input. */
  lemma ParseRender(input: string)
    requires Parse(input).Ok?
    ensures WellFormed(Parse(input).value)
    ensures ToString(Parse(input).value) == input
  {
    ParseRendersBack(input);
    ParseWellFormed(input);
  }

  lemma ParseRendersBack(input: string)
    requires Parse(input).Ok?
    ensures ToString(Parse(input).value) == input
  {
    var n, s1, s2, s3 := ParseOkStages(input);
    var v := ParseSuffixes(input, n, s3).value;
    ParseSuffixesText(input, n, s3);
    assert v.normalVersion == n;
    RenderOfStages(input, v, s1, s2, s3);
  }

  lemma ParseWellFormed(input: string)
    requires Parse(input).Ok?
    ensures WellFormed(Parse(input).value)
  {
    var n, s1, s2, s3 := ParseOkStages(input);
    WellFormedOfStages(input, n, s2, s3);
  }

  // ---------------------------------------------------------------- the accepted language

  /** The parser accepts exactly the renderings of well-formed versions. */
  lemma AcceptedLanguage(input: string)
    ensures Parse(input).Ok? <==> exists v :: WellFormed(v) && ToString(v) == input
  {
    if Parse(input).Ok? {
      ParseRender(input);
    }
    if exists v :: WellFormed(v) && ToString(v) == input {
      var v :| WellFormed(v) && ToString(v) == input;
      RenderParse(v);
    }
  }

  /** Two well-formed versions with the same text are the same version. */
  lemma RenderInjective(v: SemVer, w: SemVer)
    requires WellFormed(v) && WellFormed(w) && ToString(v) == ToString(w)
    ensures v == w
  {
    RenderParse(v);
    RenderParse(w);
  }

  // ---------------------------------------------------------------- rejected inputs

  /** Inputs that end before the patch version: rejected in the normal version, with no cause. */
  lemma TruncatedNormalVersionRejections()
    ensures Parse("") == Err(InvalidNormalVersion(None))
    ensures Parse("1") == Err(InvalidNormalVersion(None))
    ensures Parse("1.") == Err(InvalidNormalVersion(None))
  {
  }

  /** An input that ends after the minor version, with or without its dot. */
  lemma MissingPatchRejections()
    ensures Parse("1.0") == Err(InvalidNormalVersion(None))
    ensures Parse("1.0.") == Err(InvalidNormalVersion(None))
  {
  }

  /** A minor version that is not a number: rejected in the normal version, the identifier error as cause. */
  lemma NonNumericMinorRejection()
    ensures Parse("1. a") == Err(InvalidNormalVersion(Some(NotNonNegativeInteger)))
  {
    assert Segment("1. a", 2, {'.'}) == " a";
  }

  /** A patch version that is not a number: rejected in the normal version, the identifier error as cause. */
  lemma NonNumericPatchRejection()
    ensures Parse("1.0.&") == Err(InvalidNormalVersion(Some(NotNonNegativeInteger)))
  {
    var input := "1.0.&";
    assert input == "1" + ("." + ("0" + ("." + "&")));
    MajorMinorStagesOn(input, Normal100(), "&", 2, 4);
    WholeSegment(input, 4, "&", {'-', '+'});
    RejectedIdentifierExamples();
    PatchStageRejects(input, NumericId("1"), NumericId("0"), 2, 4, NotNonNegativeInteger);
  }

  /** The major and minor stages succeed and the patch stage fails: a normal-version error with its cause. */
  lemma PatchStageRejects(input: string, major: NumericIdentifier, minor: NumericIdentifier, s1: nat, s2: nat, e: IdError)
    requires |input| > 0
    requires NumericStage(input, 0, {'.'}) == Ok(major) && NextStart(input, 0, {'.'}) == s1 && s1 < |input|
    requires NumericStage(input, s1, {'.'}) == Ok(minor) && NextStart(input, s1, {'.'}) == s2 && s2 < |input|
    requires NumericStage(input, s2, {'-', '+'}) == Err(e)
    ensures Parse(input) == Err(InvalidNormalVersion(Some(e)))
  {
  }

  /** An empty input: a normal-version error with no cause. */
  lemma EmptyInputRejects(input: string)
    requires |input| == 0
    ensures Parse(input) == Err(InvalidNormalVersion(None))
  {
  }

  /** The major stage fails: a normal-version error with the major's identifier error as cause. */
  lemma MajorStageRejects(input: string, e: IdError)
    requires |input| > 0
    requires NumericStage(input, 0, {'.'}) == Err(e)
    ensures Parse(input) == Err(InvalidNormalVersion(Some(e)))
  {
  }

  /** The input ends with the major version or its dot: a normal-version error with no cause. */
  lemma EndAfterMajorRejects(input: string)
    requires |input| > 0
    requires NumericStage(input, 0, {'.'}).Ok? && NextStart(input, 0, {'.'}) >= |input|
    ensures Parse(input) == Err(InvalidNormalVersion(None))
  {
  }

  /** The major stage succeeds and the minor stage fails: a normal-version error with the minor's cause. */
  lemma MinorStageRejects(input: string, s1: nat, e: IdError)
    requires |input| > 0
    requires NumericStage(input, 0, {'.'}).Ok? && NextStart(input, 0, {'.'}) == s1 && s1 < |input|
    requires NumericStage(input, s1, {'.'}) == Err(e)
    ensures Parse(input) == Err(InvalidNormalVersion(Some(e)))
  {
  }

  /** The input ends with the minor version or its dot: a normal-version error with no cause. */
  lemma EndAfterMinorRejects(input: string, s1: nat)
    requires |input| > 0
    requires NumericStage(input, 0, {'.'}).Ok? && NextStart(input, 0, {'.'}) == s1 && s1 < |input|
    requires NumericStage(input, s1, {'.'}).Ok? && NextStart(input, s1, {'.'}) >= |input|
    ensures Parse(input) == Err(InvalidNormalVersion(None))
  {
  }

  /** The normal version 1.0.0. */
  function Normal100(): NormalVersion
  {
    NormalVersion(NumericId("1"), NumericId("0"), NumericId("0"))
  }

  /** After a valid `1.0.0`, parsing goes on with the suffix stages at the delimiter. */
  lemma Normal100Prefix(input: string, suffix: string)
    requires input == "1.0.0" + suffix
    requires suffix == [] || suffix[0] in {'-', '+'}
    ensures Parse(input) == ParseSuffixes(input, Normal100(), 6)
  {
    assert input == "1" + ("." + ("0" + ("." + ("0" + suffix))));
    NormalStagesOn(input, Normal100(), suffix, 2, 4, 6);
    ParseNormalSteps(input, Normal100(), 2, 4, 6);
  }

  /** The text `1.0.0`, a delimiter, then the rest. */
  lemma Normal100Text(input: string, delimiter: char, rest: string)
    requires input == "1.0.0" + [delimiter] + rest
    ensures input == "1.0.0" + ([delimiter] + rest)
    ensures |input| >= 6 && input[5] == delimiter && input[6..] == rest
  {
  }

  /** A pre-release whose pieces fail to parse makes the whole parse fail with that cause. */
  lemma PreReleaseRejected(input: string, n: NormalVersion, start: nat, segment: string, e: IdError)
    requires 1 <= start <= |input| && input[start - 1] == '-'
    requires Segment(input, start, {'+'}) == segment
    requires ParseIdList(Split(segment, '.'), false) == Err(e)
    ensures ParseSuffixes(input, n, start) == Err(InvalidPreReleaseVersion(e))
  {
    assert IdsStage(input, start, {'+'}, false) == Err(e);
  }

  /** Build metadata whose pieces fail to parse makes the whole parse fail with that cause. */
  lemma BuildMetadataRejected(input: string, n: NormalVersion, start: nat, segment: string, e: IdError)
    requires 1 <= start <= |input| && input[start - 1] == '+'
    requires Segment(input, start, {}) == segment
    requires ParseIdList(Split(segment, '.'), true) == Err(e)
    ensures ParseSuffixes(input, n, start) == Err(InvalidBuildMetadata(e))
  {
    ParseSuffixesNoPre(input, n, start);
    assert IdsStage(input, start, {}, true) == Err(e);
  }

  /** A single identifier that fails to parse fails the list. */
  lemma SingleIdRejected(text: string, allowLeadingZeroes: bool, e: IdError)
    requires ParseId(text, allowLeadingZeroes) == Err(e)
    ensures ParseIdList([text], allowLeadingZeroes) == Err(e)
  {
    FirstFailureDecides([text], 0, allowLeadingZeroes);
  }

  /** A text that runs to the end of the input, free of delimiters and dots, is one whole piece. */
  lemma WholeSegment(input: string, start: nat, text: string, delimiters: set<char>)
    requires start <= |input| && input[start..] == text
    requires forall i :: 0 <= i < |text| ==> text[i] !in delimiters && text[i] != '.'
    ensures Segment(input, start, delimiters) == text && Split(text, '.') == [text]
  {
    assert text + [] == text;
    TakeUntilPrefix(text, [], delimiters);
    TakeUntilPrefix(text, [], {'.'});
  }

  /** `1.0.0-` followed by one identifier that fails to parse is rejected in the pre-release stage. */
  lemma Normal100PreReleaseRejected(text: string, e: IdError)
    requires forall i :: 0 <= i < |text| ==> text[i] != '+' && text[i] != '.'
    requires ParseId(text, false) == Err(e)
    ensures Parse("1.0.0-" + text) == Err(InvalidPreReleaseVersion(e))
  {
    var input := "1.0.0-" + text;
    Normal100Text(input, '-', text);
    PreReleaseTextRejected(input, Normal100(), 6, text, e);
    Normal100Prefix(input, "-" + text);
  }

  /** A pre-release made of one failing identifier that runs to the end of the input. */
  lemma PreReleaseTextRejected(input: string, n: NormalVersion, start: nat, text: string, e: IdError)
    requires 1 <= start <= |input| && input[start - 1] == '-' && input[start..] == text
    requires forall i :: 0 <= i < |text| ==> text[i] != '+' && text[i] != '.'
    requires ParseId(text, false) == Err(e)
    ensures ParseSuffixes(input, n, start) == Err(InvalidPreReleaseVersion(e))
  {
    WholeSegment(input, start, text, {'+'});
    SingleIdRejected(text, false, e);
    PreReleaseRejected(input, n, start, text, e);
  }

  /** `1.0.0+` followed by one identifier that fails to parse is rejected in the build-metadata stage. */
  lemma Normal100BuildMetadataRejected(text: string, e: IdError)
    requires forall i :: 0 <= i < |text| ==> text[i] != '.'
    requires ParseId(text, true) == Err(e)
    ensures Parse("1.0.0+" + text) == Err(InvalidBuildMetadata(e))
  {
    var input := "1.0.0+" + text;
    Normal100Text(input, '+', text);
    BuildMetadataTextRejected(input, Normal100(), 6, text, e);
    Normal100Prefix(input, "+" + text);
  }

  /** Build metadata made of one failing identifier that runs to the end of the input. */
  lemma BuildMetadataTextRejected(input: string, n: NormalVersion, start: nat, text: string, e: IdError)
    requires 1 <= start <= |input| && input[start - 1] == '+' && input[start..] == text
    requires forall i :: 0 <= i < |text| ==> text[i] != '.'
    requires ParseId(text, true) == Err(e)
    ensures ParseSuffixes(input, n, start) == Err(InvalidBuildMetadata(e))
  {
    WholeSegment(input, start, text, {});
    SingleIdRejected(text, true, e);
    BuildMetadataRejected(input, n, start, text, e);
  }

  /** A pre-release identifier with a leading zero: rejected in the pre-release, cause LeadingZeroes. */
  lemma LeadingZeroPreReleaseRejection()
    ensures Parse("1.0.0-01") == Err(InvalidPreReleaseVersion(LeadingZeroes))
  {
    IdentifierExamples();
    SuffixTexts();
    Normal100PreReleaseRejected("01", LeadingZeroes);
  }

  /** Nothing after `-`: the one empty piece is rejected, cause EmptyIdentifier. */
  lemma EmptyPreReleaseRejection()
    ensures Parse("1.0.0-") == Err(InvalidPreReleaseVersion(EmptyIdentifier))
  {
    RejectedIdentifierExamples();
    SuffixTexts();
    Normal100PreReleaseRejected("", EmptyIdentifier);
  }

  /** The inputs with a leading zero or nothing after the delimiter, taken apart. */
  lemma SuffixTexts()
    ensures "1.0.0-" + "01" == "1.0.0-01" && "1.0.0-" + "" == "1.0.0-" && "1.0.0+" + "" == "1.0.0+"
    ensures forall i :: 0 <= i < |"01"| ==> "01"[i] != '+' && "01"[i] != '.'
  {
  }

  /** The inputs with a bad character, taken apart. */
  lemma BadCharacterText()
    ensures "1.0.0-" + "a&^" == "1.0.0-a&^" && "1.0.0+" + "a&^" == "1.0.0+a&^"
    ensures forall i :: 0 <= i < |"a&^"| ==> "a&^"[i] != '+' && "a&^"[i] != '.'
  {
  }

  /** A pre-release character outside `[0-9A-Za-z-]`: cause NotAlphanumeric. */
  lemma BadCharacterPreReleaseRejection()
    ensures Parse("1.0.0-a&^") == Err(InvalidPreReleaseVersion(NotAlphanumeric))
  {
    RejectedIdentifierExamples();
    BadCharacterText();
    Normal100PreReleaseRejected("a&^", NotAlphanumeric);
  }

  /** Nothing after `+`: cause EmptyIdentifier, in the build metadata. */
  lemma EmptyBuildMetadataRejection()
    ensures Parse("1.0.0+") == Err(InvalidBuildMetadata(EmptyIdentifier))
  {
    RejectedIdentifierExamples();
    SuffixTexts();
    Normal100BuildMetadataRejected("", EmptyIdentifier);
  }

  /** A build-metadata character outside `[0-9A-Za-z-]`: cause NotAlphanumeric. */
  lemma BadCharacterBuildMetadataRejection()
    ensures Parse("1.0.0+a&^") == Err(InvalidBuildMetadata(NotAlphanumeric))
  {
    RejectedIdentifierExamples();
    BadCharacterText();
    Normal100BuildMetadataRejected("a&^", NotAlphanumeric);
  }

  /** The normal version 1.0.0 is well formed. */
  lemma Normal100WellFormed()
    ensures !HasLeadingZero(Normal100().major.digits) && !HasLeadingZero(Normal100().minor.digits)
    ensures !HasLeadingZero(Normal100().patch.digits) && InULongRange(Normal100())
    ensures NormalVersionToString(Normal100()) == "1.0.0"
  {
    assert DigitsValue("1") == 1 && DigitsValue("0") == 0;
  }

  /** The version 1.0.0-alpha+001 of the source's parser tests. */
  function AlphaBuild001(): SemVer
  {
    SemVer(Normal100(), Some(PreReleaseVersion([AlphanumericId("alpha")])), Some(BuildMetadata([NumericId("001")])))
  }

  lemma AlphaBuild001WellFormed()
    ensures WellFormed(AlphaBuild001())
  {
    Normal100WellFormed();
    IdentifierExamples();
    assert !IsDigit("alpha"[0]);
    assert ParseId("alpha", false) == Ok(AlphanumericId("alpha"));
  }

  lemma AlphaBuild001Text()
    ensures ToString(AlphaBuild001()) == "1.0.0-alpha+001"
  {
    Normal100WellFormed();
    assert Texts([AlphanumericId("alpha")]) == ["alpha"];
    assert Texts([NumericId("001")]) == ["001"];
    assert "1.0.0" + ("-" + "alpha") + ("+" + "001") == "1.0.0-alpha+001";
  }

  /** `1.0.0-alpha+001`: pre-release `alpha`, alphanumeric; build metadata `001`, numeric despite its leading zeroes. */
  lemma AlphaBuild001Parses()
    ensures Parse("1.0.0-alpha+001") == Ok(AlphaBuild001())
  {
    AlphaBuild001WellFormed();
    AlphaBuild001Text();
    RenderParse(AlphaBuild001());
  }

  /** The version 1.0.0-x-y-z.- of the source's parser tests. */
  function HyphenPreRelease(): SemVer
  {
    SemVer(Normal100(), Some(PreReleaseVersion([AlphanumericId("x-y-z"), AlphanumericId("-")])), None)
  }

  lemma HyphenPreReleaseWellFormed()
    ensures WellFormed(HyphenPreRelease())
  {
    Normal100WellFormed();
    assert !IsDigit("x-y-z"[0]) && !IsDigit("-"[0]);
    assert ParseId("x-y-z", false) == Ok(AlphanumericId("x-y-z"));
    assert ParseId("-", false) == Ok(AlphanumericId("-"));
  }

  lemma HyphenPreReleaseText()
    ensures ToString(HyphenPreRelease()) == "1.0.0-x-y-z.-"
  {
    Normal100WellFormed();
    var ids := [AlphanumericId("x-y-z"), AlphanumericId("-")];
    assert Texts(ids) == ["x-y-z", "-"];
    assert IdsToString(ids) == "x-y-z" + "." + "-";
    assert "1.0.0" + ("-" + ("x-y-z" + "." + "-")) + "" == "1.0.0-x-y-z.-";
  }

  /** `1.0.0-x-y-z.-`: hyphens inside and as a whole identifier are alphanumeric. */
  lemma HyphenPreReleaseParses()
    ensures Parse("1.0.0-x-y-z.-") == Ok(HyphenPreRelease())
  {
    HyphenPreReleaseWellFormed();
    HyphenPreReleaseText();
    RenderParse(HyphenPreRelease());
  }
}
