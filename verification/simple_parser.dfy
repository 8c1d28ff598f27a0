/**
 * The hand-written parser (SimpleSemVerParser.kt): a cursor `start` walks the input,
 * each identifier runs up to the next character of the current `delimiters` set, and
 * the cursor then skips the identifier and the delimiter after it.
 *
 * `Parse` is the specification, stage by stage; the class `SimpleSemVerParser` is the
 * stateful parser, proved to compute `Parse` and to leave its fields as it found them.
 */
module SimpleParser {
  import opened Wrappers
  import opened Strings
  import opened Identifiers
  import opened Versions

  /** Why a parse failed: the stage whose message the source throws, with the identifier error behind it. */
  datatype ParseError =
    | InvalidNormalVersion(cause: Option<IdError>)  // "cannot parse normal version", with or without a cause
    | InvalidPreReleaseVersion(reason: IdError)     // "cannot parse pre release version"
    | InvalidBuildMetadata(reason: IdError)         // "cannot parse build metadata"
    | Escaped(error: Error)                         // thrown by the SemVer constructor, not wrapped

  /** The text of the next identifier: the input from the cursor up to the first delimiter. */
  function Segment(input: string, start: nat, delimiters: set<char>): (r: string)
    requires start <= |input|
    ensures start + |r| <= |input| && input[start..start + |r|] == r
    ensures forall i :: 0 <= i < |r| ==> r[i] !in delimiters
    ensures start + |r| < |input| ==> input[start + |r|] in delimiters
  {
    TakeUntil(input[start..], delimiters)
  }

  /** Where the cursor goes after the identifier at `start`: past it and the delimiter behind it. */
  function NextStart(input: string, start: nat, delimiters: set<char>): (r: nat)
    requires start <= |input|
    ensures start < r <= |input| + 1
    ensures r <= |input| ==> input[r - 1] in delimiters
  {
    start + |Segment(input, start, delimiters)| + 1
  }

  /** `parseNumericId`: the identifier at `start` must be a NumericId without leading zeroes. */
  function NumericStage(input: string, start: nat, delimiters: set<char>): (r: Result<NumericIdentifier, IdError>)
    requires start <= |input|
    ensures var seg := Segment(input, start, delimiters);
            r.Ok? <==> |seg| > 0 && IsDigits(seg) && !HasLeadingZero(seg)
    ensures r.Ok? ==> r.value.digits == Segment(input, start, delimiters) && !HasLeadingZero(r.value.digits)
    ensures Segment(input, start, delimiters) == "" ==> r == Err(EmptyIdentifier)
    ensures var seg := Segment(input, start, delimiters);
            seg != "" && !IsDigits(seg) ==> r == Err(NotNonNegativeInteger)
    ensures var seg := Segment(input, start, delimiters);
            IsDigits(seg) && HasLeadingZero(seg) ==> r == Err(LeadingZeroes)
  {
    match NewNumericId(Segment(input, start, delimiters), false)
    case Err(e) => Err(e)
    case Ok(id) => Ok(id)
  }

  /** The pieces `parseIds` classifies: the text at `start` split on dots, empty pieces kept. */
  function Pieces(input: string, start: nat, delimiters: set<char>): (r: seq<string>)
    requires start <= |input|
    ensures |r| >= 1 && Join(r, '.') == Segment(input, start, delimiters)
    ensures forall i :: 0 <= i < |r| ==> '.' !in r[i]
  {
    Split(Segment(input, start, delimiters), '.')
  }

  /** `parseIds`: the text up to the next delimiter, split on dots, each piece classified by `Id.parse`. */
  function IdsStage(input: string, start: nat, delimiters: set<char>, allowLeadingZeroes: bool): (r: Result<seq<Id>, IdError>)
    requires start <= |input|
    ensures r.Ok? ==> |r.value| >= 1 && IdsToString(r.value) == Segment(input, start, delimiters)
    ensures r.Ok? <==> forall i :: 0 <= i < |Pieces(input, start, delimiters)| ==>
                         ParseId(Pieces(input, start, delimiters)[i], allowLeadingZeroes).Ok?
    ensures r.Err? ==> exists i :: 0 <= i < |Pieces(input, start, delimiters)| &&
                         ParseId(Pieces(input, start, delimiters)[i], allowLeadingZeroes) == Err(r.error)
  {
    var pieces := Pieces(input, start, delimiters);
    match ParseIdList(pieces, allowLeadingZeroes)
    case Err(e) => Err(e)
    case Ok(ids) => TextsOfParsed(pieces, allowLeadingZeroes, ids); Ok(ids)
  }

  /**
   * The normal-version part of `parseStrInternal`: major and minor up to a `.`, patch
   * up to `-` or `+`; the input must not end right after major or minor. On success,
   * the version and the cursor after the patch version and its delimiter.
   */
  function NormalStages(input: string): (r: Result<(NormalVersion, nat), ParseError>)
    ensures r.Ok? ==> r.value.1 >= 1
    ensures r.Err? ==> r.error.InvalidNormalVersion?
  {
    if |input| == 0 then Err(InvalidNormalVersion(None))
    else
      match NumericStage(input, 0, {'.'})
      case Err(e) => Err(InvalidNormalVersion(Some(e)))
      case Ok(major) =>
        var s1 := NextStart(input, 0, {'.'});
        if s1 >= |input| then Err(InvalidNormalVersion(None))
        else
          match NumericStage(input, s1, {'.'})
          case Err(e) => Err(InvalidNormalVersion(Some(e)))
          case Ok(minor) =>
            var s2 := NextStart(input, s1, {'.'});
            if s2 >= |input| then Err(InvalidNormalVersion(None))
            else
              match NumericStage(input, s2, {'-', '+'})
              case Err(e) => Err(InvalidNormalVersion(Some(e)))
              case Ok(patch) => Ok((NormalVersion(major, minor, patch), NextStart(input, s2, {'-', '+'})))
  }

  /** `parseStrInternal`, as a function of the input. */
  function Parse(input: string): (r: Result<SemVer, ParseError>)
  {
    match NormalStages(input)
    case Err(e) => Err(e)
    case Ok((n, start)) => ParseSuffixes(input, n, start)
  }

  /** After the patch version: a pre-release when the delimiter passed was `-`. */
  function ParseSuffixes(input: string, n: NormalVersion, start: nat): (r: Result<SemVer, ParseError>)
    requires 1 <= start
  {
    if start <= |input| && input[start - 1] == '-' then
      match IdsStage(input, start, {'+'}, false)
      case Err(e) => Err(InvalidPreReleaseVersion(e))
      case Ok(ids) => ParseBuild(input, n, Some(PreReleaseVersion(ids)), NextStart(input, start, {'+'}))
    else ParseBuild(input, n, None, start)
  }

  /** Then build metadata when the delimiter passed was `+`; finally the SemVer constructor. */
  function ParseBuild(input: string, n: NormalVersion, pre: Option<PreReleaseVersion>, start: nat): (r: Result<SemVer, ParseError>)
    requires 1 <= start
  {
    var build :=
      if start <= |input| && input[start - 1] == '+' then
        match IdsStage(input, start, {}, true)
        case Err(e) => Err(e)
        case Ok(ids) => Ok(Some(BuildMetadata(ids)))
      else Ok(None);
    match build
    case Err(e) => Err(InvalidBuildMetadata(e))
    case Ok(b) => Construct(n, pre, b)
  }

  /** The SemVer constructor at the end of `parseStrInternal`; its exception passes through unwrapped. */
  function Construct(n: NormalVersion, pre: Option<PreReleaseVersion>, build: Option<BuildMetadata>): (r: Result<SemVer, ParseError>)
    ensures r.Ok? <==> NewSemVer(n, pre, build).Ok?
    ensures r.Ok? ==> r.value == SemVer(n, pre, build)
    ensures r.Err? ==> r.error == Escaped(NewSemVer(n, pre, build).error)
  {
    match NewSemVer(n, pre, build)
    case Err(e) => Err(Escaped(e))
    case Ok(v) => Ok(v)
  }

  /** Once the normal version is read, the suffix stages decide the outcome. */
  lemma ParseAfterNormal(input: string, n: NormalVersion, start: nat)
    requires NormalStages(input) == Ok((n, start))
    ensures 1 <= start && Parse(input) == ParseSuffixes(input, n, start)
  {
  }

  /** Build metadata that fails to parse fails the build stage. */
  lemma ParseBuildRejects(input: string, n: NormalVersion, pre: Option<PreReleaseVersion>, start: nat, e: IdError)
    requires 1 <= start <= |input| && input[start - 1] == '+'
    requires IdsStage(input, start, {}, true) == Err(e)
    ensures ParseBuild(input, n, pre, start) == Err(InvalidBuildMetadata(e))
  {
  }

  /** Once the build metadata is read, the SemVer constructor decides the outcome. */
  lemma ParseBuildWith(input: string, n: NormalVersion, pre: Option<PreReleaseVersion>, start: nat, ids: seq<Id>)
    requires 1 <= start <= |input| && input[start - 1] == '+'
    requires IdsStage(input, start, {}, true) == Ok(ids)
    ensures ParseBuild(input, n, pre, start) == Construct(n, pre, Some(BuildMetadata(ids)))
  {
  }

  /** Without a `+`, the SemVer constructor decides the outcome. */
  lemma ParseBuildWithout(input: string, n: NormalVersion, pre: Option<PreReleaseVersion>, start: nat)
    requires 1 <= start && !(start <= |input| && input[start - 1] == '+')
    ensures ParseBuild(input, n, pre, start) == Construct(n, pre, None)
  {
  }

  /** After a `-`, a pre-release read at the cursor is followed by the build stage. */
  lemma ParseSuffixesPre(input: string, n: NormalVersion, start: nat, ids: seq<Id>)
    requires 1 <= start <= |input| && input[start - 1] == '-'
    requires IdsStage(input, start, {'+'}, false) == Ok(ids)
    ensures ParseSuffixes(input, n, start) == ParseBuild(input, n, Some(PreReleaseVersion(ids)), NextStart(input, start, {'+'}))
  {
  }

  /** Without a `-`, the suffix stages go straight to the build stage. */
  lemma ParseSuffixesNoPre(input: string, n: NormalVersion, start: nat)
    requires 1 <= start && !(start <= |input| && input[start - 1] == '-')
    ensures ParseSuffixes(input, n, start) == ParseBuild(input, n, None, start)
  {
  }

  /** The cursor's advance over a list of pieces: each piece and the character after it. */
  function Advance(pieces: seq<string>): (r: nat)
    ensures |pieces| > 0 ==> r > 0
  {
    if |pieces| == 0 then 0
    else Advance(pieces[..|pieces| - 1]) + |pieces[|pieces| - 1]| + 1
  }

  /** The identifier stage is the classification of the pieces, nothing more. */
  lemma IdsStageIsList(input: string, start: nat, delimiters: set<char>, allowLeadingZeroes: bool)
    requires start <= |input|
    ensures IdsStage(input, start, delimiters, allowLeadingZeroes) == ParseIdList(Pieces(input, start, delimiters), allowLeadingZeroes)
  {
  }

  /** One more piece advances the cursor over it and its delimiter. */
  lemma AdvanceSnoc(pieces: seq<string>, i: nat)
    requires i < |pieces|
    ensures Advance(pieces[..i + 1]) == Advance(pieces[..i]) + |pieces[i]| + 1
  {
    assert pieces[..i + 1][..i] == pieces[..i];
  }

  /** Walking the pieces of a split advances the cursor past the whole text and one delimiter. */
  lemma {:induction false} AdvanceJoin(pieces: seq<string>, sep: char)
    requires |pieces| >= 1
    ensures Advance(pieces) == |Join(pieces, sep)| + 1
    decreases |pieces|
  {
    if |pieces| > 1 {
      var n := |pieces| - 1;
      AdvanceJoin(pieces[..n], sep);
      JoinSnoc(pieces[..n], pieces[n], sep);
      assert pieces[..n] + [pieces[n]] == pieces;
    } else {
      assert pieces[..0] == [];
    }
  }

  /** The stateful parser: a cursor and the delimiters of the current stage. */
  class SimpleSemVerParser {
    var start: int
    var delimiters: set<char>

    /** Between two calls the fields hold their initial values. */
    ghost predicate Valid()
      reads this
    {
      start == 0 && delimiters == {'.'}
    }

    constructor ()
      ensures Valid()
    {
      start := 0;
      delimiters := {'.'};
    }

    /** `parseStr`: parses, and in every outcome restores the fields (the `finally` block). */
    method ParseStr(input: string) returns (r: Result<SemVer, ParseError>)
      requires Valid()
      modifies this
      ensures Valid()
      ensures r == Parse(input)
    {
      r := ParseStrInternal(input);
      start := 0;
      delimiters := {'.'};
    }

    /** `parseStrInternal`: the stages in order, the cursor and delimiters updated between them. */
    method ParseStrInternal(input: string) returns (r: Result<SemVer, ParseError>)
      requires Valid()
      modifies this
      ensures r == Parse(input)
    {
      var normal := ParseNormalVersion(input);
      if normal.Err? {
        return Err(normal.error);
      }
      var n := normal.value;
      ghost var s3 := start;
      ParseAfterNormal(input, n, s3);
      var preReleaseVersion: Option<PreReleaseVersion> := None;
      if start <= |input| && input[start - 1] == '-' {
        delimiters := {'+'};
        var ids := ParseIds(input, false);
        if ids.Err? {
          return Err(InvalidPreReleaseVersion(ids.error));
        }
        ParseSuffixesPre(input, n, s3, ids.value);
        preReleaseVersion := Some(PreReleaseVersion(ids.value));
      } else {
        ParseSuffixesNoPre(input, n, s3);
      }
      ghost var s4 := start;
      var buildMetadata: Option<BuildMetadata> := None;
      if start <= |input| && input[start - 1] == '+' {
        delimiters := {};
        var ids := ParseIds(input, true);
        if ids.Err? {
          ParseBuildRejects(input, n, preReleaseVersion, s4, ids.error);
          return Err(InvalidBuildMetadata(ids.error));
        }
        ParseBuildWith(input, n, preReleaseVersion, s4, ids.value);
        buildMetadata := Some(BuildMetadata(ids.value));
      } else {
        ParseBuildWithout(input, n, preReleaseVersion, s4);
      }
      r := Construct(n, preReleaseVersion, buildMetadata);
    }

    /**
     * The first part of `parseStrInternal`: major, minor and patch, each read by
     * `parseNumericId`, with the end-of-input checks between them.
     */
    method ParseNormalVersion(input: string) returns (r: Result<NormalVersion, ParseError>)
      requires Valid()
      modifies this
      ensures NormalStages(input).Ok? <==> r.Ok?
      ensures r.Ok? ==> (r.value, start) == NormalStages(input).value && delimiters == {'-', '+'}
      ensures r.Err? ==> r.error == NormalStages(input).error
    {
      if |input| == 0 {
        return Err(InvalidNormalVersion(None));
      }
      var major := ParseNumericId(input);
      if major.Err? {
        return Err(InvalidNormalVersion(Some(major.error)));
      }
      if start >= |input| {
        return Err(InvalidNormalVersion(None));
      }
      var minor := ParseNumericId(input);
      if minor.Err? {
        return Err(InvalidNormalVersion(Some(minor.error)));
      }
      if start >= |input| {
        return Err(InvalidNormalVersion(None));
      }
      delimiters := {'-', '+'};
      var patch := ParseNumericId(input);
      if patch.Err? {
        return Err(InvalidNormalVersion(Some(patch.error)));
      }
      return Ok(NormalVersion(major.value, minor.value, patch.value));
    }

    /** `parseNumericId`: reads the identifier at the cursor and moves the cursor past it. */
    method ParseNumericId(input: string) returns (r: Result<NumericIdentifier, IdError>)
      requires 0 <= start <= |input|
      modifies this`start
      ensures r == NumericStage(input, old(start), delimiters)
      ensures r.Ok? ==> start == NextStart(input, old(start), delimiters)
      ensures r.Err? ==> start == old(start)
    {
      var id := Segment(input, start, delimiters);
      var parsed := NewNumericId(id, false);
      if parsed.Err? {
        return Err(parsed.error);
      }
      r := Ok(parsed.value);
      start := start + |id| + 1;
    }

    /** `parseIds`: splits the text at the cursor on dots and classifies the pieces one by one. */
    method ParseIds(input: string, allowLeadingZeroes: bool) returns (r: Result<seq<Id>, IdError>)
      requires 0 <= start <= |input|
      modifies this`start
      ensures r == IdsStage(input, old(start), delimiters, allowLeadingZeroes)
      ensures r.Ok? ==> start == NextStart(input, old(start), delimiters)
      // After a failure the cursor is left unspecified: the caller returns the error at
      // once, and `ParseStr` resets the cursor before the next parse.
    {
      var pieces := Pieces(input, start, delimiters);
      ghost var s0 := start;
      IdsStageIsList(input, start, delimiters, allowLeadingZeroes);
      var ids: seq<Id> := [];
      var i := 0;
      while i < |pieces|
        invariant 0 <= i <= |pieces|
        invariant ParseIdList(pieces[..i], allowLeadingZeroes) == Ok(ids)
        invariant start == s0 + Advance(pieces[..i])
      {
        var id := ParseId(pieces[i], allowLeadingZeroes);
        ParseIdListSnoc(pieces, i, allowLeadingZeroes);
        if id.Err? {
          FirstFailureDecides(pieces, i, allowLeadingZeroes);
          return Err(id.error);
        }
        AdvanceSnoc(pieces, i);
        start := start + |pieces[i]| + 1;
        ids := ids + [id.value];
        i := i + 1;
      }
      assert pieces[..i] == pieces;
      AdvanceJoin(pieces, '.');
      r := Ok(ids);
    }
  }

  /** `SemVer.parse`, with a fresh parser. */
  method ParseVersion(input: string) returns (r: Result<SemVer, ParseError>)
    ensures r == Parse(input)
  {
    var parser := new SimpleSemVerParser();
    r := parser.ParseStr(input);
  }

  /** `SemVer.isValid`: whether parsing succeeds. */
  method IsValid(input: string) returns (b: bool)
    ensures b <==> Parse(input).Ok?
  {
    var r := ParseVersion(input);
    b := r.Ok?;
  }

  /** One parser used for two inputs: the first parse, failed or not, leaves nothing behind. */
  method ParseTwice(first: string, second: string) returns (r1: Result<SemVer, ParseError>, r2: Result<SemVer, ParseError>)
    ensures r1 == Parse(first) && r2 == Parse(second)
  {
    var parser := new SimpleSemVerParser();
    r1 := parser.ParseStr(first);
    r2 := parser.ParseStr(second);
  }
}
