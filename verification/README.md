# jsemver core in Dafny

A model of the value layer and the hand-written parser of jsemver, a Kotlin
implementation of Semantic Versioning 2.0.0.

- `wrappers.dfy` (`Wrappers`): `Option` and `Result`. An exception becomes an `Err`.
- `strings.dfy` (`Strings`): stand-ins for the Kotlin string helpers the parser uses.
  - `TakeUntil` stands for `takeWhile`.
  - `Split` is a one-character `Regex.split`. It keeps empty pieces.
  - `Join` stands for `joinToString`.
  - Proved: `Split` and `Join` are inverse.
- `identifiers.dfy` (`Identifiers`): identifiers.
  - `Id` is `NumericId` or `AlphanumericId`.
  - The constructor checks (empty, character set, leading zeroes) and Kotlin's `toULong`.
  - `Id.parse`, which classifies a text as numeric when `toULong` accepts it.
  - Identifier comparison and equality. Comparison is proved to be a total preorder that agrees with equality.
- `versions.dfy` (`Versions`): `NormalVersion`, `PreReleaseVersion`, `BuildMetadata` and `SemVer`.
  - Their constructors, including the `toULong` calls of `SemVer`.
  - `toString`, `hasPreReleaseVersion` and `hasBuildMetadata`.
  - The three `compareTo`s and the `equals` built on them.
  - Proved about precedence: antisymmetric, reflexive, transitive, build metadata ignored, a pre-release below its release, identifiers compared lexicographically.
- `extensions.dfy` (`Extensions`): the `with*` builders of `SemVerExtensions.kt`.
  - The `with{Major,Minor,Patch,Normal}Version` members of `SemVer.kt` coincide with these extensions. Its nullable members `withPreReleaseVersion` and `withBuildMetadata` correspond to a single `PreReleaseArg` / `BuildMetadataArg` argument, or to no argument for `null`.
  - The `vararg ids: Any` builders take a sequence of `Arg`, which is a pre-release value, a build-metadata value or a text. The first argument decides, as in the source.
- `simple_parser.dfy` (`SimpleParser`): `SimpleSemVerParser`.
  - A `class` whose fields `start` and `delimiters` are updated by the methods `ParseStr`, `ParseStrInternal`, `ParseNumericId` and `ParseIds`, each with its loop or its cursor moves.
  - Each method is proved equal to the stage-by-stage specification function `Parse`.
  - `ParseStr` is proved to restore the fields, as the source's `finally` block does.
- `parser_properties.dfy` (`ParserProperties`): what `Parse` accepts.
  - Rendering a well-formed version and parsing it gives the version back (`RenderParse`).
  - Every accepted input is the rendering of what it parses to (`ParseRender`).
  - So the accepted language is exactly the set of renderings of well-formed versions.
  - The parser test cases from the repository, as lemmas.

`SemVer.parse` and `SemVer.isValid` call the ANTLR parser in the source. The ANTLR
grammar is not part of this model. `ParseVersion` and `IsValid` model them with the
hand-written parser, which the library also ships.

## Model

| member | source | states |
|---|---|---|
| Strings.Split | src/main/kotlin/com/asarkar/semver/SimpleSemVerParser.kt:45 | at least one piece, none containing the separator, and the pieces joined by the separator give the text back (empty pieces kept) |
| Strings.TakeUntil | src/main/kotlin/com/asarkar/semver/SimpleSemVerParser.kt:57 | the longest delimiter-free prefix: a prefix of the text with no delimiter in it, followed by a delimiter or the end |
| Strings.Join | src/main/kotlin/com/asarkar/semver/SemVer.kt:153 | no contract of its own (it is `joinToString`); `Split` and `SplitJoin` prove it is the inverse of splitting in both directions |
| Strings.SplitJoin | src/main/kotlin/com/asarkar/semver/SimpleSemVerParser.kt:45 | joining pieces that do not contain the separator and splitting the result gives the pieces back |
| Identifiers.DigitsValueLeadingZero | src/main/kotlin/com/asarkar/semver/SemVer.kt:91 | a leading `0` does not change the numeric value of a digit string |
| Identifiers.DigitsValue | src/main/kotlin/com/asarkar/semver/SemVer.kt:84 | no contract of its own (the decimal value of the digits); `ToULong` returns it within the 64-bit range and `DigitsValueLeadingZero` shows leading zeroes leave it unchanged |
| Identifiers.ToULong | src/main/kotlin/com/asarkar/semver/SemVer.kt:84 | on a digit string, and on `+` followed by a digit string, succeeds exactly when the digits' value fits in 64 bits, and then returns that value; any success is at most 2^64-1 and comes from digits with an optional `+` |
| Identifiers.NewNumericId | src/main/kotlin/com/asarkar/semver/SemVer.kt:70-82 | accepts exactly the non-empty digit strings, without a leading zero unless allowed; the error is EmptyIdentifier for "", NotNonNegativeInteger for a text that is not all digits, and LeadingZeroes for digits with a leading zero; the identifier renders as its text |
| Identifiers.NewAlphanumericId | src/main/kotlin/com/asarkar/semver/SemVer.kt:33-39 | accepts exactly the non-empty texts over `[0-9A-Za-z-]`; the error is EmptyIdentifier for "" and NotAlphanumeric for a text with another character; the result is alphanumeric and renders as its text |
| Identifiers.ParseId | src/main/kotlin/com/asarkar/semver/SemVer.kt:13-20 | accepts exactly the non-empty identifier texts, except in-range digit strings with a leading zero when leading zeroes are not allowed; the result is numeric exactly when the text is digits within 64 bits, and renders as the input; the error is EmptyIdentifier for "", LeadingZeroes for a disallowed leading zero, NotNonNegativeInteger for `+` and in-range digits, and NotAlphanumeric for any other rejected text |
| Identifiers.OverRangeDigitsAreAlphanumeric | src/main/kotlin/com/asarkar/semver/SemVer.kt:13-20 | a digit string beyond 2^64-1 is accepted as an alphanumeric identifier, whatever the leading-zero policy |
| Identifiers.ParseIdList | src/main/kotlin/com/asarkar/semver/SemVer.kt:168 | succeeds exactly when every text parses; the ids are the parsed texts in order; a failure carries the error of the first text that fails |
| Identifiers.FirstFailureDecides | src/main/kotlin/com/asarkar/semver/SimpleSemVerParser.kt:46-53 | when the texts before position i all parse and text i fails, the whole list fails with text i's error |
| Identifiers.CompareStrings | src/main/kotlin/com/asarkar/semver/SemVer.kt:46 | the comparison returns -1, 0 or 1 |
| Identifiers.CompareStringsIsLexicographic | src/main/kotlin/com/asarkar/semver/SemVer.kt:46 | a text sorts below another exactly when it is a proper prefix of it or is smaller at the first differing character |
| Identifiers.CompareStringsAntisymmetric | src/main/kotlin/com/asarkar/semver/SemVer.kt:46 | swapping the arguments negates the comparison |
| Identifiers.CompareStringsZero | src/main/kotlin/com/asarkar/semver/SemVer.kt:46 | the comparison is 0 exactly when the texts are equal |
| Identifiers.CompareStringsTransitive | src/main/kotlin/com/asarkar/semver/SemVer.kt:46 | the comparison is transitive, and a 0 overall forces 0 at both steps |
| Identifiers.CompareIds | src/main/kotlin/com/asarkar/semver/SemVer.kt:42-93 | no contract of its own (both `compareTo`s); `CompareIdsAntisymmetric`, `CompareIdsReflexive`, `CompareIdsTransitive`, `CompareIdsZeroCongruent`, `NumericBelowAlphanumeric` and `IdComparisonExamples` state its order |
| Identifiers.IdEquals | src/main/kotlin/com/asarkar/semver/SemVer.kt:50-99 | no contract of its own (both `equals`); `CompareIdsAgreesWithEquals` proves it holds exactly when `CompareIds` is 0 |
| Identifiers.CompareIdsAgreesWithEquals | src/main/kotlin/com/asarkar/semver/SemVer.kt:42-54 | `compareTo` is 0 exactly when `equals` holds, for both identifier kinds |
| Identifiers.CompareIdsAntisymmetric | src/main/kotlin/com/asarkar/semver/SemVer.kt:87-93 | identifier comparison is antisymmetric and returns -1, 0 or 1 |
| Identifiers.CompareIdsReflexive | src/main/kotlin/com/asarkar/semver/SemVer.kt:87-93 | every identifier compares equal to itself |
| Identifiers.CompareIdsTransitive | src/main/kotlin/com/asarkar/semver/SemVer.kt:87-93 | identifier comparison is transitive |
| Identifiers.CompareIdsZeroCongruent | src/main/kotlin/com/asarkar/semver/SemVer.kt:95-99 | identifiers that compare equal compare the same way against every third identifier |
| Identifiers.NumericBelowAlphanumeric | src/main/kotlin/com/asarkar/semver/SemVer.kt:43 | a numeric identifier sorts below every alphanumeric one and is never equal to it |
| Identifiers.IdentifierExamples | src/main/kotlin/com/asarkar/semver/SemVer.kt:13-20 | "001" is numeric when leading zeroes are allowed and rejected otherwise; "01" is rejected; "0" is numeric; "b10" is alphanumeric |
| Identifiers.IdComparisonExamples | src/main/kotlin/com/asarkar/semver/SemVer.kt:42-99 | 001 equals 1 and compares equal to it; b10 < b9 by characters; 2 < 11 by value |
| Identifiers.RejectedIdentifierExamples | src/main/kotlin/com/asarkar/semver/SemVer.kt:33-82 | "a&^" is rejected as not alphanumeric and "" as empty, with leading zeroes allowed or not; "&" is not a numeric identifier |
| Versions.NewNormalVersion | src/main/kotlin/com/asarkar/semver/SemVer.kt:114-119 | succeeds exactly when all three texts are numeric identifiers without leading zeroes, and keeps them; the error is the first failing component's |
| Versions.NewPreReleaseVersion | src/main/kotlin/com/asarkar/semver/SemVer.kt:168 | succeeds exactly when every text parses with leading zeroes disallowed; each id is `ParseId` of its text (so its kind, numeric or alphanumeric, is the one `Id.parse` gives) and renders as that text; the error is the first failing text's |
| Versions.NewBuildMetadata | src/main/kotlin/com/asarkar/semver/SemVer.kt:201 | succeeds exactly when every text parses with leading zeroes allowed; each id is `ParseId` of its text (its kind included) and renders as that text; the error is the first failing text's |
| Versions.TextsOfParsed | src/main/kotlin/com/asarkar/semver/SemVer.kt:152-154 | parsed identifiers render back to the texts they came from |
| Versions.NewSemVer | src/main/kotlin/com/asarkar/semver/SemVer.kt:245-247 | succeeds exactly when major, minor and patch each fit in 64 bits, storing the parts unchanged; otherwise a NumberFormat error |
| Versions.MajorVersion | src/main/kotlin/com/asarkar/semver/SemVer.kt:245 | the major number is the value of the major digits and is at most 2^64-1 |
| Versions.MinorVersion | src/main/kotlin/com/asarkar/semver/SemVer.kt:246 | the minor number is the value of the minor digits and is at most 2^64-1 |
| Versions.PatchVersion | src/main/kotlin/com/asarkar/semver/SemVer.kt:247 | the patch number is the value of the patch digits and is at most 2^64-1 |
| Versions.HasPreReleaseVersion | src/main/kotlin/com/asarkar/semver/SemVer.kt:222 | no contract of its own; `PreReleaseBuilderExamples` and `WithPreReleaseVersion` state when it holds after the builders |
| Versions.HasBuildMetadata | src/main/kotlin/com/asarkar/semver/SemVer.kt:223 | no contract of its own; `BuildMetadataClearExample` and `WithBuildMetadata` state when it holds after the builders |
| Versions.IdsToString | src/main/kotlin/com/asarkar/semver/SemVer.kt:153 | no contract of its own (identifier texts joined with `.`); `TextsOfParsed`, `IdsStage` and `RenderParse` tie it to the texts it was parsed from |
| Versions.ToString | src/main/kotlin/com/asarkar/semver/SemVer.kt:215-220 | no contract of its own; `ToStringShape` states its shape, and `RenderParse`, `ParseRender` and `RenderInjective` make it the inverse of parsing |
| Versions.CompareNormalVersions | src/main/kotlin/com/asarkar/semver/SemVer.kt:123-129 | no contract of its own; `CompareNormalVersionsByValue` and `NormalVersionIsLex` state it compares major, minor and patch by value in that order |
| Versions.ComparePreReleaseVersions | src/main/kotlin/com/asarkar/semver/SemVer.kt:170-178 | no contract of its own; `ComparePreReleaseIsLex` proves it equal to the independent `LexCompare` |
| Versions.CompareSemVers | src/main/kotlin/com/asarkar/semver/SemVer.kt:225-233 | no contract of its own; `CompareSemVersCases`, `CompareSemVersAntisymmetric`, `CompareSemVersReflexive`, `CompareSemVersTransitive`, `BuildMetadataIgnored`, `PreReleaseBelowRelease` and `NormalVersionDecides` state its order |
| Versions.NormalVersionEquals | src/main/kotlin/com/asarkar/semver/SemVer.kt:131-135 | no contract of its own; `NormalVersionEqualsByValue` states it holds exactly when the three values are equal |
| Versions.PreReleaseVersionEquals | src/main/kotlin/com/asarkar/semver/SemVer.kt:180-184 | no contract of its own; with `ComparePreReleaseIsLex` and `LexCompareFirstDifference`, it holds exactly when neither list precedes the other |
| Versions.SemVerEquals | src/main/kotlin/com/asarkar/semver/SemVer.kt:235-239 | no contract of its own; `SemVerEqualsIff` and `SemVerEqualsIsEquivalence` characterise it |
| Versions.ComparePreReleaseIsLex | src/main/kotlin/com/asarkar/semver/SemVer.kt:170-178 | pre-release comparison (pairwise first difference, then length) is the lexicographic order of the identifier lists |
| Versions.ZipCompareIsLex | src/main/kotlin/com/asarkar/semver/SemVer.kt:124-128 | on lists of equal length, the first non-zero pairwise comparison is the lexicographic order |
| Versions.LexCompareFirstDifference | src/main/kotlin/com/asarkar/semver/SemVer.kt:170-178 | one list precedes another exactly when it is a proper prefix or is smaller at the first position where they differ |
| Versions.LexCompareAntisymmetric | src/main/kotlin/com/asarkar/semver/SemVer.kt:170-178 | swapping the lists negates the comparison |
| Versions.LexCompareReflexive | src/main/kotlin/com/asarkar/semver/SemVer.kt:170-178 | every list compares equal to itself |
| Versions.LexCompareTransitive | src/main/kotlin/com/asarkar/semver/SemVer.kt:170-178 | list comparison is transitive |
| Versions.LexCompareZeroCongruent | src/main/kotlin/com/asarkar/semver/SemVer.kt:170-178 | lists that compare equal compare the same way against every third list |
| Versions.CompareNormalVersionsByValue | src/main/kotlin/com/asarkar/semver/SemVer.kt:123-129 | normal versions compare by major value, then minor, then patch |
| Versions.NormalVersionEqualsByValue | src/main/kotlin/com/asarkar/semver/SemVer.kt:131-135 | normal versions are equal exactly when their three values are equal |
| Versions.NormalVersionIsLex | src/main/kotlin/com/asarkar/semver/SemVer.kt:123-129 | normal-version comparison is the lexicographic comparison of the three components |
| Versions.CompareSemVersCases | src/main/kotlin/com/asarkar/semver/SemVer.kt:225-233 | version comparison is the normal-version comparison when that is non-zero, and otherwise the pre-release key (a release above every pre-release) |
| Versions.CompareSemVersAntisymmetric | src/main/kotlin/com/asarkar/semver/SemVer.kt:225-233 | swapping the versions negates the comparison |
| Versions.CompareSemVersReflexive | src/main/kotlin/com/asarkar/semver/SemVer.kt:225-233 | every version compares equal to itself |
| Versions.CompareSemVersTransitive | src/main/kotlin/com/asarkar/semver/SemVer.kt:225-233 | version comparison is transitive, and a 0 overall forces 0 at both steps |
| Versions.SemVerEqualsIsEquivalence | src/main/kotlin/com/asarkar/semver/SemVer.kt:235-239 | `equals` is reflexive, symmetric and transitive |
| Versions.SemVerEqualsIff | src/main/kotlin/com/asarkar/semver/SemVer.kt:235-239 | two versions are equal exactly when their normal versions are equal by value and their pre-releases are both absent or compare equal |
| Versions.BuildMetadataIgnored | src/main/kotlin/com/asarkar/semver/SemVer.kt:225-233 | replacing the build metadata of either side never changes the comparison, and a version equals itself with any build metadata |
| Versions.PreReleaseBelowRelease | src/main/kotlin/com/asarkar/semver/SemVer.kt:228-229 | with equal normal versions, a pre-release sorts below the release |
| Versions.NormalVersionDecides | src/main/kotlin/com/asarkar/semver/SemVer.kt:226 | when the normal versions differ, they alone decide the comparison |
| Versions.CompareVersion100 | src/main/kotlin/com/asarkar/semver/SemVer.kt:225-233 | two 1.0.0 pre-releases compare as their identifier lists do |
| Versions.PrecedenceExamples | src/test/kotlin/com/asarkar/semver/SemVerTest.kt:117-126 | the precedence chains of the repository's tests: 1.0.0 < 2.0.0 < 2.1.0 < 2.1.1; 1.0.0-alpha < 1.0.0; from 1.0.0-alpha through alpha.1, alpha.beta, beta, beta.2, beta.11 and rc.1 up to 1.0.0; and 1.0.0-b10 < 1.0.0-b9 |
| Versions.ReleaseChainPrecedence | src/test/kotlin/com/asarkar/semver/SemVerTest.kt:119 | 1.0.0 < 2.0.0 < 2.1.0 < 2.1.1 |
| Extensions.NormalVersionWithMajor | src/main/kotlin/com/asarkar/semver/SemVerExtensions.kt:3 | succeeds exactly when the new major is a valid numeric identifier; only the major changes; otherwise the identifier's error |
| Extensions.NormalVersionWithMinor | src/main/kotlin/com/asarkar/semver/SemVerExtensions.kt:4 | the same for the minor |
| Extensions.NormalVersionWithPatch | src/main/kotlin/com/asarkar/semver/SemVerExtensions.kt:5 | the same for the patch |
| Extensions.NormalVersionWithMatchesConstruction | src/main/kotlin/com/asarkar/semver/SemVerExtensions.kt:3-5 | replacing a component of a constructed normal version gives what constructing it with the new component gives |
| Extensions.WithMajorVersion | src/main/kotlin/com/asarkar/semver/SemVerExtensions.kt:7 | only the major changes; an invalid major fails with its error; for an in-range version, succeeds exactly when the new major is valid and fits in 64 bits |
| Extensions.WithMinorVersion | src/main/kotlin/com/asarkar/semver/SemVerExtensions.kt:8 | the same for the minor |
| Extensions.WithPatchVersion | src/main/kotlin/com/asarkar/semver/SemVerExtensions.kt:9 | the same for the patch |
| Extensions.WithNormalVersion | src/main/kotlin/com/asarkar/semver/SemVerExtensions.kt:10 | succeeds exactly when the new normal version fits in 64 bits; pre-release and build metadata are kept |
| Extensions.WithNormalVersionParts | src/main/kotlin/com/asarkar/semver/SemVerExtensions.kt:11 | the new normal version renders as the three parts joined by `.`; suffixes are kept; construction errors are passed on; succeeds exactly when construction succeeds and the parts fit in 64 bits |
| Extensions.WithPreReleaseVersion | src/main/kotlin/com/asarkar/semver/SemVerExtensions.kt:13-17 | no argument clears the pre-release; a pre-release first argument is stored as is; otherwise the stored pre-release is exactly `NewPreReleaseVersion` of the arguments' texts, whose failure is the error; the rest is kept; success is characterised exactly |
| Extensions.WithBuildMetadata | src/main/kotlin/com/asarkar/semver/SemVerExtensions.kt:19-23 | the same for build metadata: no argument clears it, a build-metadata first argument is stored as is, otherwise the stored value is exactly `NewBuildMetadata` of the arguments' texts (leading zeroes allowed), whose failure is the error; the pre-release is kept |
| Extensions.WithComponentIdempotent | src/main/kotlin/com/asarkar/semver/SemVerExtensions.kt:7-9 | setting the same component twice gives what setting it once gives |
| Extensions.SuffixBuildersKeepNormalPrecedence | src/main/kotlin/com/asarkar/semver/SemVerExtensions.kt:13-23 | when the normal versions differ, changing suffixes never changes how two versions compare |
| Extensions.WithBuildMetadataKeepsEquality | src/main/kotlin/com/asarkar/semver/SemVerExtensions.kt:19-23 | replacing the build metadata gives a version equal to the original |
| Extensions.ComponentBuilderExamples | src/test/kotlin/com/asarkar/semver/SemVerTest.kt:59-61 | 1.0.0 with major 2, minor 1 and patch 1 renders as 2.1.1 by each of the three builder routes (component by component, a `NormalVersion` value, raw parts); an invalid patch fails |
| Extensions.Beta1Renders | src/main/kotlin/com/asarkar/semver/SemVer.kt:215-220 | 1.0.0 with pre-release `beta`, `1` renders as 1.0.0-beta.1 |
| Extensions.PreReleaseFromTextExample | src/test/kotlin/com/asarkar/semver/SemVerTest.kt:63 | setting the pre-release texts "beta", "1" gives 1.0.0-beta.1 |
| Extensions.PreReleaseBuilderExamples | src/test/kotlin/com/asarkar/semver/SemVerTest.kt:62-64 | storing a pre-release value renders as 1.0.0-beta.1; an empty argument list clears it |
| Extensions.BuildMetadataBuilderExamples | src/test/kotlin/com/asarkar/semver/SemVerTest.kt:65-66 | build metadata "001" renders as 1.0.0+001 |
| Extensions.BuildMetadataClearExample | src/test/kotlin/com/asarkar/semver/SemVerTest.kt:67 | an empty argument list clears the build metadata of 1.0.0 |
| Extensions.Beta1Parsed | src/main/kotlin/com/asarkar/semver/SemVer.kt:168 | the texts "beta", "1" make the alphanumeric identifier `beta` and the numeric identifier `1` |
| Extensions.Build001Parsed | src/main/kotlin/com/asarkar/semver/SemVer.kt:201 | the text "001" makes the numeric identifier `001` in build metadata, where leading zeroes are allowed |
| Extensions.Build001Installed | src/main/kotlin/com/asarkar/semver/SemVerExtensions.kt:19-23 | setting the build-metadata text "001" on 1.0.0 gives 1.0.0 with that build metadata and no pre-release |
| Extensions.InvalidTextBuilderExamples | src/main/kotlin/com/asarkar/semver/SemVerExtensions.kt:13-23 | a text that is not an identifier makes both the pre-release and the build-metadata builder fail |
| SimpleParser.Segment | src/main/kotlin/com/asarkar/semver/SimpleSemVerParser.kt:57 | the identifier text is the input slice at the cursor, holds no delimiter, and is followed by a delimiter or the end |
| SimpleParser.NextStart | src/main/kotlin/com/asarkar/semver/SimpleSemVerParser.kt:60 | the cursor moves forward to at most one past the end, and the character before it is a delimiter |
| SimpleParser.NumericStage | src/main/kotlin/com/asarkar/semver/SimpleSemVerParser.kt:56-64 | succeeds exactly when the segment is non-empty digits without a leading zero, and the result's digits are the segment; otherwise EmptyIdentifier for an empty segment, NotNonNegativeInteger for one that is not all digits, LeadingZeroes for digits with a leading zero |
| SimpleParser.Pieces | src/main/kotlin/com/asarkar/semver/SimpleSemVerParser.kt:44-45 | at least one piece, none holding a dot, and the pieces joined by `.` are the segment |
| SimpleParser.IdsStage | src/main/kotlin/com/asarkar/semver/SimpleSemVerParser.kt:43-54 | succeeds exactly when every piece parses; the ids render as the segment; a failure carries some piece's error |
| SimpleParser.NormalStages | src/main/kotlin/com/asarkar/semver/SimpleSemVerParser.kt:17-24 | the cursor after the normal version is positive; every failure is a normal-version error; the cause of each failure is stated by `EmptyInputRejects`, `MajorStageRejects`, `EndAfterMajorRejects`, `MinorStageRejects`, `EndAfterMinorRejects` and `PatchStageRejects` |
| SimpleParser.Parse | src/main/kotlin/com/asarkar/semver/SimpleSemVerParser.kt:16-41 | no contract of its own; the parser methods are proved equal to it, and `AcceptedLanguage`, `RenderParse`, `ParseRender` and the rejection lemmas state what it accepts and how it fails |
| SimpleParser.ParseSuffixes | src/main/kotlin/com/asarkar/semver/SimpleSemVerParser.kt:25-29 | no contract of its own; `ParseSuffixesPre`, `ParseSuffixesNoPre` and `PreReleaseRejected` state its cases |
| SimpleParser.ParseBuild | src/main/kotlin/com/asarkar/semver/SimpleSemVerParser.kt:30-40 | no contract of its own; `ParseBuildWith`, `ParseBuildWithout` and `ParseBuildRejects` state its cases |
| SimpleParser.Construct | src/main/kotlin/com/asarkar/semver/SimpleSemVerParser.kt:36-40 | succeeds exactly when the SemVer constructor does, with the three parts as given; otherwise the constructor's NumberFormat error, passed through unwrapped |
| SimpleParser.ParseAfterNormal | src/main/kotlin/com/asarkar/semver/SimpleSemVerParser.kt:17-24 | once the normal version is read, the suffix stages at the cursor after the patch decide the result |
| SimpleParser.ParseBuildRejects | src/main/kotlin/com/asarkar/semver/SimpleSemVerParser.kt:31-34 | after a `+`, build metadata that fails to parse fails the parse as a build-metadata error with that cause |
| SimpleParser.ParseBuildWith | src/main/kotlin/com/asarkar/semver/SimpleSemVerParser.kt:31-40 | after a `+`, the build metadata read goes to the SemVer constructor |
| SimpleParser.ParseBuildWithout | src/main/kotlin/com/asarkar/semver/SimpleSemVerParser.kt:30-40 | without a `+`, the SemVer constructor gets no build metadata |
| SimpleParser.ParseSuffixesPre | src/main/kotlin/com/asarkar/semver/SimpleSemVerParser.kt:26-29 | after a `-`, a parsed pre-release is followed by the build stage at the cursor after it |
| SimpleParser.ParseSuffixesNoPre | src/main/kotlin/com/asarkar/semver/SimpleSemVerParser.kt:26-34 | without a `-`, the parser goes straight to the build stage |
| SimpleParser.AdvanceJoin | src/main/kotlin/com/asarkar/semver/SimpleSemVerParser.kt:49 | advancing over every piece moves the cursor past the whole segment and one delimiter |
| SimpleParser.SimpleSemVerParser.constructor | src/main/kotlin/com/asarkar/semver/SimpleSemVerParser.kt:3-5 | a new parser has cursor 0 and delimiter set `{.}` |
| SimpleParser.SimpleSemVerParser.ParseStr | src/main/kotlin/com/asarkar/semver/SimpleSemVerParser.kt:7-14 | the result is `Parse(input)`, and the fields are reset for the next call whatever the outcome |
| SimpleParser.SimpleSemVerParser.ParseStrInternal | src/main/kotlin/com/asarkar/semver/SimpleSemVerParser.kt:16-41 | the stateful stages compute `Parse(input)` |
| SimpleParser.SimpleSemVerParser.ParseNormalVersion | src/main/kotlin/com/asarkar/semver/SimpleSemVerParser.kt:17-23 | major, minor and patch with the end-of-input checks compute `NormalStages`, leaving the cursor after the patch and the delimiters `{-, +}` |
| SimpleParser.SimpleSemVerParser.ParseNumericId | src/main/kotlin/com/asarkar/semver/SimpleSemVerParser.kt:56-64 | computes `NumericStage` at the cursor; on success the cursor moves past the identifier and its delimiter, on failure it stays |
| SimpleParser.SimpleSemVerParser.ParseIds | src/main/kotlin/com/asarkar/semver/SimpleSemVerParser.kt:43-54 | the loop over the pieces computes `IdsStage` at the cursor; on success the cursor moves past the segment and its delimiter |
| SimpleParser.ParseVersion | src/main/kotlin/com/asarkar/semver/SemVer.kt:261 | parsing with a fresh parser yields `Parse(input)` |
| SimpleParser.IsValid | src/main/kotlin/com/asarkar/semver/SemVer.kt:266-273 | true exactly when `Parse(input)` succeeds |
| SimpleParser.ParseTwice | src/main/kotlin/com/asarkar/semver/SimpleSemVerParser.kt:7-14 | one parser instance used twice gives each input its own `Parse` result, since the first call resets the fields |
| ParserProperties.ToStringShape | src/main/kotlin/com/asarkar/semver/SemVer.kt:215-220 | a version renders as major `.` minor `.` patch, then the pre-release suffix, then the build suffix |
| ParserProperties.RenderParse | src/main/kotlin/com/asarkar/semver/SimpleSemVerParser.kt:16-41 | parsing the rendering of a well-formed version gives the version back |
| ParserProperties.ParseRender | src/main/kotlin/com/asarkar/semver/SimpleSemVerParser.kt:16-41 | an accepted input parses to a well-formed version whose rendering is the input |
| ParserProperties.AcceptedLanguage | src/main/kotlin/com/asarkar/semver/SimpleSemVerParser.kt:16-41 | an input is accepted exactly when it is the rendering of some well-formed version |
| ParserProperties.RenderInjective | src/main/kotlin/com/asarkar/semver/SemVer.kt:215-220 | two well-formed versions with the same rendering are the same version |
| ParserProperties.TruncatedNormalVersionRejections | src/test/kotlin/com/asarkar/semver/SimpleSemVerParserTest.kt:9 | "", "1" and "1." fail as normal-version errors without a cause |
| ParserProperties.MissingPatchRejections | src/test/kotlin/com/asarkar/semver/SimpleSemVerParserTest.kt:9 | "1.0" and "1.0." fail as normal-version errors without a cause, since the input ends before the patch |
| ParserProperties.EmptyInputRejects | src/main/kotlin/com/asarkar/semver/SimpleSemVerParser.kt:18 | an empty input fails as a normal-version error without a cause |
| ParserProperties.MajorStageRejects | src/main/kotlin/com/asarkar/semver/SimpleSemVerParser.kt:19 | a failing major fails the parse as a normal-version error with the major's identifier error as cause |
| ParserProperties.EndAfterMajorRejects | src/main/kotlin/com/asarkar/semver/SimpleSemVerParser.kt:20 | an input that ends with the major or its dot fails as a normal-version error without a cause |
| ParserProperties.MinorStageRejects | src/main/kotlin/com/asarkar/semver/SimpleSemVerParser.kt:21 | after a good major, a failing minor fails the parse as a normal-version error with the minor's identifier error as cause |
| ParserProperties.EndAfterMinorRejects | src/main/kotlin/com/asarkar/semver/SimpleSemVerParser.kt:22 | an input that ends with the minor or its dot fails as a normal-version error without a cause |
| ParserProperties.NonNumericMinorRejection | src/test/kotlin/com/asarkar/semver/SimpleSemVerParserTest.kt:9 | "1. a" fails as a normal-version error caused by a non-numeric minor |
| ParserProperties.NonNumericPatchRejection | src/test/kotlin/com/asarkar/semver/SimpleSemVerParserTest.kt:9 | "1.0.&" fails as a normal-version error caused by a non-numeric patch |
| ParserProperties.PatchStageRejects | src/main/kotlin/com/asarkar/semver/SimpleSemVerParser.kt:23-24 | when major and minor are read and the patch fails, the parse fails as a normal-version error with the patch's cause |
| ParserProperties.PreReleaseRejected | src/main/kotlin/com/asarkar/semver/SimpleSemVerParser.kt:26-29 | a pre-release piece that fails to parse fails the whole parse as a pre-release error with that cause |
| ParserProperties.BuildMetadataRejected | src/main/kotlin/com/asarkar/semver/SimpleSemVerParser.kt:31-34 | a build-metadata piece that fails to parse fails the whole parse as a build-metadata error with that cause |
| ParserProperties.LeadingZeroPreReleaseRejection | src/test/kotlin/com/asarkar/semver/SimpleSemVerParserTest.kt:18 | "1.0.0-01" fails as a pre-release error, cause LeadingZeroes |
| ParserProperties.EmptyPreReleaseRejection | src/test/kotlin/com/asarkar/semver/SimpleSemVerParserTest.kt:18 | "1.0.0-" fails as a pre-release error, cause EmptyIdentifier |
| ParserProperties.BadCharacterPreReleaseRejection | src/test/kotlin/com/asarkar/semver/SimpleSemVerParserTest.kt:18 | "1.0.0-a&^" fails as a pre-release error, cause NotAlphanumeric |
| ParserProperties.EmptyBuildMetadataRejection | src/test/kotlin/com/asarkar/semver/SimpleSemVerParserTest.kt:27 | "1.0.0+" fails as a build-metadata error, cause EmptyIdentifier |
| ParserProperties.BadCharacterBuildMetadataRejection | src/test/kotlin/com/asarkar/semver/SimpleSemVerParserTest.kt:27 | "1.0.0+a&^" fails as a build-metadata error, cause NotAlphanumeric |
| ParserProperties.AlphaBuild001Parses | src/test/kotlin/com/asarkar/semver/SemVerParserTest.kt:79-90 | "1.0.0-alpha+001" parses to pre-release `alpha` (alphanumeric) and build `001` (numeric, leading zeroes allowed) |
| ParserProperties.HyphenPreReleaseParses | src/test/kotlin/com/asarkar/semver/SemVerParserTest.kt:69-77 | "1.0.0-x-y-z.-" parses to the alphanumeric identifiers `x-y-z` and `-` |

## Left out

- The ANTLR parser (`antlr/`), `SemVerParser.getInstance` and logging are not part of this model. `ParseVersion` and `IsValid` stand for `SemVer.parse` and `SemVer.isValid` using the hand-written parser.
- Exception messages: each failure is a `ParseError` or `Error` constructor naming the stage and the identifier error behind it, not the message text.
- `hashCode` is left out. It involves no logic beyond hashing.
- Constructor overloads taking `Any` (`NumericId(1)`, `NormalVersion(1, 0, 0)`) take texts here. The source calls `toString` on the argument, and the model starts from that text.
- Unicode digits: Kotlin's `toULong` also accepts non-ASCII decimal digits. The model accepts ASCII digits only. `NumericId` rejects such texts either way, so only the error reason can differ.
- CompareIds: compares numeric identifiers by unbounded value. The source's `toULong` throws for values above 2^64-1. Those identifiers only arise from `NumericId` built directly, because `Id.parse` makes them alphanumeric (`OverRangeDigitsAreAlphanumeric`).
- IdEquals: likewise compares two numeric identifiers by unbounded value, where the source's `NumericId.equals` calls `toULong` and throws above 2^64-1.
- CompareStrings: returns -1, 0 or 1. The source's `String.compareTo` returns a difference whose sign is all its callers use.
- The semantic-versioning standard says an alphanumeric identifier is not purely numeric. The source's `AlphanumericId` does not check this, and `Id.parse` turns out-of-range digit strings into alphanumeric identifiers. The model follows the code.
- The parse of `parseStrInternal` is split in two for the proofs. `ParseNormalVersion` is the normal-version part and `ParseStrInternal` is the rest. The statements and their order are unchanged.
