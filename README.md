# ficon naming-convention checker, modelled in Dafny

ficon checks that file names in a directory tree follow a naming convention. A
configuration (`Ficon.toml`) names a default convention and, optionally, an ordered
list of overrides `{ pattern, convention }` whose glob `pattern` selects the paths
they govern. A convention is one of six predefined names (`any`, `kebab`, `snake`,
`upper_snake`, `camel`, `pascal`) or a user regular expression written between
slashes (`/^v\d+$/`).

This project models the checking core of `src/lib.rs`, all of it pure:

- `Configuration.ConventionFor` is `Config::convention_for`. It compiles every
  override's glob in list order; the first glob that fails to compile panics. It then
  returns the convention of the first override whose glob matches the path, or the
  default convention.
- `Ficon.Check` is `Ficon::check`. It takes the path's final file name and cuts it with
  Rust's `file_stem` rule and then at its first dot (`Paths.CheckedName`). It
  resolves the selected convention string (`Ficon.Resolve`). A predefined name gives
  its fixed regex (`Conventions.PatternOf`). A string containing a `/(.*)/` match
  gives a user regex whose source is the string with that match's two slashes
  removed (`Delimiters.ReplaceWithInterior`). Any other string is an error. The
  result is the matcher's verdict on the name.

The glob crate and the regex engine that runs user regexes are foreign code. They
are parameters: `Engines.GlobEngine` (compiles, matches) and `Engines.RegexEngine`
(compiles, matches). Every result holds for every behaviour of those libraries. The
six predefined regexes are not left to the engine. They use character classes, `*`
and the `^`/`$` anchors only. `Conventions` gives that fragment its own backtracking
matcher and proves what each pattern accepts, character by character.

Three behaviours of the code are worth stating outright:

- The custom-regex test is the unanchored `/(.*)/`, and `replace` keeps the text
  outside the match, so `a/b/c` becomes the regex `abc` and `x/y/` becomes `xy`. The
  model is exact to the regex semantics, including that `.` does not cross a line
  feed (`Delimiters.LineFeedExample`).
- `file_stem` keeps `.gitignore` whole and `split(".")` then cuts it to the empty
  name, so `.gitignore` is checked as `""` (`Paths.DotFileExample`).
- There is no matcher cache: the matcher is rebuilt on every call, and globs are
  compiled on every lookup, not when the configuration is loaded.

Failures are modelled as `Errors.CheckError`. A missing file stem and an invalid glob
are panics (`expect`) in the source. An invalid user regex and an unknown convention
are `Err` values. They are checked in that order: the file stem first, then the
globs, then the convention.

## Model

| member | source | states |
|---|---|---|
| Configuration.CollectMatching | src/lib.rs:123-130 | the filter succeeds iff every glob compiles; otherwise it fails naming the first glob that does not compile; on success it keeps exactly the overrides whose glob matches, and the first kept is the earliest-listed matching one |
| Configuration.ConventionFor | src/lib.rs:119-135 | without `for_patterns` the default convention; it fails iff a present list holds a glob that does not compile, naming the first such glob; otherwise the result is the default or some override's convention |
| Configuration.DefaultWhenNoOverrideMatches | src/lib.rs:131-133 | all globs valid and none matching the path gives the default convention |
| Configuration.FirstMatchWins | src/lib.rs:124-132 | all globs valid: the earliest-listed override whose glob matches decides |
| Configuration.EarlierOverrideAlone | src/lib.rs:124-132 | when the earlier of two matching overrides is the first match in the list, the result equals that override alone |
| Configuration.AppendingAfterMatchKeepsResult | src/lib.rs:124-132 | appending overrides with valid globs after a matching one leaves the result unchanged |
| Configuration.AppendingInvalidGlobFails | src/lib.rs:125-130 | appending an invalid glob anywhere makes the lookup fail, even behind a matching override, naming the first invalid appended glob |
| Configuration.ReorderingChangesResult | src/lib.rs:124-132 | an example where swapping two overrides that both match changes the selected convention, so order can change the result |
| Paths.FileName | src/lib.rs:77-79 | the file name is the last piece of the path that is neither empty nor `.`, every later piece being empty or `.`; it has no '/' and is not `..`; there is none exactly when every piece is empty or `.`, or that last piece is `..` |
| Paths.LastOfComponents | src/lib.rs:77-79 | the last component of a path is its last piece that is neither empty nor `.`; with no such piece there is no component |
| Paths.SplitThenJoin | src/lib.rs:77-78 | joining the '/'-separated pieces of a path with '/' gives the path back |
| Paths.FileNameInDirectory | src/lib.rs:77-79 | the file name of `dir/name` is `name` for an ordinary name, and `dir/..` has none |
| Paths.FileStem | src/lib.rs:78 | the stem is a prefix of the name; when shorter it is non-empty and stops at the name's last dot; a name without a dot is its own stem, and a name other than `..` with a dot after its first character always loses its final extension |
| Paths.FirstSegment | src/lib.rs:85 | the result is the prefix of the text up to its first dot: it has no dot and is all of the text or stops at a dot |
| Paths.CheckedName | src/lib.rs:77-85 | present iff the path has a file name; contains no dot and is a prefix of the file name |
| Paths.CheckedNameIsFirstSegment | src/lib.rs:77-85 | the checked name is the file name cut at its first dot |
| Paths.CompoundExtensionExample | src/lib.rs:83-85 | for any directory `dir` without '/', `dir/foo.bar.baz` is checked as `foo` |
| Paths.DotFileExample | src/lib.rs:77-85 | for any directory `dir` without '/', `dir/.gitignore` is checked as the empty name |
| Paths.ParentDirExample | src/lib.rs:77-79 | for any directory `dir` without '/', `dir/..` has no file stem |
| Delimiters.FindSpan | src/lib.rs:87 | the match found is a match of `/(.*)/`, no match starts earlier, none with the same start ends later; no result means no match at all |
| Delimiters.HasSpan | src/lib.rs:97 | true iff `/(.*)/` matches somewhere in the string |
| Delimiters.ReplaceWithInterior | src/lib.rs:98 | without a match the string is unchanged; with one it loses the two slashes of the leftmost, longest match |
| Delimiters.WithoutLineFeeds | src/lib.rs:97-98 | on a string without line feeds there is a match iff it holds two slashes, and the regex source is the string without its first and last '/' |
| Delimiters.VersionExample | src/lib.rs:97-98 | `/^v\d+$/` becomes the source `^v\d+$` |
| Delimiters.LineFeedExample | src/lib.rs:87 | in `/a` line feed `/b/` the match is `/b/`, because `.` does not match a line feed |
| Conventions.FromName | src/lib.rs:89-95 | the predefined name recognised is the one whose name equals the string; none is recognised for any other string |
| Conventions.PatternOf | src/lib.rs:90-95 | the six fixed regexes transcribed as patterns; no contract of its own, its meaning is given by `Conventions.PatternMeaning` |
| Conventions.PatternMeaning | src/lib.rs:90-95 | each predefined regex accepts exactly the names its character-level description allows: `any` everything, `kebab`/`snake` length at least 2 with `[a-z]` first, `[a-z\d]` last and `[a-z\d]` or the separator between, `upper_snake` `[A-Z]` then `[A-Z_\d]*`, `camel` `[a-z]` then `[A-Za-z\d]*`, `pascal` `[A-Z]` then `[A-Za-z\d]*` |
| Conventions.RepeatedThenOnceMatches | src/lib.rs:91-92 | a class under `*` followed by one class matches iff the last character is in the final class and all before it in the repeated one |
| Conventions.KebabExamples | src/lib.rs:91 | `my-file` passes; `MyFile`, `-leading` and `trailing-` fail |
| Conventions.SnakeExamples | src/lib.rs:92 | `my_file2` passes; `My_File` fails |
| Conventions.UpperSnakeExamples | src/lib.rs:93 | `MY_CONST_1` passes; `my_const` fails |
| Conventions.CamelExamples | src/lib.rs:94 | `myVar2` passes; `MyVar` fails |
| Conventions.PascalExamples | src/lib.rs:95 | `MyClass` passes; `myClass` fails |
| Conventions.SingleLetterExample | src/lib.rs:91-94 | one-letter names fail kebab and snake but pass camel |
| Conventions.DoubleSeparatorExample | src/lib.rs:91-92 | consecutive separators are accepted inside kebab and snake names |
| Errors.Message | src/lib.rs:79-126 | the text the source attaches to each failure (lines 79, 100, 102-105 and 126); no contract of its own, its meaning is given by `Errors.MessageIdentifiesString` |
| Errors.MessageIdentifiesString | src/lib.rs:99-105 | the invalid-regex message determines the regex source, and the unknown-convention message determines the convention string: different strings never share a message |
| Ficon.Resolve | src/lib.rs:89-108 | a predefined name resolves to its own pattern, and a predefined pattern comes only from its own name; a custom matcher arises only from a non-predefined string with a `/(.*)/` match, its source is the replaced string and it compiles; a non-predefined string without a match is the unknown-convention error naming it; an error is never a panic, and an invalid-regex error names a source that does not compile |
| Ficon.Evaluate | src/lib.rs:110 | `is_match` on the checked name: a predefined matcher accepts exactly the names its convention describes; a custom matcher defers to the regex engine (see `Ficon.CheckCustomRegex`) |
| Ficon.Check | src/lib.rs:76-111 | fails with the missing-file-stem panic iff the path has no file name; fails with a glob panic iff the path has a file name and the lookup fails; a verdict implies both succeeded |
| Ficon.CheckPredefined | src/lib.rs:89-110 | under a predefined convention the verdict is that convention's character-level description applied to the file name cut at its first dot |
| Ficon.AnyAcceptsEveryName | src/lib.rs:90 | under `any` every file with a name passes |
| Ficon.CheckUnknownConvention | src/lib.rs:101-105 | a non-predefined string with no `/(.*)/` match fails with an error naming it, never a verdict |
| Ficon.ResolveCustom | src/lib.rs:96-100 | a non-predefined string without line feeds that holds two slashes resolves to the string without its first and last '/' when that compiles, and otherwise to the regex error naming it |
| Ficon.CheckCustomRegex | src/lib.rs:96-100 | a non-predefined string without line feeds that holds two slashes: the source is the string without its first and last '/'; if it does not compile the error names it, otherwise the user regex decides on the checked name |
| Ficon.WithoutOverridesOnlyNameMatters | src/lib.rs:119-122 | with no overrides, two paths with the same checked name get the same result |
| Ficon.TestFileOverrideScenario | src/lib.rs:124-132 | default `kebab`, override `*.test.*` with `any`: `WeirdName.test.ts`, matched by the glob, passes |
| Ficon.DefaultConventionScenario | src/lib.rs:131-133 | in the same configuration `WeirdName.ts`, not matched, fails the default `kebab` |
| Ficon.BogusConventionScenario | src/lib.rs:101-105 | the convention `bogus` gives the unknown-convention error, naming it |
| Ficon.VersionRegexScenario | src/lib.rs:97-100 | under `/^v\d+$/` the user regex `^v\d+$` decides, or its compile error names it |

## Left out

- `Ficon::new` and `Ficon::target_dir` (src/lib.rs:47-74): command-line parsing, the directory test, reading `Ficon.toml` and TOML deserialisation are I/O and library code. The model starts from a deserialised `Configuration.Config`.
- `src/main.rs` is not part of this model. It is an older driver: directory walking, canonical paths, coloured output and the exit code.
- `Ficon::convention_from_regex` (src/lib.rs:113-115) is not a separate member. It is only called on the six fixed pattern texts, and these compile, so its error branch cannot fire. `Ficon.Resolve` maps each predefined name directly to its pattern.
- The glob crate (`Pattern::new`, `matches_path`) and the user-regex engine (`Regex::new`, `is_match`) are uninterpreted parameters, not models of those libraries.
- Conventions.PatternOf, Conventions.PatternMeaning: `\d` is modelled as the ASCII digits `0-9`; Rust's regex treats it as every Unicode decimal digit.
- Errors.Message: the glob panic's text in the source also carries the glob crate's error description, which the model does not have. The model records the offending pattern in the error value instead.
- Paths.FileName: paths are '/'-separated strings. Windows prefixes and separators are not modelled, and neither is the `to_str` failure on a name that is not UTF-8 (src/lib.rs:80-81).
- Panics are modelled as error values marked by `CheckError.IsPanic`; the model does not capture that a panic ends the process.
