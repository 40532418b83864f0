/** `Ficon::check` (src/lib.rs:76-111): the name to test, the convention that applies,
    the matcher that convention string denotes, and the verdict. */
module Ficon {
  import opened Outcomes
  import opened Errors
  import opened Engines
  import opened Strings
  import opened Paths
  import opened Delimiters
  import opened Conventions
  import opened Configuration

  /** What a convention string compiles to: a predefined pattern, or a user regex
      known by its source text. */
  datatype Matcher = Predefined(convention: Convention) | Custom(source: string)

  /** The `match` on the selected convention string (src/lib.rs:89-108): a predefined
      name, else `/.../` syntax whose interior must compile, else an error naming the
      string. The matcher is built afresh on every call; nothing is cached. */
  function Resolve(convention: string, re: RegexEngine): (r: Result<Matcher, CheckError>)
    ensures forall c :: Name(c) == convention ==> r == Success(Predefined(c))
    ensures r.Success? && r.value.Predefined? ==> Name(r.value.convention) == convention
    ensures FromName(convention).None? && !HasSpan(convention) ==>
      r == Failure(ConventionUnknown(convention))
    ensures r.Success? && r.value.Custom? ==>
      && FromName(convention).None?
      && HasSpan(convention)
      && r.value.source == ReplaceWithInterior(convention)
      && re.compiles(r.value.source)
    ensures r.Failure? ==> FromName(convention).None? && !r.error.IsPanic()
    ensures r.Failure? && r.error.ConventionUnknown? ==>
      !HasSpan(convention) && r.error.convention == convention
    ensures r.Failure? && r.error.RegexInvalid? ==>
      HasSpan(convention) && r.error.source == ReplaceWithInterior(convention) && !re.compiles(r.error.source)
  {
    match FromName(convention)
    case Some(c) => Success(Predefined(c))
    case None =>
      if HasSpan(convention) then
        var source := ReplaceWithInterior(convention);
        if re.compiles(source) then Success(Custom(source)) else Failure(RegexInvalid(source))
      else Failure(ConventionUnknown(convention))
  }

  /** `convention.is_match(file_name)`: a predefined matcher accepts exactly the names
      its convention describes. */
  function Evaluate(m: Matcher, re: RegexEngine, name: string): (b: bool)
    ensures m.Predefined? ==> (b <==> Accepts(m.convention, name))
  {
    match m
    case Predefined(c) =>
      PatternMeaning(c, name);
      IsMatch(PatternOf(c), name)
    case Custom(source) => re.matches(source, name)
  }

  /** `Ficon::check`: whether the path's checked name follows the convention that applies
      to the path. The file-stem panic comes first, then a glob panic, then the
      convention errors. */
  function Check(cfg: Config, glob: GlobEngine, re: RegexEngine, path: string): (r: Result<bool, CheckError>)
    ensures r == Failure(FileStemMissing(path)) <==> FileName(path).None?
    ensures r.Failure? && r.error.GlobInvalid? <==>
      FileName(path).Some? && ConventionFor(cfg, glob, path).Failure?
    ensures r.Success? ==>
      FileName(path).Some? && ConventionFor(cfg, glob, path).Success?
  {
    match CheckedName(path)
    case None => Failure(FileStemMissing(path))
    case Some(name) =>
      match ConventionFor(cfg, glob, path)
      case Failure(e) => Failure(e)
      case Success(convention) =>
        match Resolve(convention, re)
        case Failure(e) => Failure(e)
        case Success(m) => Success(Evaluate(m, re, name))
  }

  /** Under a predefined convention the verdict is whether the file name, cut at its
      first dot, has that convention's shape. */
  lemma CheckPredefined(cfg: Config, glob: GlobEngine, re: RegexEngine, path: string, c: Convention)
    requires FileName(path).Some?
    requires ConventionFor(cfg, glob, path) == Success(Name(c))
    ensures Check(cfg, glob, re, path) == Success(Accepts(c, FirstSegment(FileName(path).value)))
  {
    CheckedNameIsFirstSegment(path);
    PatternMeaning(c, FirstSegment(FileName(path).value));
  }

  /** `any` accepts every file that has a name. */
  lemma AnyAcceptsEveryName(cfg: Config, glob: GlobEngine, re: RegexEngine, path: string)
    requires FileName(path).Some?
    requires ConventionFor(cfg, glob, path) == Success("any")
    ensures Check(cfg, glob, re, path) == Success(true)
  {
    CheckPredefined(cfg, glob, re, path, Any);
  }

  /** A convention string that is neither predefined nor `/.../` is an error naming it,
      never a verdict. */
  lemma CheckUnknownConvention(cfg: Config, glob: GlobEngine, re: RegexEngine, path: string, convention: string)
    requires FileName(path).Some?
    requires ConventionFor(cfg, glob, path) == Success(convention)
    requires forall c :: Name(c) != convention
    requires !HasSpan(convention)
    ensures Check(cfg, glob, re, path) == Failure(ConventionUnknown(convention))
  {
  }

  /** A convention string with two slashes (and no line feed) is a user regex: the
      string without its first and its last '/' is compiled, and either the compile
      error names that source or the regex decides on the checked name. */
  lemma CheckCustomRegex(cfg: Config, glob: GlobEngine, re: RegexEngine, path: string, convention: string)
    requires FileName(path).Some?
    requires ConventionFor(cfg, glob, path) == Success(convention)
    requires forall c :: Name(c) != convention
    requires '\n' !in convention && FirstIndexOf(convention, '/') != LastIndexOf(convention, '/')
    ensures FirstIndexOf(convention, '/').Some? && LastIndexOf(convention, '/').Some?
    ensures FirstIndexOf(convention, '/').value < LastIndexOf(convention, '/').value
    ensures
      var source := DeleteTwo(convention, FirstIndexOf(convention, '/').value, LastIndexOf(convention, '/').value);
      Check(cfg, glob, re, path) ==
        if re.compiles(source) then Success(re.matches(source, FirstSegment(FileName(path).value)))
        else Failure(RegexInvalid(source))
  {
    ResolveCustom(convention, re);
    CheckedNameIsFirstSegment(path);
  }

  /** Resolving a non-predefined string without line feeds that holds two slashes
      compiles the string without its first and last '/'. */
  lemma ResolveCustom(convention: string, re: RegexEngine)
    requires forall c :: Name(c) != convention
    requires '\n' !in convention && FirstIndexOf(convention, '/') != LastIndexOf(convention, '/')
    ensures FirstIndexOf(convention, '/').Some? && LastIndexOf(convention, '/').Some?
    ensures FirstIndexOf(convention, '/').value < LastIndexOf(convention, '/').value
    ensures
      var source := DeleteTwo(convention, FirstIndexOf(convention, '/').value, LastIndexOf(convention, '/').value);
      Resolve(convention, re) == if re.compiles(source) then Success(Custom(source)) else Failure(RegexInvalid(source))
  {
    WithoutLineFeeds(convention);
    assert FromName(convention).None?;
  }

  /** Without overrides the verdict depends only on the default convention and the
      checked name: two paths with the same checked name get the same result. */
  lemma WithoutOverridesOnlyNameMatters(cfg: Config, glob: GlobEngine, re: RegexEngine, p: string, q: string)
    requires cfg.forPatterns.None? || cfg.forPatterns == Some([])
    requires CheckedName(p).Some? && CheckedName(p) == CheckedName(q)
    ensures Check(cfg, glob, re, p) == Check(cfg, glob, re, q)
  {
    if cfg.forPatterns.Some? {
      DefaultWhenNoOverrideMatches(cfg, glob, p);
      DefaultWhenNoOverrideMatches(cfg, glob, q);
    }
  }

  /** An override scenario: default `kebab` and one override `*.test.*`
      using `any`. A test file whose glob matches passes through the override,
      whatever its name. */
  lemma TestFileOverrideScenario(glob: GlobEngine, re: RegexEngine, path: string)
    requires FileName(path) == Some("WeirdName.test.ts")
    requires glob.valid("*.test.*") && glob.matches("*.test.*", path)
    ensures Check(Config(SubConfig("kebab"), Some([SubConfigByPattern("*.test.*", "any")])), glob, re, path)
      == Success(true)
  {
    var cfg := Config(SubConfig("kebab"), Some([SubConfigByPattern("*.test.*", "any")]));
    FirstMatchWins(cfg, glob, path, 0);
    AnyAcceptsEveryName(cfg, glob, re, path);
  }

  /** The same configuration on `WeirdName.ts`, which the override's glob does not
      match: the default `kebab` applies and rejects the name. */
  lemma DefaultConventionScenario(glob: GlobEngine, re: RegexEngine, path: string)
    requires FileName(path) == Some("WeirdName.ts")
    requires glob.valid("*.test.*") && !glob.matches("*.test.*", path)
    ensures Check(Config(SubConfig("kebab"), Some([SubConfigByPattern("*.test.*", "any")])), glob, re, path)
      == Success(false)
  {
    var cfg := Config(SubConfig("kebab"), Some([SubConfigByPattern("*.test.*", "any")]));
    DefaultWhenNoOverrideMatches(cfg, glob, path);
    assert ConventionFor(cfg, glob, path) == Success(Name(Kebab));
    CheckPredefined(cfg, glob, re, path, Kebab);
    WeirdNameIsNotKebab();
  }

  /** `WeirdName.ts` is checked as `WeirdName`, which is not kebab case. */
  lemma WeirdNameIsNotKebab()
    ensures FirstSegment("WeirdName.ts") == "WeirdName"
    ensures !Accepts(Kebab, "WeirdName")
  {
    FirstSegmentUnique("WeirdName.ts", "WeirdName");
    assert !IsLower("WeirdName"[0]);
  }

  /** `bogus` is not a convention: checking any file under it fails with an error naming
      it. */
  lemma BogusConventionScenario(glob: GlobEngine, re: RegexEngine, path: string)
    requires FileName(path).Some?
    ensures Check(Config(SubConfig("bogus"), None), glob, re, path) == Failure(ConventionUnknown("bogus"))
  {
    BogusIsUnknown();
    WithoutLineFeeds("bogus");
    CheckUnknownConvention(Config(SubConfig("bogus"), None), glob, re, path, "bogus");
  }

  /** `bogus` names no convention and holds no slash. */
  lemma BogusIsUnknown()
    ensures forall c :: Name(c) != "bogus"
    ensures FirstIndexOf("bogus", '/') == None && LastIndexOf("bogus", '/') == None
  {
  }

  /** A custom-regex example: under `/^v\d+$/` the regex `^v\d+$` decides. */
  lemma VersionRegexScenario(glob: GlobEngine, re: RegexEngine, path: string)
    requires FileName(path).Some?
    ensures Check(Config(SubConfig("/^v\\d+$/"), None), glob, re, path) ==
      if re.compiles("^v\\d+$") then Success(re.matches("^v\\d+$", FirstSegment(FileName(path).value)))
      else Failure(RegexInvalid("^v\\d+$"))
  {
    var convention := "/^v\\d+$/";
    VersionConventionIsCustom();
    VersionSlashes();
    CheckCustomRegex(Config(SubConfig(convention), None), glob, re, path, convention);
  }

  /** `/^v\d+$/` names no convention. */
  lemma VersionConventionIsCustom()
    ensures forall c :: Name(c) != "/^v\\d+$/"
  {
  }
}
