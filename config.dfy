/** The configuration read from `Ficon.toml` and `Config::convention_for`
    (src/lib.rs:22-37, 118-136), which picks the convention that applies to a path. */
module Configuration {
  import opened Outcomes
  import opened Errors
  import opened Engines

  datatype SubConfig = SubConfig(convention: string)

  /** One `[[for_patterns]]` entry: files whose path matches the glob `pattern` follow
      `convention` instead of the default. */
  datatype SubConfigByPattern = SubConfigByPattern(pattern: string, convention: string)

  datatype Config = Config(default: SubConfig, forPatterns: Option<seq<SubConfigByPattern>>)

  /** Every override's glob compiles. */
  predicate AllGlobsValid(glob: GlobEngine, overrides: seq<SubConfigByPattern>) {
    forall k :: 0 <= k < |overrides| ==> glob.valid(overrides[k].pattern)
  }

  /** Override `k` is the first whose glob does not compile. */
  predicate IsFirstInvalid(glob: GlobEngine, overrides: seq<SubConfigByPattern>, k: int) {
    && 0 <= k < |overrides|
    && !glob.valid(overrides[k].pattern)
    && forall k' :: 0 <= k' < k ==> glob.valid(overrides[k'].pattern)
  }

  /** Override `k` is the first whose glob matches `path`. */
  predicate IsFirstMatch(glob: GlobEngine, overrides: seq<SubConfigByPattern>, path: string, k: int) {
    && 0 <= k < |overrides|
    && glob.matches(overrides[k].pattern, path)
    && forall k' :: 0 <= k' < k ==> !glob.matches(overrides[k'].pattern, path)
  }

  /** The `filter(...).collect::<Vec<_>>()` chain: every glob is compiled in list order,
      the first that fails panics, and the overrides that match are kept in order. */
  function CollectMatching(glob: GlobEngine, overrides: seq<SubConfigByPattern>, path: string)
    : (r: Result<seq<SubConfigByPattern>, CheckError>)
    ensures r.Success? <==> AllGlobsValid(glob, overrides)
    ensures r.Failure? ==>
      exists k :: IsFirstInvalid(glob, overrides, k) && r.error == GlobInvalid(overrides[k].pattern)
    ensures r.Success? ==>
      forall o :: o in r.value <==> o in overrides && glob.matches(o.pattern, path)
    ensures r.Success? && |r.value| > 0 ==>
      exists k :: IsFirstMatch(glob, overrides, path, k) && r.value[0] == overrides[k]
  {
    if |overrides| == 0 then Success([])
    else
      var o := overrides[0];
      if !glob.valid(o.pattern) then Failure(GlobInvalid(o.pattern))
      else
        var tail := overrides[1..];
        assert forall k :: 0 < k < |overrides| ==> overrides[k] == tail[k - 1];
        match CollectMatching(glob, tail, path)
        case Failure(e) =>
          ghost var k :| IsFirstInvalid(glob, tail, k) && e == GlobInvalid(tail[k].pattern);
          assert IsFirstInvalid(glob, overrides, k + 1);
          Failure(e)
        case Success(rest) =>
          if glob.matches(o.pattern, path) then
            assert IsFirstMatch(glob, overrides, path, 0);
            Success([o] + rest)
          else if |rest| > 0 then
            ghost var k :| IsFirstMatch(glob, tail, path, k) && rest[0] == tail[k];
            assert IsFirstMatch(glob, overrides, path, k + 1);
            Success(rest)
          else
            Success(rest)
  }

  /** `Config::convention_for`: the convention of the first override whose glob matches
      the path, or the default when there are no overrides or none matches. */
  function ConventionFor(cfg: Config, glob: GlobEngine, path: string): (r: Result<string, CheckError>)
    ensures cfg.forPatterns.None? ==> r == Success(cfg.default.convention)
    ensures r.Failure? <==> cfg.forPatterns.Some? && !AllGlobsValid(glob, cfg.forPatterns.value)
    ensures r.Failure? ==> exists k ::
      IsFirstInvalid(glob, cfg.forPatterns.value, k) && r.error == GlobInvalid(cfg.forPatterns.value[k].pattern)
    ensures r.Success? ==>
      || r.value == cfg.default.convention
      || exists k :: 0 <= k < |cfg.forPatterns.value| && r.value == cfg.forPatterns.value[k].convention
  {
    match cfg.forPatterns
    case None => Success(cfg.default.convention)
    case Some(overrides) =>
      match CollectMatching(glob, overrides, path)
      case Failure(e) => Failure(e)
      case Success(matching) =>
        if |matching| > 0 then Success(matching[0].convention) else Success(cfg.default.convention)
  }

  /** With all globs valid, a path that no override matches gets the default convention. */
  lemma DefaultWhenNoOverrideMatches(cfg: Config, glob: GlobEngine, path: string)
    requires cfg.forPatterns.Some? && AllGlobsValid(glob, cfg.forPatterns.value)
    requires forall k :: 0 <= k < |cfg.forPatterns.value| ==> !glob.matches(cfg.forPatterns.value[k].pattern, path)
    ensures ConventionFor(cfg, glob, path) == Success(cfg.default.convention)
  {
  }

  /** With all globs valid, the earliest-listed matching override decides. */
  lemma FirstMatchWins(cfg: Config, glob: GlobEngine, path: string, k: nat)
    requires cfg.forPatterns.Some? && AllGlobsValid(glob, cfg.forPatterns.value)
    requires IsFirstMatch(glob, cfg.forPatterns.value, path, k)
    ensures ConventionFor(cfg, glob, path) == Success(cfg.forPatterns.value[k].convention)
  {
    var overrides := cfg.forPatterns.value;
    var matching := CollectMatching(glob, overrides, path).value;
    assert overrides[k] in matching;
    var k' :| IsFirstMatch(glob, overrides, path, k') && matching[0] == overrides[k'];
    assert k' == k;
  }

  /** Of two overrides that match the same path, the result is what the earlier one
      alone would give. */
  lemma EarlierOverrideAlone(cfg: Config, glob: GlobEngine, path: string, i: nat, j: nat)
    requires cfg.forPatterns.Some? && AllGlobsValid(glob, cfg.forPatterns.value)
    requires IsFirstMatch(glob, cfg.forPatterns.value, path, i)
    requires i < j < |cfg.forPatterns.value| && glob.matches(cfg.forPatterns.value[j].pattern, path)
    ensures ConventionFor(cfg, glob, path) ==
      ConventionFor(cfg.(forPatterns := Some([cfg.forPatterns.value[i]])), glob, path)
  {
    var alone := cfg.(forPatterns := Some([cfg.forPatterns.value[i]]));
    FirstMatchWins(cfg, glob, path, i);
    FirstMatchWins(alone, glob, path, 0);
  }

  /** Overrides appended after a matching one do not change the result, as long as their
      globs compile. */
  lemma AppendingAfterMatchKeepsResult(cfg: Config, glob: GlobEngine, path: string, k: nat,
                                       extra: seq<SubConfigByPattern>)
    requires cfg.forPatterns.Some? && AllGlobsValid(glob, cfg.forPatterns.value)
    requires IsFirstMatch(glob, cfg.forPatterns.value, path, k)
    requires AllGlobsValid(glob, extra)
    ensures ConventionFor(cfg.(forPatterns := Some(cfg.forPatterns.value + extra)), glob, path) ==
      ConventionFor(cfg, glob, path)
  {
    var overrides := cfg.forPatterns.value;
    var longer := cfg.(forPatterns := Some(overrides + extra));
    assert IsFirstMatch(glob, overrides + extra, path, k);
    FirstMatchWins(cfg, glob, path, k);
    FirstMatchWins(longer, glob, path, k);
  }

  /** But every glob is compiled before the first match is taken: one malformed glob
      appended anywhere makes the lookup fail, even behind a matching override, and the
      failure names the first malformed glob. */
  lemma AppendingInvalidGlobFails(cfg: Config, glob: GlobEngine, path: string, k: nat,
                                  extra: seq<SubConfigByPattern>, bad: nat)
    requires cfg.forPatterns.Some? && AllGlobsValid(glob, cfg.forPatterns.value)
    requires IsFirstInvalid(glob, extra, bad)
    ensures ConventionFor(cfg.(forPatterns := Some(cfg.forPatterns.value + extra)), glob, path) ==
      Failure(GlobInvalid(extra[bad].pattern))
  {
    var overrides := cfg.forPatterns.value;
    var all := overrides + extra;
    assert all[|overrides| + bad] == extra[bad];
    assert IsFirstInvalid(glob, all, |overrides| + bad);
    var r := ConventionFor(cfg.(forPatterns := Some(all)), glob, path);
    var k' :| IsFirstInvalid(glob, all, k') && r.error == GlobInvalid(all[k'].pattern);
    assert k' == |overrides| + bad;
  }

  /** Order matters: two overrides whose globs both match every path give different
      conventions depending on which is listed first. */
  lemma ReorderingChangesResult()
    ensures
      var glob := GlobEngine(p => true, (p, path) => true);
      var a, b := SubConfigByPattern("*", "kebab"), SubConfigByPattern("**", "snake");
      var cfg := Config(SubConfig("any"), Some([a, b]));
      && ConventionFor(cfg, glob, "src/main.rs") == Success("kebab")
      && ConventionFor(cfg.(forPatterns := Some([b, a])), glob, "src/main.rs") == Success("snake")
  {
    var glob := GlobEngine(p => true, (p, path) => true);
    var a, b := SubConfigByPattern("*", "kebab"), SubConfigByPattern("**", "snake");
    var cfg := Config(SubConfig("any"), Some([a, b]));
    FirstMatchWins(cfg, glob, "src/main.rs", 0);
    FirstMatchWins(cfg.(forPatterns := Some([b, a])), glob, "src/main.rs", 0);
  }
}
