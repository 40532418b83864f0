/** The two foreign libraries the checker calls, kept uninterpreted: the `glob` crate
    (`Pattern::new` and `Pattern::matches_path`) and the `regex` crate as used on a
    user-supplied regular expression (`Regex::new` and `Regex::is_match`). Each is a
    record of functions, so every property proved about the checker holds for every
    possible behaviour of these libraries. */
module Engines {

  datatype GlobEngine = GlobEngine(
    /** `Pattern::new(pattern)` returns `Ok` */
    valid: string -> bool,
    /** `Pattern::new(pattern).unwrap().matches_path(path)`, meaningful only when `valid(pattern)` */
    matches: (string, string) -> bool)

  datatype RegexEngine = RegexEngine(
    /** `Regex::new(source)` returns `Ok` */
    compiles: string -> bool,
    /** `Regex::new(source).unwrap().is_match(text)`, meaningful only when `compiles(source)` */
    matches: (string, string) -> bool)
}
