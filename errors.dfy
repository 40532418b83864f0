/** Everything that stops a check from producing a boolean. */
module Errors {

  /** The four ways `Ficon::check` fails. The first two are panics (`expect`) in the
      source, the last two are `Err` values handed back to the caller. */
  datatype CheckError =
    | FileStemMissing(path: string)         // the path has no final file name
    | GlobInvalid(pattern: string)          // an override's glob does not compile
    | RegexInvalid(source: string)          // a `/.../` convention whose interior does not compile
    | ConventionUnknown(convention: string) // neither a predefined name nor `/.../`
  {
    /** True for the failures the source raises with `expect`, which abort the process. */
    predicate IsPanic() {
      FileStemMissing? || GlobInvalid?
    }
  }

  const FileStemMessage := "file stem is missing"
  const GlobMessage := "invalid glob pattern"
  const RegexSuffix := " is not a valid regexp"
  const UnknownPrefix := "convention is not predefined or defined as regexp: "

  /** The text the source attaches to each failure. The glob panic's text carries the
      glob crate's error, not the pattern itself; the two `Err` texts name the string
      that was rejected. */
  function Message(e: CheckError): string {
    match e
    case FileStemMissing(_) => FileStemMessage
    case GlobInvalid(_) => GlobMessage
    case RegexInvalid(src) => src + RegexSuffix
    case ConventionUnknown(conv) => UnknownPrefix + conv
  }

  /** The two `Err` texts identify what was rejected: different regex sources give
      different messages, and so do different convention strings. */
  lemma MessageIdentifiesString(a: string, b: string)
    ensures Message(RegexInvalid(a)) == Message(RegexInvalid(b)) ==> a == b
    ensures Message(ConventionUnknown(a)) == Message(ConventionUnknown(b)) ==> a == b
  {
    if Message(RegexInvalid(a)) == Message(RegexInvalid(b)) {
      assert |a| == |b|;
      assert a == (a + RegexSuffix)[..|a|];
      assert b == (b + RegexSuffix)[..|b|];
    }
    if Message(ConventionUnknown(a)) == Message(ConventionUnknown(b)) {
      assert a == (UnknownPrefix + a)[|UnknownPrefix|..];
      assert b == (UnknownPrefix + b)[|UnknownPrefix|..];
    }
  }
}
