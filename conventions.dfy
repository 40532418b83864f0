/** The six predefined conventions of `Ficon::check` (src/lib.rs:90-95). Each is a fixed
    regular expression; all six use the same small fragment of regex syntax (character
    classes, `*`, and the `^`/`$` anchors), which this module gives a matcher of its own
    and then characterises character by character. */
module Conventions {
  import opened Outcomes

  /** One member of a bracketed class: a range `a-z`, a single character `\-`, or the
      `.` class (every character but a line feed). `\d` is the ASCII range `0-9` here. */
  datatype ClassItem = Range(lo: char, hi: char) | Single(c: char) | NotLineFeed

  predicate InItem(c: char, item: ClassItem) {
    match item
    case Range(lo, hi) => lo <= c <= hi
    case Single(d) => c == d
    case NotLineFeed => c != '\n'
  }

  predicate InClass(c: char, cls: seq<ClassItem>) {
    exists item :: item in cls && InItem(c, item)
  }

  /** An element of a pattern: a class matched once, or a class under `*`. */
  datatype Piece = Once(cls: seq<ClassItem>) | Repeated(cls: seq<ClassItem>)

  /** A sequence of pieces, either anchored at both ends (`^...$`) or not anchored. */
  datatype Pattern = Pattern(anchored: bool, pieces: seq<Piece>)

  /** The pieces match all of `s`; each `*` tries every length, as backtracking does. */
  function MatchAll(pieces: seq<Piece>, s: string): bool
    decreases |pieces|, |s|
  {
    if |pieces| == 0 then |s| == 0
    else match pieces[0]
      case Once(cls) => |s| > 0 && InClass(s[0], cls) && MatchAll(pieces[1..], s[1..])
      case Repeated(cls) =>
        || MatchAll(pieces[1..], s)
        || (|s| > 0 && InClass(s[0], cls) && MatchAll(pieces, s[1..]))
  }

  /** `Regex::is_match`: an anchored pattern must match the whole text, one without
      anchors some stretch of it. */
  function IsMatch(p: Pattern, s: string): bool {
    if p.anchored then MatchAll(p.pieces, s)
    else exists i, j | 0 <= i <= j <= |s| :: MatchAll(p.pieces, s[i..j])
  }

  datatype Convention = Any | Kebab | Snake | UpperSnake | Camel | Pascal

  /** The name a configuration uses for each convention. */
  function Name(c: Convention): string {
    match c
    case Any => "any"
    case Kebab => "kebab"
    case Snake => "snake"
    case UpperSnake => "upper_snake"
    case Camel => "camel"
    case Pascal => "pascal"
  }

  /** The first six arms of the `match` on the convention string. */
  function FromName(name: string): (r: Option<Convention>)
    ensures r.Some? ==> Name(r.value) == name
    ensures r.None? ==> forall c :: Name(c) != name
  {
    if name == "any" then Some(Any)
    else if name == "kebab" then Some(Kebab)
    else if name == "snake" then Some(Snake)
    else if name == "upper_snake" then Some(UpperSnake)
    else if name == "camel" then Some(Camel)
    else if name == "pascal" then Some(Pascal)
    else None
  }

  const Lower := Range('a', 'z')
  const Upper := Range('A', 'Z')
  const Digit := Range('0', '9')

  /** The regex each predefined name compiles:
        any          .*
        kebab        ^[a-z][a-z\-\d]*[a-z\d]$
        snake        ^[a-z][a-z_\d]*[a-z\d]$
        upper_snake  ^[A-Z][A-Z_\d]*$
        camel        ^[a-z][A-Za-z\d]*$
        pascal       ^[A-Z][A-Za-z\d]*$ */
  function PatternOf(c: Convention): Pattern {
    match c
    case Any => Pattern(false, [Repeated([NotLineFeed])])
    case Kebab => Pattern(true, [Once([Lower]), Repeated([Lower, Single('-'), Digit]), Once([Lower, Digit])])
    case Snake => Pattern(true, [Once([Lower]), Repeated([Lower, Single('_'), Digit]), Once([Lower, Digit])])
    case UpperSnake => Pattern(true, [Once([Upper]), Repeated([Upper, Single('_'), Digit])])
    case Camel => Pattern(true, [Once([Lower]), Repeated([Upper, Lower, Digit])])
    case Pascal => Pattern(true, [Once([Upper]), Repeated([Upper, Lower, Digit])])
  }

  predicate IsLower(c: char) { 'a' <= c <= 'z' }
  predicate IsUpper(c: char) { 'A' <= c <= 'Z' }
  predicate IsDigit(c: char) { '0' <= c <= '9' }

  /** A first character, characters in between, and a last character, each from its own
      set: the shape of kebab and snake case. Needs at least two characters. */
  predicate Delimited(s: string, separator: char) {
    && |s| >= 2
    && IsLower(s[0])
    && (IsLower(s[|s| - 1]) || IsDigit(s[|s| - 1]))
    && forall k :: 0 < k < |s| - 1 ==> IsLower(s[k]) || IsDigit(s[k]) || s[k] == separator
  }

  predicate KebabCase(s: string) { Delimited(s, '-') }

  predicate SnakeCase(s: string) { Delimited(s, '_') }

  predicate UpperSnakeCase(s: string) {
    |s| >= 1 && IsUpper(s[0]) && forall k :: 0 < k < |s| ==> IsUpper(s[k]) || IsDigit(s[k]) || s[k] == '_'
  }

  predicate CamelCase(s: string) {
    |s| >= 1 && IsLower(s[0]) && forall k :: 0 < k < |s| ==> IsLower(s[k]) || IsUpper(s[k]) || IsDigit(s[k])
  }

  predicate PascalCase(s: string) {
    |s| >= 1 && IsUpper(s[0]) && forall k :: 0 < k < |s| ==> IsLower(s[k]) || IsUpper(s[k]) || IsDigit(s[k])
  }

  /** What each convention accepts, said without regular expressions. */
  predicate Accepts(c: Convention, s: string) {
    match c
    case Any => true
    case Kebab => KebabCase(s)
    case Snake => SnakeCase(s)
    case UpperSnake => UpperSnakeCase(s)
    case Camel => CamelCase(s)
    case Pascal => PascalCase(s)
  }

  /** Membership in a class of three items. */
  lemma InClassOfThree(c: char, a: ClassItem, b: ClassItem, d: ClassItem)
    ensures InClass(c, [a, b, d]) <==> InItem(c, a) || InItem(c, b) || InItem(c, d)
  {
    if InItem(c, a) { assert a in [a, b, d]; }
    if InItem(c, b) { assert b in [a, b, d]; }
    if InItem(c, d) { assert d in [a, b, d]; }
  }

  /** Membership in a class of two items. */
  lemma InClassOfTwo(c: char, a: ClassItem, b: ClassItem)
    ensures InClass(c, [a, b]) <==> InItem(c, a) || InItem(c, b)
  {
    if InItem(c, a) { assert a in [a, b]; }
    if InItem(c, b) { assert b in [a, b]; }
  }

  lemma SeparatorClass(sep: char)
    ensures forall c :: InClass(c, [Lower, Single(sep), Digit]) <==> IsLower(c) || c == sep || IsDigit(c)
  {
    forall c ensures InClass(c, [Lower, Single(sep), Digit]) <==> IsLower(c) || c == sep || IsDigit(c) {
      InClassOfThree(c, Lower, Single(sep), Digit);
    }
  }

  lemma LowerOrDigitClass()
    ensures forall c :: InClass(c, [Lower, Digit]) <==> IsLower(c) || IsDigit(c)
  {
    forall c ensures InClass(c, [Lower, Digit]) <==> IsLower(c) || IsDigit(c) {
      InClassOfTwo(c, Lower, Digit);
    }
  }

  lemma LetterOrDigitClass()
    ensures forall c :: InClass(c, [Upper, Lower, Digit]) <==> IsLower(c) || IsUpper(c) || IsDigit(c)
  {
    forall c ensures InClass(c, [Upper, Lower, Digit]) <==> IsLower(c) || IsUpper(c) || IsDigit(c) {
      InClassOfThree(c, Upper, Lower, Digit);
    }
  }

  lemma SingleClass(item: ClassItem)
    ensures forall c :: InClass(c, [item]) <==> InItem(c, item)
  {
    forall c ensures InClass(c, [item]) <==> InItem(c, item) {
      if InItem(c, item) { assert item in [item]; }
    }
  }

  /** A lone `*` piece matches exactly the strings made of its class. */
  lemma {:induction false} RepeatedMatches(cls: seq<ClassItem>, s: string)
    ensures MatchAll([Repeated(cls)], s) <==> forall k :: 0 <= k < |s| ==> InClass(s[k], cls)
  {
    if |s| > 0 {
      RepeatedMatches(cls, s[1..]);
      assert forall k :: 0 < k < |s| ==> s[k] == s[1..][k - 1];
    }
  }

  /** A `*` piece followed by a single class: the last character is in the final class,
      all characters before it in the repeated one. */
  lemma {:induction false} RepeatedThenOnceMatches(cls: seq<ClassItem>, last: seq<ClassItem>, s: string)
    ensures MatchAll([Repeated(cls), Once(last)], s) <==>
      && |s| >= 1
      && InClass(s[|s| - 1], last)
      && forall k :: 0 <= k < |s| - 1 ==> InClass(s[k], cls)
  {
    var pieces := [Repeated(cls), Once(last)];
    assert pieces[1..] == [Once(last)];
    assert [Once(last)][1..] == [];
    if |s| > 0 {
      var t := s[1..];
      assert MatchAll([Once(last)], s) <==> |s| == 1 && InClass(s[0], last);
      RepeatedThenOnceMatches(cls, last, t);
      assert forall k :: 0 <= k < |t| ==> t[k] == s[k + 1];
    }
  }

  /** The anchored conventions all begin with a single class. */
  lemma OnceFirst(cls: seq<ClassItem>, rest: seq<Piece>, s: string)
    ensures MatchAll([Once(cls)] + rest, s) <==> |s| > 0 && InClass(s[0], cls) && MatchAll(rest, s[1..])
  {
    assert ([Once(cls)] + rest)[1..] == rest;
  }

  /** Each predefined pattern accepts exactly what `Accepts` describes. */
  lemma PatternMeaning(c: Convention, s: string)
    ensures IsMatch(PatternOf(c), s) <==> Accepts(c, s)
  {
    match c
    case Any =>
      assert MatchAll([Repeated([NotLineFeed])][1..], s[0..0]);
    case Kebab =>
      DelimitedMeaning('-', s);
    case Snake =>
      DelimitedMeaning('_', s);
    case UpperSnake =>
      var cls := [Upper, Single('_'), Digit];
      OnceFirst([Upper], [Repeated(cls)], s);
      if |s| > 0 {
        RepeatedMatches(cls, s[1..]);
      }
      SeparatorClass('_');
      assert forall c :: InClass(c, [Upper, Single('_'), Digit]) <==> IsUpper(c) || c == '_' || IsDigit(c) by {
        forall c ensures InClass(c, [Upper, Single('_'), Digit]) <==> IsUpper(c) || c == '_' || IsDigit(c) {
          InClassOfThree(c, Upper, Single('_'), Digit);
        }
      }
      SingleClass(Upper);
      ShiftedClasses(s, cls, c => IsUpper(c) || IsDigit(c) || c == '_');
    case Camel =>
      StartThenLetters([Lower], s);
      SingleClass(Lower);
    case Pascal =>
      StartThenLetters([Upper], s);
      SingleClass(Upper);
  }

  /** Pulls a property of every character of `s[1..]` back to the indices of `s`. */
  lemma ShiftedClasses(s: string, cls: seq<ClassItem>, p: char -> bool)
    requires forall c :: InClass(c, cls) <==> p(c)
    ensures |s| > 0 ==>
      ((forall k :: 0 <= k < |s[1..]| ==> InClass(s[1..][k], cls)) <==>
       (forall k :: 0 < k < |s| ==> p(s[k])))
  {
    if |s| > 0 {
      assert forall k :: 0 < k < |s| ==> s[k] == s[1..][k - 1];
    }
  }

  /** Kebab and snake case: `^[a-z][a-z<sep>\d]*[a-z\d]$`. */
  lemma DelimitedMeaning(sep: char, s: string)
    requires sep == '-' || sep == '_'
    ensures IsMatch(Pattern(true, [Once([Lower]), Repeated([Lower, Single(sep), Digit]), Once([Lower, Digit])]), s)
      <==> Delimited(s, sep)
  {
    var mid, last := [Lower, Single(sep), Digit], [Lower, Digit];
    assert [Once([Lower]), Repeated(mid), Once(last)] == [Once([Lower])] + [Repeated(mid), Once(last)];
    OnceFirst([Lower], [Repeated(mid), Once(last)], s);
    if |s| > 0 {
      var t := s[1..];
      RepeatedThenOnceMatches(mid, last, t);
      assert forall k :: 0 < k < |s| ==> s[k] == t[k - 1];
      SeparatorClass(sep);
      LowerOrDigitClass();
      SingleClass(Lower);
    }
  }

  /** Camel and pascal case: one class, then `[A-Za-z\d]*`. */
  lemma StartThenLetters(first: seq<ClassItem>, s: string)
    requires first == [Lower] || first == [Upper]
    ensures MatchAll([Once(first), Repeated([Upper, Lower, Digit])], s) <==>
      && |s| >= 1
      && InClass(s[0], first)
      && forall k :: 0 < k < |s| ==> IsLower(s[k]) || IsUpper(s[k]) || IsDigit(s[k])
  {
    var cls := [Upper, Lower, Digit];
    OnceFirst(first, [Repeated(cls)], s);
    if |s| > 0 {
      RepeatedMatches(cls, s[1..]);
    }
    LetterOrDigitClass();
    ShiftedClasses(s, cls, c => IsLower(c) || IsUpper(c) || IsDigit(c));
  }

  /** Kebab-case examples. */
  lemma KebabExamples()
    ensures IsMatch(PatternOf(Kebab), "my-file")
    ensures !IsMatch(PatternOf(Kebab), "MyFile")
    ensures !IsMatch(PatternOf(Kebab), "-leading")
    ensures !IsMatch(PatternOf(Kebab), "trailing-")
  {
    PatternMeaning(Kebab, "my-file");
    PatternMeaning(Kebab, "MyFile");
    PatternMeaning(Kebab, "-leading");
    PatternMeaning(Kebab, "trailing-");
  }

  /** Snake-case examples. */
  lemma SnakeExamples()
    ensures IsMatch(PatternOf(Snake), "my_file2")
    ensures !IsMatch(PatternOf(Snake), "My_File")
  {
    PatternMeaning(Snake, "my_file2");
    PatternMeaning(Snake, "My_File");
  }

  /** Upper-snake-case examples. */
  lemma UpperSnakeExamples()
    ensures IsMatch(PatternOf(UpperSnake), "MY_CONST_1")
    ensures !IsMatch(PatternOf(UpperSnake), "my_const")
  {
    PatternMeaning(UpperSnake, "MY_CONST_1");
    PatternMeaning(UpperSnake, "my_const");
  }

  /** Camel case: `myVar2` passes, `MyVar` fails. */
  lemma CamelExamples()
    ensures IsMatch(PatternOf(Camel), "myVar2") && !IsMatch(PatternOf(Camel), "MyVar")
  {
    PatternMeaning(Camel, "myVar2");
    PatternMeaning(Camel, "MyVar");
  }

  /** Pascal case: `MyClass` passes, `myClass` fails. */
  lemma PascalExamples()
    ensures IsMatch(PatternOf(Pascal), "MyClass") && !IsMatch(PatternOf(Pascal), "myClass")
  {
    PatternMeaning(Pascal, "MyClass");
    PatternMeaning(Pascal, "myClass");
  }

  /** Kebab and snake case need two characters; a single letter is rejected while
      camel case takes it. */
  lemma SingleLetterExample()
    ensures !IsMatch(PatternOf(Kebab), "a") && !IsMatch(PatternOf(Snake), "a")
    ensures IsMatch(PatternOf(Camel), "a")
  {
    PatternMeaning(Kebab, "a");
    PatternMeaning(Snake, "a");
    PatternMeaning(Camel, "a");
  }

  /** Consecutive separators are allowed inside a kebab or snake name. */
  lemma DoubleSeparatorExample()
    ensures IsMatch(PatternOf(Kebab), "a--b") && IsMatch(PatternOf(Snake), "a__b")
  {
    PatternMeaning(Kebab, "a--b");
    PatternMeaning(Snake, "a__b");
  }
}
