/** The part of `std::path::Path` the checker relies on, for '/'-separated paths:
    the final file name, Rust's `file_stem`, and the name the checker tests. */
module Paths {
  import opened Outcomes
  import opened Strings

  /** Cuts a path at every '/', keeping the empty pieces that repeated, leading or
      trailing separators leave. */
  function SplitAtSlashes(p: string): (parts: seq<string>)
    ensures |parts| >= 1
    ensures forall k :: 0 <= k < |parts| ==> '/' !in parts[k]
  {
    if |p| == 0 then [""]
    else
      var rest := SplitAtSlashes(p[1..]);
      if p[0] == '/' then [""] + rest
      else [[p[0]] + rest[0]] + rest[1..]
  }

  /** Puts the pieces back together, one '/' between neighbours. */
  function JoinWithSlashes(parts: seq<string>): string
    requires |parts| >= 1
  {
    if |parts| == 1 then parts[0] else parts[0] + "/" + JoinWithSlashes(parts[1..])
  }

  /** Splitting loses nothing: joining the pieces gives the path back. */
  lemma {:induction false} SplitThenJoin(p: string)
    ensures JoinWithSlashes(SplitAtSlashes(p)) == p
  {
    if |p| > 0 {
      var rest := SplitAtSlashes(p[1..]);
      SplitThenJoin(p[1..]);
      if p[0] == '/' {
        assert p == "/" + p[1..];
      } else {
        var parts := [[p[0]] + rest[0]] + rest[1..];
        if |rest| == 1 {
          assert p == [p[0]] + p[1..];
        } else {
          assert parts[1..] == rest[1..];
          assert JoinWithSlashes(rest) == rest[0] + "/" + JoinWithSlashes(rest[1..]);
          assert p == [p[0]] + p[1..];
        }
      }
    }
  }

  /** A piece that `Path::components` does not report. */
  predicate Skipped(piece: string) {
    piece == "" || piece == "."
  }

  /** Piece `k` is a component and every piece after it is skipped. */
  predicate IsLastComponent(parts: seq<string>, k: int) {
    && 0 <= k < |parts|
    && !Skipped(parts[k])
    && forall k' :: k < k' < |parts| ==> Skipped(parts[k'])
  }

  /** The pieces that are components of the path: Rust's `Path::components` drops
      empty pieces and `.` pieces (a leading `.` survives there as `CurDir`, which
      is never a file name either). */
  function Components(parts: seq<string>): (c: seq<string>)
    ensures forall k :: 0 <= k < |c| ==> !Skipped(c[k])
  {
    if |parts| == 0 then []
    else
      var rest := Components(parts[1..]);
      if Skipped(parts[0]) then rest else [parts[0]] + rest
  }

  /** The last component is the last piece that is not skipped. */
  lemma {:induction false} LastOfComponents(parts: seq<string>)
    ensures |Components(parts)| == 0 ==> forall k :: 0 <= k < |parts| ==> Skipped(parts[k])
    ensures |Components(parts)| > 0 ==>
      exists k :: IsLastComponent(parts, k) && Components(parts)[|Components(parts)| - 1] == parts[k]
  {
    if |parts| > 0 {
      var tail := parts[1..];
      var rest := Components(tail);
      LastOfComponents(tail);
      assert forall k :: 0 < k < |parts| ==> parts[k] == tail[k - 1];
      if |rest| > 0 {
        var k :| IsLastComponent(tail, k) && rest[|rest| - 1] == tail[k];
        assert IsLastComponent(parts, k + 1);
      } else if !Skipped(parts[0]) {
        assert IsLastComponent(parts, 0);
      }
    }
  }

  /** `Path::file_name`: the last component, unless the path ends in `..` or has no
      component at all (`""`, `"/"`, `"."`). */
  function FileName(p: string): (r: Option<string>)
    ensures r.Some? ==> r.value != "" && r.value != "." && r.value != ".." && '/' !in r.value
    ensures r.Some? ==> r.value in SplitAtSlashes(p)
    ensures r.Some? ==> exists k :: IsLastComponent(SplitAtSlashes(p), k) && SplitAtSlashes(p)[k] == r.value
    ensures r.None? <==>
      || (forall k :: 0 <= k < |SplitAtSlashes(p)| ==> Skipped(SplitAtSlashes(p)[k]))
      || (exists k :: IsLastComponent(SplitAtSlashes(p), k) && SplitAtSlashes(p)[k] == "..")
  {
    var c := Components(SplitAtSlashes(p));
    LastOfComponents(SplitAtSlashes(p));
    if |c| == 0 || c[|c| - 1] == ".." then None else Some(c[|c| - 1])
  }

  /** `Path::file_stem` on a file name (Rust's `rsplit_file_at_dot`): the name without
      the text after its last dot, except that a name whose only dot is its first
      character (`.gitignore`), or the name `..`, is its own stem. */
  function FileStem(name: string): (stem: string)
    ensures stem <= name
    ensures stem != name ==> 0 < |stem| && name[|stem|] == '.' && '.' !in name[|stem| + 1..]
    ensures '.' !in name ==> stem == name
    ensures name != ".." && (exists k :: 0 < k < |name| && name[k] == '.') ==> stem != name
  {
    if name == ".." then name
    else match LastIndexOf(name, '.')
      case None => name
      case Some(k) => if k == 0 then name else name[..k]
  }

  /** `s.split(".").next()`: the text before the first dot, or all of `s`. The three
      ensures together say exactly which prefix that is. */
  function FirstSegment(s: string): (r: string)
    ensures r <= s
    ensures '.' !in r
    ensures r != s ==> s[|r|] == '.'
  {
    match FirstIndexOf(s, '.')
    case None => s
    case Some(k) => s[..k]
  }

  /** The name `Ficon::check` tests: the file stem of the path cut at its first dot,
      or `None` where the source panics with "file stem is missing". */
  function CheckedName(p: string): (r: Option<string>)
    ensures r.Some? <==> FileName(p).Some?
    ensures r.Some? ==> '.' !in r.value && r.value <= FileName(p).value
  {
    match FileName(p)
    case None => None
    case Some(n) => Some(FirstSegment(FileStem(n)))
  }

  /** A prefix of `s` with no dot that is all of `s` or stops at a dot is the first segment. */
  lemma FirstSegmentUnique(s: string, r: string)
    requires r <= s && '.' !in r && (r != s ==> s[|r|] == '.')
    ensures FirstSegment(s) == r
  {
  }

  /** Taking the stem first changes nothing: the checked name is the file name cut at
      its first dot (`foo.bar.baz` is checked as `foo`, `.gitignore` as `""`). */
  lemma CheckedNameIsFirstSegment(p: string)
    requires FileName(p).Some?
    ensures CheckedName(p) == Some(FirstSegment(FileName(p).value))
  {
    var n := FileName(p).value;
    var stem := FileStem(n);
    var r := FirstSegment(stem);
    assert r <= n;
    if r != n {
      if r == stem {
        assert n[|r|] == '.';
      } else {
        assert stem[|r|] == '.';
        assert n[|r|] == stem[|r|];
      }
    }
    FirstSegmentUnique(n, r);
  }

  /** A string without '/' is a single piece. */
  lemma {:induction false} NoSlashIsOnePiece(p: string)
    requires '/' !in p
    ensures SplitAtSlashes(p) == [p]
  {
    if |p| > 0 {
      NoSlashIsOnePiece(p[1..]);
      assert p == [p[0]] + p[1..];
    }
  }

  /** Splitting `a + "/" + b` splits `a` and `b` separately. */
  lemma {:induction false} SplitAtSlashesAppend(a: string, b: string)
    ensures SplitAtSlashes(a + "/" + b) == SplitAtSlashes(a) + SplitAtSlashes(b)
  {
    if |a| == 0 {
      assert a + "/" + b == "/" + b;
      assert ("/" + b)[1..] == b;
    } else {
      assert (a + "/" + b)[1..] == a[1..] + "/" + b;
      SplitAtSlashesAppend(a[1..], b);
    }
  }

  /** Components of concatenated piece lists concatenate. */
  lemma {:induction false} ComponentsAppend(x: seq<string>, y: seq<string>)
    ensures Components(x + y) == Components(x) + Components(y)
  {
    if |x| == 0 {
      assert x + y == y;
    } else {
      assert (x + y)[1..] == x[1..] + y;
      ComponentsAppend(x[1..], y);
    }
  }

  /** The file name of `dir/name`, for a directory and a name without '/'. */
  lemma FileNameInDirectory(dir: string, name: string)
    requires '/' !in dir && '/' !in name
    ensures name != "" && name != "." && name != ".." ==> FileName(dir + "/" + name) == Some(name)
    ensures name == ".." ==> FileName(dir + "/" + name) == None
  {
    SplitAtSlashesAppend(dir, name);
    NoSlashIsOnePiece(dir);
    NoSlashIsOnePiece(name);
    ComponentsAppend([dir], [name]);
    assert [dir] + [name] == [dir, name];
    assert Components([dir]) == if dir == "" || dir == "." then [] else [dir] by {
      assert [dir][1..] == [];
    }
    assert Components([name]) == if name == "" || name == "." then [] else [name] by {
      assert [name][1..] == [];
    }
  }

  /** A compound extension is cut away whole: `dir/foo.bar.baz` is checked as `foo`. */
  lemma CompoundExtensionExample(dir: string)
    requires '/' !in dir
    ensures CheckedName(dir + "/foo.bar.baz") == Some("foo")
  {
    assert dir + "/foo.bar.baz" == dir + "/" + "foo.bar.baz";
    FileNameInDirectory(dir, "foo.bar.baz");
    CheckedNameIsFirstSegment(dir + "/foo.bar.baz");
    FirstSegmentOfCompound();
  }

  /** A dot file is checked as the empty name. */
  lemma DotFileExample(dir: string)
    requires '/' !in dir
    ensures CheckedName(dir + "/.gitignore") == Some("")
  {
    assert dir + "/.gitignore" == dir + "/" + ".gitignore";
    FileNameInDirectory(dir, ".gitignore");
    CheckedNameIsFirstSegment(dir + "/.gitignore");
    FirstSegmentOfDotFile();
  }

  /** A path ending in `..` has no file stem. */
  lemma ParentDirExample(dir: string)
    requires '/' !in dir
    ensures CheckedName(dir + "/..") == None
  {
    assert dir + "/.." == dir + "/" + "..";
    FileNameInDirectory(dir, "..");
  }

  /** `foo.bar.baz` is cut at its first dot. */
  lemma FirstSegmentOfCompound()
    ensures FirstSegment("foo.bar.baz") == "foo"
  {
    FirstSegmentUnique("foo.bar.baz", "foo");
  }

  /** `.gitignore` is cut at its leading dot. */
  lemma FirstSegmentOfDotFile()
    ensures FirstSegment(".gitignore") == ""
  {
    FirstSegmentUnique(".gitignore", "");
  }
}
