/** Repository-relative paths: normalization, and what a lease scope covers. */
module Paths {
  import opened Prelude
  import opened Text
  import opened Sequences

  const MAX_FILE_PATH_BYTES := 4096
  const MAX_REPOSITORY_BYTES := 512

  datatype PathError = PathRequired | PathTooLong | NotRelativePosix | Traversal

  function Components(path: string): seq<string> { Split(path, '/') }

  /** The paths normalization produces: no empty, `.` or `..` component. */
  predicate Canonical(path: string) {
    forall c | c in Components(path) :: c != "" && c != "." && c != ".."
  }

  /** The components that survive normalization. */
  function Significant(parts: seq<string>): seq<string> {
    if parts == [] then []
    else (if parts[0] == "" || parts[0] == "." then [] else [parts[0]]) + Significant(parts[1..])
  }

  function Normalize(value: string): Result<string, PathError> {
    var trimmed := Trim(value);
    if trimmed == "" then Err(PathRequired)
    else if Utf8Len(trimmed) > MAX_FILE_PATH_BYTES then Err(PathTooLong)
    else if trimmed[0] == '/' || '\\' in trimmed || !Printable(trimmed) then Err(NotRelativePosix)
    else if ".." in Components(trimmed) then Err(Traversal)
    else if Significant(Components(trimmed)) == [] then Err(PathRequired)
    else Ok(Join(Significant(Components(trimmed)), '/'))
  }

  lemma {:induction false} SignificantAppend(a: seq<string>, b: seq<string>)
    ensures Significant(a + b) == Significant(a) + Significant(b)
  {
    if a == [] {
      assert a + b == b;
    } else {
      assert (a + b)[1..] == a[1..] + b;
      SignificantAppend(a[1..], b);
    }
  }

  lemma {:induction false} SignificantMembers(parts: seq<string>)
    ensures forall c :: c in Significant(parts) <==> c in parts && c != "" && c != "."
  {
    if parts != [] {
      SignificantMembers(parts[1..]);
      assert parts == [parts[0]] + parts[1..];
    }
  }

  /** `normalize_file_path`, with its loop over the components. */
  method NormalizeFilePath(value: string) returns (r: Result<string, PathError>)
    ensures r == Normalize(value)
    ensures r.Ok? ==> Canonical(r.value)
  {
    NormalizeIsCanonical(value);
    var trimmed := Trim(value);
    if trimmed == "" {
      return Err(PathRequired);
    }
    if Utf8Len(trimmed) > MAX_FILE_PATH_BYTES {
      return Err(PathTooLong);
    }
    if trimmed[0] == '/' || '\\' in trimmed || !Printable(trimmed) {
      return Err(NotRelativePosix);
    }
    var pieces, parts := Components(trimmed), [];
    for i := 0 to |pieces|
      invariant parts == Significant(pieces[..i])
      invariant ".." !in pieces[..i]
    {
      hide Split, Trim;
      assert pieces[..i + 1] == pieces[..i] + [pieces[i]];
      SignificantAppend(pieces[..i], [pieces[i]]);
      if pieces[i] == "" || pieces[i] == "." {
      } else if pieces[i] == ".." {
        assert pieces[i] in pieces;
        return Err(Traversal);
      } else {
        parts := parts + [pieces[i]];
      }
    }
    assert pieces[..|pieces|] == pieces;
    if parts == [] {
      return Err(PathRequired);
    }
    return Ok(Join(parts, '/'));
  }

  lemma NormalizeIsCanonical(value: string)
    ensures Normalize(value).Ok? ==>
        Canonical(Normalize(value).value)
        && Components(Normalize(value).value) == Significant(Components(Trim(value)))
  {
    if Normalize(value).Ok? {
      var parts := Significant(Components(Trim(value)));
      SignificantMembers(Components(Trim(value)));
      SplitPieces(Trim(value), '/');
      forall i | 0 <= i < |parts|
        ensures '/' !in parts[i]
      {
        assert parts[i] in Components(Trim(value));
      }
      SplitJoin(parts, '/');
      forall c | c in Components(Normalize(value).value)
        ensures c != "" && c != "." && c != ".."
      {
        assert c in parts;
      }
    }
  }

  /** Which paths are refused, and with which error; every other path has a normal form. */
  lemma PathErrorsMean(value: string)
    ensures var trimmed, r := Trim(value), Normalize(value);
      var tooLong, parts := Utf8Len(trimmed) > 4096, Components(trimmed);
      var alien := trimmed != "" && (trimmed[0] == '/' || '\\' in trimmed || exists c :: c in trimmed && IsControl(c));
      && (r == Err(PathTooLong) <==> trimmed != "" && tooLong)
      && (r == Err(NotRelativePosix) <==> trimmed != "" && !tooLong && alien)
      && (r == Err(Traversal) <==> trimmed != "" && !tooLong && !alien && exists c :: c in parts && c == "..")
      && (r == Err(PathRequired) <==>
            trimmed == "" || (!tooLong && !alien && forall c | c in parts :: c == "" || c == "."))
  {
    hide Trim, Utf8Len, Split;
    SignificantMembers(Components(Trim(value)));
    var kept := Significant(Components(Trim(value)));
    assert kept != [] ==> kept[0] in kept;
  }

  // ---- scopes -------------------------------------------------------------------------------

  /** A lease on `path` covers `file`: the same path, or any path below it when recursive. */
  predicate Covers(path: string, recursive: bool, file: string) {
    Components(path) == Components(file) || (recursive && Components(path) <= Components(file))
  }

  /** `lease_scopes_overlap`: the test on the strings. */
  predicate ScopesOverlap(a: string, aRecursive: bool, b: string, bRecursive: bool) {
    a == b || (aRecursive && a + "/" <= b) || (bRecursive && b + "/" <= a)
  }

  lemma {:induction false} JoinConcat(a: seq<string>, b: seq<string>)
    requires a != [] && b != []
    ensures Join(a + b, '/') == Join(a, '/') + "/" + Join(b, '/')
  {
    if |a| == 1 {
      assert (a + b)[1..] == b;
    } else {
      assert (a + b)[1..] == a[1..] + b;
      JoinConcat(a[1..], b);
    }
  }

  /** Equal components mean equal paths. */
  lemma ComponentsInjective(a: string, b: string)
    requires Components(a) == Components(b)
    ensures a == b
  {
    JoinSplit(a, '/');
    JoinSplit(b, '/');
  }

  /** A string prefix up to a slash is a proper component prefix, and the other way round. */
  lemma SlashPrefixIsComponentPrefix(a: string, b: string)
    ensures a + "/" <= b <==> Components(a) < Components(b)
  {
    hide Split;
    if a + "/" <= b {
      var rest := b[|a| + 1..];
      assert b == a + ['/'] + rest;
      SplitConcat(a, rest, '/');
    }
    if Components(a) < Components(b) {
      var rest := Components(b)[|Components(a)|..];
      assert Components(b) == Components(a) + rest;
      JoinConcat(Components(a), rest);
      JoinSplit(a, '/');
      JoinSplit(b, '/');
    }
  }

  /** The string test is true exactly when the two scopes share a path. */
  lemma OverlapMeansSharedPath(a: string, aRecursive: bool, b: string, bRecursive: bool)
    requires Canonical(a) && Canonical(b)
    ensures ScopesOverlap(a, aRecursive, b, bRecursive)
        <==> exists file :: Canonical(file) && Covers(a, aRecursive, file) && Covers(b, bRecursive, file)
  {
    hide Canonical, Split;
    SlashPrefixIsComponentPrefix(a, b);
    SlashPrefixIsComponentPrefix(b, a);
    if ScopesOverlap(a, aRecursive, b, bRecursive) {
      assert Covers(a, aRecursive, b) || Covers(b, bRecursive, a);
      assert Covers(a, aRecursive, a) && Covers(b, bRecursive, b);
    }
    forall file | Covers(a, aRecursive, file) && Covers(b, bRecursive, file)
      ensures ScopesOverlap(a, aRecursive, b, bRecursive)
    {
      if Components(a) == Components(b) {
        ComponentsInjective(a, b);
      }
    }
  }

  /** Looking up one path finds exactly the scopes that cover it; looking below it, those that reach below it. */
  lemma LookupMeansCovering(path: string, recursive: bool, query: string)
    requires Canonical(path) && Canonical(query)
    ensures ScopesOverlap(path, recursive, query, false) <==> Covers(path, recursive, query)
    ensures ScopesOverlap(path, recursive, query, true)
        <==> exists file :: Canonical(file) && Components(query) <= Components(file) && Covers(path, recursive, file)
  {
    hide Canonical, Split;
    SlashPrefixIsComponentPrefix(path, query);
    if Components(path) == Components(query) {
      ComponentsInjective(path, query);
    }
    OverlapMeansSharedPath(path, recursive, query, true);
  }

  // ---- stability -----------------------------------------------------------------------------

  lemma {:induction false} TrimStartShrinks(s: string)
    ensures |TrimStart(s)| <= |s| && (|TrimStart(s)| == |s| ==> TrimStart(s) == s)
  {
    if s != [] && IsSpace(s[0]) {
      TrimStartShrinks(s[1..]);
    }
  }

  lemma {:induction false} TrimEndShrinks(s: string)
    ensures |TrimEnd(s)| <= |s| && (|TrimEnd(s)| == |s| ==> TrimEnd(s) == s)
  {
    if s != [] && IsSpace(s[|s| - 1]) {
      TrimEndShrinks(s[..|s| - 1]);
    }
  }

  lemma {:induction false} SignificantShrinks(parts: seq<string>)
    requires parts != [] && Significant(parts) != []
    ensures |Join(Significant(parts), '/')| <= |Join(parts, '/')|
  {
    if |parts| > 1 {
      assert parts == [parts[0]] + parts[1..];
      if Significant(parts[1..]) == [] {
        assert Significant(parts) == [parts[0]];
      } else {
        SignificantShrinks(parts[1..]);
        var rest := Significant(parts[1..]);
        assert Join(parts, '/') == parts[0] + ['/'] + Join(parts[1..], '/');
        if parts[0] != "" && parts[0] != "." {
          assert Significant(parts) == [parts[0]] + rest && ([parts[0]] + rest)[1..] == rest;
          assert Join([parts[0]] + rest, '/') == parts[0] + ['/'] + Join(rest, '/');
        } else {
          assert Significant(parts) == rest;
        }
      }
    } else {
      assert Significant(parts) == parts;
    }
  }

  lemma {:induction false} SignificantKeepsCanonical(parts: seq<string>)
    requires forall c | c in parts :: c != "" && c != "."
    ensures Significant(parts) == parts
  {
    if parts != [] {
      assert parts == [parts[0]] + parts[1..];
      assert parts[0] in parts && forall c | c in parts[1..] :: c in parts;
      SignificantKeepsCanonical(parts[1..]);
    }
  }

  lemma CanonicalStableIffTrimmed(path: string)
    requires Canonical(path) && Utf8Len(path) <= MAX_FILE_PATH_BYTES && '\\' !in path && Printable(path)
    ensures Normalize(path) == Ok(path) <==> Trim(path) == path
  {
    JoinSplit(path, '/');
    TrimStartShrinks(path);
    TrimEndShrinks(TrimStart(path));
    if Trim(path) == path {
      StartsWithSlash(path);
      SignificantKeepsCanonical(Components(path));
    } else if Normalize(path).Ok? {
      SignificantShrinks(Components(Trim(path)));
      JoinSplit(Trim(path), '/');
    }
  }

  lemma {:induction false} Utf8LenConcat(a: string, b: string)
    ensures Utf8Len(a + b) == Utf8Len(a) + Utf8Len(b)
  {
    if a == [] {
      assert a + b == b;
    } else {
      assert (a + b)[1..] == a[1..] + b;
      Utf8LenConcat(a[1..], b);
    }
  }

  lemma JoinBytes(first: string, rest: seq<string>)
    requires rest != []
    ensures Join([first] + rest, '/') == first + ['/'] + Join(rest, '/')
    ensures Utf8Len(Join([first] + rest, '/')) == Utf8Len(first) + 1 + Utf8Len(Join(rest, '/'))
  {
    assert ([first] + rest)[1..] == rest;
    Utf8LenConcat(first, ['/']);
    Utf8LenConcat(first + ['/'], Join(rest, '/'));
    assert ['/'][1..] == [] && Utf8Len(['/']) == 1;
  }

  /** Dropping components never lengthens the path. */
  lemma {:induction false} SignificantBytes(parts: seq<string>)
    requires Significant(parts) != []
    ensures Utf8Len(Join(Significant(parts), '/')) <= Utf8Len(Join(parts, '/'))
  {
    var first, rest := parts[0], parts[1..];
    assert parts == [first] + rest;
    if rest == [] {
      assert Significant(parts) == parts;
    } else {
      hide Utf8Len, Join;
      JoinBytes(first, rest);
      if Significant(rest) == [] {
        assert Significant(parts) == [first];
        SingleJoin(first);
      } else {
        SignificantBytes(rest);
        if first != "" && first != "." {
          assert Significant(parts) == [first] + Significant(rest);
          JoinBytes(first, Significant(rest));
        } else {
          assert Significant(parts) == Significant(rest);
        }
      }
    }
  }

  lemma SingleJoin(first: string)
    ensures Join([first], '/') == first
  {
  }

  lemma {:induction false} JoinCharacters(parts: seq<string>, c: char)
    requires parts != [] && c in Join(parts, '/') && c != '/'
    ensures exists i | 0 <= i < |parts| :: c in parts[i]
  {
    if |parts| > 1 && c !in parts[0] {
      assert c in Join(parts[1..], '/');
      JoinCharacters(parts[1..], c);
      var i :| 0 <= i < |parts[1..]| && c in parts[1..][i];
      assert c in parts[i + 1];
    }
  }

  /** A normal form is as short, as printable and as free of backslashes as what it came from. */
  lemma NormalFormIsPlain(value: string)
    ensures Normalize(value).Ok? ==>
        var path := Normalize(value).value;
        Utf8Len(path) <= MAX_FILE_PATH_BYTES && '\\' !in path && Printable(path)
  {
    if Normalize(value).Ok? {
      var trimmed, path := Trim(value), Normalize(value).value;
      var parts := Components(trimmed);
      hide Trim, Utf8Len, Join, Split;
      SignificantBytes(parts);
      JoinSplit(trimmed, '/');
      SplitPieces(trimmed, '/');
      SignificantMembers(parts);
      forall c | c in path
        ensures c == '/' || c in trimmed
      {
        if c != '/' {
          JoinCharacters(Significant(parts), c);
          var i :| 0 <= i < |Significant(parts)| && c in Significant(parts)[i];
          assert Significant(parts)[i] in parts;
          var j :| 0 <= j < |parts| && parts[j] == Significant(parts)[i];
        }
      }
    }
  }

  /**
   * Normalizing twice is normalizing once exactly when the normal form has no outer white space;
   * normalization trims only the outside of its input, so it can produce paths it would not keep.
   */
  lemma NormalizeStableIffTrimmed(value: string)
    ensures Normalize(value).Ok? ==>
        var path := Normalize(value).value;
        (Normalize(path) == Normalize(value) <==> Trim(path) == path)
  {
    hide Normalize, Canonical, Trim, Utf8Len;
    NormalizeIsCanonical(value);
    NormalFormIsPlain(value);
    if Normalize(value).Ok? {
      CanonicalStableIffTrimmed(Normalize(value).value);
    }
  }

  lemma StartsWithSlash(path: string)
    ensures path == "" || path[0] == '/' ==> "" in Components(path)
  {
    if path == "" || path[0] == '/' {
      assert Components(path)[0] == "";
    }
  }

  /** The case in point: `./ a` normalizes to ` a`, which normalizes to `a`. */
  lemma NormalizeNotIdempotent()
    ensures Normalize("./ a") == Ok(" a") && Normalize(" a") == Ok("a")
  {
    var value := "./ a";
    assert TrimEnd(value) == value && TrimStart(value) == value;
    assert Split(" a", '/') == [" a"] by { SplitFree(" a", '/'); }
    assert Split(".", '/') == ["."] by { SplitFree(".", '/'); }
    assert value == "." + ['/'] + " a";
    SplitConcat(".", " a", '/');
    assert Components(value) == [".", " a"];
    assert Significant([" a"]) == [" a"];
    assert [".", " a"][1..] == [" a"];
    assert Utf8Len(value) == 4 by {
      assert value[1..] == "/ a" && value[1..][1..] == " a" && value[1..][1..][1..] == "a";
    }
    assert " a"[1..] == "a" && TrimStart(" a") == "a" && TrimEnd("a") == "a";
    SplitFree("a", '/');
    assert Significant(["a"]) == ["a"];
  }

  // ---- repositories ------------------------------------------------------------------------------

  datatype RepositoryError = RepositoryRequired | RepositoryTooLong | RepositoryUnprintable

  function TrimEndSlashes(s: string): string {
    if s != [] && s[|s| - 1] == '/' then TrimEndSlashes(s[..|s| - 1]) else s
  }

  function NormalizeRepository(value: string): Result<string, RepositoryError> {
    var trimmed := TrimEndSlashes(Trim(value));
    if trimmed == "" then Err(RepositoryRequired)
    else if Utf8Len(trimmed) > MAX_REPOSITORY_BYTES then Err(RepositoryTooLong)
    else if !Printable(trimmed) then Err(RepositoryUnprintable)
    else Ok(trimmed)
  }

  lemma {:induction false} TrimEndSlashesMeans(s: string)
    ensures var t := TrimEndSlashes(s);
      && t <= s && (t == "" || t[|t| - 1] != '/')
      && forall i | |t| <= i < |s| :: s[i] == '/'
  {
    if s != [] && s[|s| - 1] == '/' {
      TrimEndSlashesMeans(s[..|s| - 1]);
    }
  }

  /** A repository name loses outer white space, then trailing slashes, and nothing else; what is left must be plain. */
  lemma RepositoryMeans(value: string)
    ensures var trimmed, r := Trim(value), NormalizeRepository(value);
      && (r.Ok? ==>
            && r.value != "" && r.value <= trimmed && r.value[|r.value| - 1] != '/'
            && (forall i | |r.value| <= i < |trimmed| :: trimmed[i] == '/')
            && Utf8Len(r.value) <= 512 && Printable(r.value))
      && (r == Err(RepositoryRequired) <==> forall c | c in trimmed :: c == '/')
      && (r == Err(RepositoryUnprintable) ==> !Printable(trimmed))
      && (r == Err(RepositoryTooLong) ==> Utf8Len(trimmed) > 512)
  {
    hide Trim;
    var trimmed := Trim(value);
    var t := TrimEndSlashes(trimmed);
    TrimEndSlashesMeans(trimmed);
    assert t != "" ==> t[|t| - 1] in trimmed;
    assert trimmed == t + trimmed[|t|..];
    Utf8LenConcat(t, trimmed[|t|..]);
    assert forall c | c in t :: c in trimmed;
    if t == "" {
      assert forall i | 0 <= i < |trimmed| :: trimmed[i] == '/';
    }
  }
}
