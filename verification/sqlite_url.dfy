// The database-path part of `sqlite_path`: the regular expression
// `^sqlite[^/]*://[^/]*/(.*)$` applied with `re.search`, and the rule that an
// empty path or `:memory:` means there is no database file.
module SqliteUrl {
  import opened Wrappers

  predicate NoChar(s: string, c: char)
  {
    forall i :: 0 <= i < |s| ==> s[i] != c
  }

  /** The first index at or after `from` holding `c`, or `|s|` when there is none. */
  function IndexOf(s: string, c: char, from: nat): (k: nat)
    requires from <= |s|
    ensures from <= k <= |s|
    ensures k < |s| ==> s[k] == c
    ensures NoChar(s[from..k], c)
    decreases |s| - from
  {
    if from == |s| || s[from] == c then from
    else
      var k := IndexOf(s, c, from + 1);
      assert forall i :: 0 <= i < k - from ==> s[from..k][i] == (if i == 0 then s[from] else s[from + 1..k][i - 1]);
      k
  }

  /** What `(.*)$` captures on the rest of the text: `.` does not match a line
      feed, and `$` matches at the very end or just before a final line feed.
      The capture is the rest of the text less at most a final line feed. */
  function CaptureToEnd(rest: string): (r: Option<string>)
    ensures NoChar(rest, '\n') ==> r == Some(rest)
    ensures r.Some? ==> NoChar(r.value, '\n')
    ensures r.Some? ==> rest == r.value + "" || rest == r.value + "\n"
  {
    if NoChar(rest, '\n') then Some(rest)
    else if |rest| > 0 && rest[|rest| - 1] == '\n' && NoChar(rest[..|rest| - 1], '\n') then
      assert rest == rest[..|rest| - 1] + "\n";
      Some(rest[..|rest| - 1])
    else None
  }

  /** The group the regular expression captures, or `None` when it does not
      match: on a match the URL starts with `sqlite` and the group is one line. */
  function MatchPath(url: string): (r: Option<string>)
    ensures r.Some? ==> |url| >= 10 && url[..6] == "sqlite" && NoChar(r.value, '\n')
  {
    if |url| < 6 || url[..6] != "sqlite" then None
    else
      var p := IndexOf(url, '/', 6);
      if p + 1 >= |url| || url[p - 1] != ':' || url[p + 1] != '/' then None
      else
        var q := IndexOf(url, '/', p + 2);
        if q == |url| then None
        else
          assert url[5] == url[..6][5];
          CaptureToEnd(url[q + 1..])
  }

  /** The database file path of a session's URL, or `None` for another kind of
      database, a URL that does not match, or an in-memory SQLite database. */
  function SqlitePath(url: string): (r: Option<string>)
    ensures r.Some? ==> r.value != "" && r.value != ":memory:" && MatchPath(url) == r
    ensures r.None? ==> MatchPath(url).None? || MatchPath(url) == Some("") || MatchPath(url) == Some(":memory:")
  {
    match MatchPath(url)
    case None => None
    case Some(path) => if path == "" || path == ":memory:" then None else Some(path)
  }

  /** The URL has the form the regular expression describes, with `path` as the
      captured group: `sqlite`, a scheme suffix without slashes, `://`, a host
      part without slashes, `/`, then the path on one line, optionally followed
      by a final line feed. */
  predicate Shaped(url: string, a: string, b: string, path: string, tail: string)
  {
    && url == "sqlite" + a + "://" + b + "/" + path + tail
    && NoChar(a, '/') && NoChar(b, '/') && NoChar(path, '\n')
    && (tail == "" || tail == "\n")
  }

  lemma IndexOfIs(s: string, c: char, from: nat, k: nat)
    requires from <= k < |s| && s[k] == c && NoChar(s[from..k], c)
    ensures IndexOf(s, c, from) == k
  {
    var r := IndexOf(s, c, from);
    assert forall i :: from <= i < k ==> s[i] == s[from..k][i - from];
    assert forall i :: from <= i < r ==> s[i] == s[from..r][i - from];
  }

  lemma CaptureShaped(path: string, tail: string)
    requires NoChar(path, '\n') && (tail == "" || tail == "\n")
    ensures CaptureToEnd(path + tail) == Some(path)
  {
    var rest := path + tail;
    if tail == "\n" {
      assert rest[|rest| - 1] == '\n';
      assert rest[..|rest| - 1] == path;
    } else {
      assert rest == path;
    }
  }

  /** The pieces of a shaped URL, by position. */
  lemma ShapedPieces(url: string, a: string, b: string, path: string, tail: string)
    requires Shaped(url, a, b, path, tail)
    ensures var p, q := 7 + |a|, 9 + |a| + |b|;
      && q < |url|
      && url[..6] == "sqlite" && url[6..p - 1] == a && url[p - 1] == ':' && url[p] == '/'
      && url[p + 1] == '/' && url[p + 2..q] == b && url[q] == '/' && url[q + 1..] == path + tail
  {
    var p, q := 7 + |a|, 9 + |a| + |b|;
    var u1 := "sqlite" + a;
    var u2 := u1 + "://" + b;
    assert url == u2 + "/" + (path + tail);
    assert url[..|u2|] == u2 && url[|u2| + 1..] == path + tail;
    assert u2[..|u1|] == u1 && u2[|u1| + 3..] == b;
    assert u1[..6] == "sqlite" && u1[6..] == a;
  }

  /** A URL assembled from the pieces the matcher finds. */
  lemma AssemblePieces(url: string, p: int, q: int)
    requires 7 <= p && p + 2 <= q < |url|
    requires url[..6] == "sqlite" && url[p - 1] == ':' && url[p] == '/' && url[p + 1] == '/' && url[q] == '/'
    ensures url == "sqlite" + url[6..p - 1] + "://" + url[p + 2..q] + "/" + url[q + 1..]
  {
    assert url[p - 1..p + 2] == "://";
    assert url[q..q + 1] == "/";
    assert url == url[..6] + url[6..p - 1] + url[p - 1..p + 2] + url[p + 2..q] + url[q..q + 1] + url[q + 1..];
  }

  lemma NoCharPrefix(s: string, c: char, n: nat)
    requires n <= |s| && NoChar(s, c)
    ensures NoChar(s[..n], c)
  {
    assert forall i :: 0 <= i < n ==> s[..n][i] == s[i];
  }

  /** Whenever the regular expression matches, the URL has the described form
      with the captured group as its path. */
  lemma MatchSound(url: string)
    requires MatchPath(url).Some?
    ensures exists a, b, tail :: Shaped(url, a, b, MatchPath(url).value, tail)
  {
    var p := IndexOf(url, '/', 6);
    var q := IndexOf(url, '/', p + 2);
    var path := MatchPath(url).value;
    var tail: string := if url[q + 1..] == path + "" then "" else "\n";
    NoCharPrefix(url[6..p], '/', p - 7);
    assert url[6..p][..p - 7] == url[6..p - 1];
    AssemblePieces(url, p, q);
    assert Shaped(url, url[6..p - 1], url[p + 2..q], path, tail);
  }

  /** A URL of the described form matches, and the captured group is its path. */
  lemma MatchComplete(url: string, a: string, b: string, path: string, tail: string)
    requires Shaped(url, a, b, path, tail)
    ensures MatchPath(url) == Some(path)
  {
    var p, q := 7 + |a|, 9 + |a| + |b|;
    ShapedPieces(url, a, b, path, tail);
    assert NoChar(url[6..p], '/') by {
      assert url[6..p] == a + [':'];
    }
    IndexOfIs(url, '/', 6, p);
    IndexOfIs(url, '/', p + 2, q);
    CaptureShaped(path, tail);
  }

  /** `sqlite_path` returns a path exactly for the URLs of the described form
      whose path is neither empty nor `:memory:`. */
  lemma SqlitePathShaped(url: string, a: string, b: string, path: string, tail: string)
    requires Shaped(url, a, b, path, tail)
    ensures SqlitePath(url) == if path == "" || path == ":memory:" then None else Some(path)
  {
    MatchComplete(url, a, b, path, tail);
  }

  lemma SqlitePathSome(url: string)
    requires SqlitePath(url).Some?
    ensures exists a, b, tail :: Shaped(url, a, b, SqlitePath(url).value, tail)
    ensures SqlitePath(url).value != "" && SqlitePath(url).value != ":memory:"
  {
    MatchSound(url);
  }

  /** `sqlite_path` returns `None` exactly when no decomposition of the URL has
      a usable path. */
  lemma SqlitePathNone(url: string)
    ensures SqlitePath(url).None? <==>
      forall a, b, path, tail :: Shaped(url, a, b, path, tail) ==> path == "" || path == ":memory:"
  {
    if SqlitePath(url).None? {
      forall a, b, path, tail | Shaped(url, a, b, path, tail)
        ensures path == "" || path == ":memory:"
      {
        SqlitePathShaped(url, a, b, path, tail);
      }
    } else {
      SqlitePathSome(url);
    }
  }

  /** A relative database file in the URL's path. */
  lemma ExampleFilePath(url: string)
    requires url == "sqlite:///testdb.sqlite"
    ensures SqlitePath(url) == Some("testdb.sqlite")
  {
    assert url == "sqlite" + "" + "://" + "" + "/" + "testdb.sqlite" + "";
    assert NoChar("testdb.sqlite", '\n');
    SqlitePathShaped(url, "", "", "testdb.sqlite", "");
  }

  /** An in-memory database has no file. */
  lemma ExampleMemory(url: string)
    requires url == "sqlite:///:memory:"
    ensures SqlitePath(url) == None
  {
    assert url == "sqlite" + "" + "://" + "" + "/" + ":memory:" + "";
    assert NoChar(":memory:", '\n');
    SqlitePathShaped(url, "", "", ":memory:", "");
  }
}
