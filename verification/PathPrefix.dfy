/** Prefix matching of URL paths (URLFunctions::matchPrefix). */
module PathPrefix {
  import opened Sequences

  // ---------- What a match means ----------

  // A slash at both ends, except for the empty path.
  function Normalize(p: string): string {
    if p == [] then []
    else (if p[0] != '/' then ['/'] else []) + p + (if p[|p| - 1] != '/' then ['/'] else [])
  }

  predicate Slashed(s: string) {
    s == [] || s[|s| - 1] == '/'
  }

  function FirstSlash(s: string): (k: nat)
    requires s != [] && Slashed(s)
    ensures k < |s| && s[k] == '/' && forall i | 0 <= i < k :: s[i] != '/'
  {
    if s[0] == '/' then 0 else 1 + FirstSlash(s[1..])
  }

  function FirstPiece(s: string): string
    requires s != [] && Slashed(s)
  {
    s[..FirstSlash(s)]
  }

  function OtherPieces(s: string): (r: string)
    requires s != [] && Slashed(s)
    ensures |r| < |s| && Slashed(r)
  {
    s[FirstSlash(s) + 1..]
  }

  // The pieces of s, each ended by a slash.
  function Pieces(s: string): seq<string>
    requires Slashed(s)
    decreases |s|
  {
    if s == [] then [] else [FirstPiece(s)] + Pieces(OtherPieces(s))
  }

  // The segments of a path: what stands between the slashes of its normal form.
  function Segments(p: string): seq<string> {
    if p == [] then [] else Pieces(Normalize(p)[1..])
  }

  // Segment-wise prefix; only the empty prefix matches the empty path.
  predicate Matches(path: string, prefix: string) {
    prefix == [] || (path != [] && Segments(prefix) <= Segments(path))
  }

  // ---------- The original, with its string searches ----------

  // std::string::find: the first position at which needle stands in s, if any.
  method Find(s: string, needle: string) returns (found: bool, pos: nat)
    ensures found ==> pos <= |s| && needle <= s[pos..]
    ensures forall j | 0 <= j <= |s| && (found ==> j < pos) :: !(needle <= s[j..])
  {
    pos := 0;
    while pos + |needle| <= |s|
      invariant pos <= |s| + 1
      invariant forall j | 0 <= j < pos && j <= |s| :: !(needle <= s[j..])
    {
      if s[pos..pos + |needle|] == needle {
        return true, pos;
      }
      pos := pos + 1;
    }
    found := false;
  }

  // The slashes at both sides; matchPrefix writes this out for each of its two arguments.
  method AddSlashes(path: string) returns (normalized: string)
    ensures normalized == Normalize(path)
  {
    normalized := path;
    if path != [] && path[0] != '/' {
      normalized := ['/'] + normalized;
    }
    if path != [] && path[|path| - 1] != '/' {
      normalized := normalized + ['/'];
    }
  }

  method MatchPrefix(urlPath: string, pathPrefix: string) returns (matched: bool)
    ensures matched == Matches(urlPath, pathPrefix)
  {
    var pathNormalized := AddSlashes(urlPath);
    var prefixNormalized := AddSlashes(pathPrefix);
    var found, pos := Find(pathNormalized, prefixNormalized);
    assert pathNormalized[0..] == pathNormalized;
    MatchesIffNormalPrefix(urlPath, pathPrefix);
    return found && pos == 0;
  }

  // ---------- Text prefixes are segment prefixes ----------

  // One piece at the front: the pieces agree there and the prefix relation passes to the rests.
  lemma PrefixPastSlash(p: string, u: string)
    requires Slashed(p) && Slashed(u) && p != [] && u != []
    ensures p <= u <==> FirstPiece(p) == FirstPiece(u) && OtherPieces(p) <= OtherPieces(u)
  {
    var k, j := FirstSlash(p), FirstSlash(u);
    assert p == p[..k] + ['/'] + p[k + 1..];
    assert u == u[..j] + ['/'] + u[j + 1..];
    if p <= u {
      assert u[k] == p[k] == '/';
    }
  }

  lemma PrefixOfCons<T>(a: T, x: seq<T>, b: T, y: seq<T>)
    ensures [a] + x <= [b] + y <==> a == b && x <= y
  {
    if [a] + x <= [b] + y {
      assert ([a] + x)[0] == ([b] + y)[0];
      assert x == ([a] + x)[1..] && y == ([b] + y)[1..];
    }
  }

  lemma {:induction false} PrefixOfPieces(p: string, u: string)
    requires Slashed(p) && Slashed(u)
    ensures p <= u <==> Pieces(p) <= Pieces(u)
    decreases |p|
  {
    if p != [] && u != [] {
      PrefixPastSlash(p, u);
      PrefixOfPieces(OtherPieces(p), OtherPieces(u));
      PrefixOfCons(FirstPiece(p), Pieces(OtherPieces(p)), FirstPiece(u), Pieces(OtherPieces(u)));
    }
  }

  lemma NormalForm(p: string)
    requires p != []
    ensures Normalize(p) != [] && Normalize(p) == ['/'] + Normalize(p)[1..] && Slashed(Normalize(p)[1..])
  {}

  /** The textual test on normal forms decides the segment-wise relation. */
  lemma MatchesIffNormalPrefix(path: string, prefix: string)
    ensures Matches(path, prefix) <==> Normalize(prefix) <= Normalize(path)
  {
    if path != [] && prefix != [] {
      NormalForm(path);
      NormalForm(prefix);
      var u, p := Normalize(path)[1..], Normalize(prefix)[1..];
      PrefixOfPieces(p, u);
      PrefixOfCons('/', p, '/', u);
    } else if prefix != [] {
      NormalForm(prefix);
    }
  }

  lemma MatchesIsPreorder(a: string, b: string, c: string)
    ensures Matches(a, a)
    ensures Matches(a, b) && Matches(b, c) ==> Matches(a, c)
    ensures Matches(a, b) && Matches(b, a) <==> Normalize(a) == Normalize(b)
  {
    MatchesIffNormalPrefix(a, a);
    MatchesIffNormalPrefix(a, b);
    MatchesIffNormalPrefix(b, a);
    MatchesIffNormalPrefix(b, c);
    MatchesIffNormalPrefix(a, c);
  }

  // ---------- Slashes and segments ----------

  lemma LeadOptional(a: string)
    requires a != [] && a[0] != '/'
    ensures Normalize(['/'] + a) == Normalize(a)
  {
    var p := ['/'] + a;
    assert p[|p| - 1] == a[|a| - 1];
  }

  lemma TrailOptional(a: string)
    requires a != [] && a[|a| - 1] != '/'
    ensures Normalize(a + ['/']) == Normalize(a)
  {
    var p := a + ['/'];
    assert p[0] == a[0];
    Assoc(if a[0] != '/' then ['/'] else [], a, ['/']);
  }

  // Paths with the same normal form have the same segments, and match the same.
  lemma SameNormalForm(a: string, b: string, other: string)
    requires Normalize(a) == Normalize(b) && a != [] && b != []
    ensures Segments(a) == Segments(b)
    ensures Matches(a, other) == Matches(b, other) && Matches(other, a) == Matches(other, b)
  {}

  /** A slash may be missing at either end: the path with it has the same segments, and matches the same. */
  lemma SlashesOptional(a: string, other: string)
    requires a != []
    ensures a[0] != '/' ==> Segments(['/'] + a) == Segments(a)
    ensures a[0] != '/' ==> (Matches(['/'] + a, other) <==> Matches(a, other))
    ensures a[0] != '/' ==> (Matches(other, ['/'] + a) <==> Matches(other, a))
    ensures a[|a| - 1] != '/' ==> Segments(a + ['/']) == Segments(a)
    ensures a[|a| - 1] != '/' ==> (Matches(a + ['/'], other) <==> Matches(a, other))
    ensures a[|a| - 1] != '/' ==> (Matches(other, a + ['/']) <==> Matches(other, a))
  {
    if a[0] != '/' {
      LeadOptional(a);
      SameNormalForm(['/'] + a, a, other);
    }
    if a[|a| - 1] != '/' {
      TrailOptional(a);
      SameNormalForm(a + ['/'], a, other);
    }
  }

  predicate SlashFree(s: string) {
    forall i | 0 <= i < |s| :: s[i] != '/'
  }

  // A slash after each segment.
  function Ended(segments: seq<string>): (s: string)
    ensures Slashed(s) && (s == [] <==> segments == [])
  {
    if segments == [] then [] else segments[0] + (['/'] + Ended(segments[1..]))
  }

  // The path with these segments: a slash before each.
  function PathOf(segments: seq<string>): string {
    if segments == [] then [] else Front(['/'] + Ended(segments))
  }

  // Segments hold no slash, and a path does not end in an empty one.
  predicate Proper(segments: seq<string>) {
    && (forall i | 0 <= i < |segments| :: SlashFree(segments[i]))
    && (segments != [] ==> Last(segments) != [])
  }

  lemma EndedCons(t: string, rest: seq<string>)
    ensures Ended([t] + rest) == t + (['/'] + Ended(rest))
  {
    assert ([t] + rest)[1..] == rest;
  }

  lemma SlashAt(t: string, rest: string)
    requires SlashFree(t) && Slashed(t + (['/'] + rest)) && Slashed(rest)
    ensures FirstPiece(t + (['/'] + rest)) == t && OtherPieces(t + (['/'] + rest)) == rest
  {
    var s := t + (['/'] + rest);
    assert s[|t|] == '/';
    assert forall i | 0 <= i < |t| :: s[i] == t[i];
    assert FirstSlash(s) == |t|;
  }

  lemma PiecesCons(t: string, rest: string)
    requires SlashFree(t) && Slashed(t + (['/'] + rest)) && Slashed(rest)
    ensures Pieces(t + (['/'] + rest)) == [t] + Pieces(rest)
  {
    SlashAt(t, rest);
  }

  lemma {:induction false} PiecesOfEnded(segments: seq<string>)
    requires forall i | 0 <= i < |segments| :: SlashFree(segments[i])
    ensures Pieces(Ended(segments)) == segments
    decreases |segments|
  {
    if segments != [] {
      PiecesOfEnded(segments[1..]);
      PiecesCons(segments[0], Ended(segments[1..]));
      HeadTail(segments);
    }
  }

  lemma CutAtSlash(s: string)
    requires s != [] && Slashed(s)
    ensures s == FirstPiece(s) + (['/'] + OtherPieces(s)) && SlashFree(FirstPiece(s))
  {}

  lemma {:induction false} EndedOfPieces(s: string)
    requires Slashed(s)
    ensures Ended(Pieces(s)) == s
    decreases |s|
  {
    if s != [] {
      EndedOfPieces(OtherPieces(s));
      EndedCons(FirstPiece(s), Pieces(OtherPieces(s)));
      CutAtSlash(s);
    }
  }

  lemma {:induction false} PiecesAreSlashFree(s: string, i: nat)
    requires Slashed(s) && i < |Pieces(s)|
    ensures SlashFree(Pieces(s)[i])
    decreases |s|
  {
    if i == 0 {
      CutAtSlash(s);
    } else {
      PiecesAreSlashFree(OtherPieces(s), i - 1);
    }
  }

  lemma {:induction false} EndOfEnded(segments: seq<string>)
    requires Proper(segments) && segments != []
    ensures |Ended(segments)| >= 2 && Ended(segments)[|Ended(segments)| - 2] != '/'
    decreases |segments|
  {
    var t, rest := segments[0], segments[1..];
    if rest == [] {
      assert Ended(segments) == t + ['/'];
    } else {
      EndOfEnded(rest);
    }
  }

  lemma NormalizeAbsolute(p: string)
    requires p != [] && p[0] == '/' && Last(p) != '/'
    ensures Normalize(p) == p + ['/']
  {
    assert [] + p == p;
  }

  lemma NormalPath(segments: seq<string>)
    requires Proper(segments) && segments != []
    ensures PathOf(segments) != [] && Normalize(PathOf(segments)) == ['/'] + Ended(segments)
  {
    EndOfEnded(segments);
    var e := ['/'] + Ended(segments);
    var p := Front(e);
    assert Last(p) == Ended(segments)[|Ended(segments)| - 2];
    NormalizeAbsolute(p);
    assert Last(e) == '/' && e == p + ['/'];
  }

  lemma SegmentsOf(segments: seq<string>)
    requires Proper(segments)
    ensures Segments(PathOf(segments)) == segments && (PathOf(segments) == [] <==> segments == [])
  {
    if segments != [] {
      NormalPath(segments);
      PiecesOfEnded(segments);
      assert (['/'] + Ended(segments))[1..] == Ended(segments);
    }
  }

  /** The segments of a path are what it was put together from, and a path matches a prefix exactly when
      the prefix's segments come first among its own. */
  lemma SegmentsOfPath(a: seq<string>, b: seq<string>)
    requires Proper(a) && Proper(b)
    ensures Segments(PathOf(a)) == a
    ensures Matches(PathOf(a), PathOf(b)) <==> b <= a
  {
    SegmentsOf(a);
    SegmentsOf(b);
  }

  /** Any path is put together again from its segments, which hold no slash: this gives its normal form. */
  lemma PathOfSegments(p: string)
    requires p != []
    ensures ['/'] + Ended(Segments(p)) == Normalize(p)
    ensures forall i | 0 <= i < |Segments(p)| :: SlashFree(Segments(p)[i])
  {
    NormalForm(p);
    EndedOfPieces(Normalize(p)[1..]);
    forall i | 0 <= i < |Segments(p)|
      ensures SlashFree(Segments(p)[i])
    {
      PiecesAreSlashFree(Normalize(p)[1..], i);
    }
  }

  // ---------- Agreement with the API path of the server ----------

  // Http2Server::getApiPath
  function ApiPath(name: string, version: string): string {
    if name == [] then []
    else ['/'] + name + (if version == [] then [] else ['/'] + version)
  }

  // The slash, if any, that normalization puts before a path, and the one it puts after it.
  function Lead(p: string): string {
    if p != [] && p[0] != '/' then ['/'] else []
  }

  function Trail(p: string): string {
    if p != [] && p[|p| - 1] != '/' then ['/'] else []
  }

  lemma PrefixAfter(b: string, x: string, y: string)
    ensures b + x <= b + y <==> x <= y
  {
    if b + x <= b + y {
      assert x == (b + x)[|b|..] && y == (b + y)[|b|..];
    }
  }

  /** Text put after a path keeps the match exactly when it does not lengthen the last segment. */
  lemma ExtensionMatches(p: string, tail: string)
    requires p != []
    ensures Matches(p + tail, p) <==> p[|p| - 1] == '/' || tail == [] || tail[0] == '/'
  {
    MatchesIffNormalPrefix(p + tail, p);
    var b, t := Lead(p) + p, Trail(p + tail);
    assert Normalize(p) == b + Trail(p);
    assert Normalize(p + tail) == b + (tail + t) by {
      Assoc(Lead(p), p, tail);
      Assoc(b, tail, t);
    }
    PrefixAfter(b, Trail(p), tail + t);
    if tail == [] {
      assert p + tail == p;
      assert tail + t == t;
    } else {
      assert (tail + t)[0] == tail[0];
    }
  }

  /** A version is matched whole: version 1 of an API answers for its own paths and not for version 10. */
  lemma ApiPathSelectsVersion(name: string, version: string, tail: string)
    requires name != [] && version != [] && version[|version| - 1] != '/'
    ensures Matches(ApiPath(name, version) + tail, ApiPath(name, version)) <==> tail == [] || tail[0] == '/'
    ensures Matches(ApiPath(name, version) + tail, ApiPath(name, []))
  {
    var v := ['/'] + version;
    assert ApiPath(name, []) == ['/'] + name;
    ExtensionMatches(ApiPath(name, version), tail);
    Assoc(['/'] + name, v, tail);
    ExtensionMatches(['/'] + name, v + tail);
  }

  lemma PathOfTwo(name: string, version: string)
    ensures PathOf([name, version]) == ['/'] + name + (['/'] + version)
  {
    assert [name, version][1..] == [version];
    assert Ended([version]) == version + (['/'] + []) == version + ['/'];
    var e := ['/'] + (name + (['/'] + (version + ['/'])));
    assert ['/'] + Ended([name, version]) == e;
    assert Front(e) == ['/'] + name + (['/'] + version);
  }

  /** The API path has the name and the version for its segments. */
  lemma ApiPathSegments(name: string, version: string)
    requires name != [] && version != [] && SlashFree(name) && SlashFree(version)
    ensures Segments(ApiPath(name, version)) == [name, version]
  {
    PathOfTwo(name, version);
    SegmentsOf([name, version]);
  }
}
