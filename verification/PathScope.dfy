/** The segment-aware path prefix test of a token's coarse scope. */
module PathScope {
  import opened ByteStrings

  const ROOT: Bytes := [SLASH]

  function OrRoot(path: Bytes): Bytes {
    if path == [] then ROOT else path
  }

  predicate PathInScope(requestPath: Bytes, scopePrefix: Bytes) {
    var path, prefix := OrRoot(requestPath), OrRoot(scopePrefix);
    if prefix == ROOT then
      ROOT <= path
    else
      || path == prefix
      || if EndsWith(prefix, ROOT) then
           prefix <= path
         else
           match StripPrefix(path, prefix)
           case Some(rest) => ROOT <= rest
           case None => false
  }

  function Segments(path: Bytes): (r: seq<Bytes>)
    ensures |r| >= 1
  {
    Split(if path == [] then [47] else path, 47)
  }

  /**
   The meaning of the test, on lists of segments. A scope that ends in '/' (its last
   segment is empty) names a directory: a further segment must follow.
   */
  predicate SegmentsInScope(path: seq<Bytes>, scope: seq<Bytes>)
    requires |scope| >= 1
  {
    var last := |scope| - 1;
    if scope[last] == [] then scope[..last] < path else scope <= path
  }

  lemma {:induction false} LastSegmentEmpty(s: Bytes)
    ensures Split(s, SLASH)[|Split(s, SLASH)| - 1] == [] <==> s == [] || EndsWith(s, ROOT)
  {
    if s != [] {
      LastSegmentEmpty(s[1..]);
      var n := |s| - 1;
      if |s| > 1 {
        assert s[1..][|s[1..]| - 1..] == s[n..];
      }
    }
  }

  lemma DirectoryText(prefix: Bytes)
    requires EndsWith(prefix, ROOT)
    ensures prefix == prefix[..|prefix| - 1] + [SLASH] + []
  {
    assert prefix == prefix[..|prefix| - 1] + prefix[|prefix| - 1..];
  }

  lemma DirectorySegments(prefix: Bytes)
    requires EndsWith(prefix, ROOT)
    ensures Split(prefix, SLASH) == Split(prefix[..|prefix| - 1], SLASH) + [[]]
  {
    var q := prefix[..|prefix| - 1];
    SplitAtSeparator(q, [], SLASH);
    DirectoryText(prefix);
  }

  /** Paths count as they are written; only the empty path stands for "/". */
  predicate SamePath(a: Bytes, b: Bytes) {
    a == b || (a == [] && b == [47]) || (a == [47] && b == [])
  }

  lemma PathAsWritten(path: Bytes)
    ensures OrRoot(path) == if path == [] then [47] else path
  {
  }

  lemma OrRootFibres(a: Bytes, b: Bytes)
    ensures OrRoot(a) == OrRoot(b) <==> SamePath(a, b)
  {
  }

  /** An empty path or scope is tested as "/". */
  lemma EmptyIsRoot(path: Bytes, scope: Bytes)
    ensures PathInScope([], scope) <==> PathInScope([47], scope)
    ensures PathInScope(path, []) <==> PathInScope(path, [47])
  {
  }

  /** The byte test and the segment test agree on all strings. */
  lemma PathInScopeIsSegmentPrefix(path: Bytes, scope: Bytes)
    ensures PathInScope(path, scope) <==> SegmentsInScope(Segments(path), Segments(scope))
  {
    var p, s := OrRoot(path), OrRoot(scope);
    LastSegmentEmpty(s);
    if EndsWith(s, ROOT) {
      var q := s[..|s| - 1];
      DirectorySegments(s);
      assert Segments(scope)[..|Segments(scope)| - 1] == Split(q, SLASH);
      SplitProperPrefix(p, q, SLASH);
      assert q + [SLASH] == s;
    } else {
      SplitPrefix(p, s, SLASH);
      ByteTest(p, s);
    }
  }

  lemma ByteTest(p: Bytes, s: Bytes)
    requires s != [] && p != [] && !EndsWith(s, ROOT)
    ensures PathInScope(p, s) <==> p == s || s + [SLASH] <= p
  {
  }

  /** Every path lies in its own scope, whatever its spelling. */
  lemma PathInScopeReflexive(path: Bytes)
    ensures PathInScope(path, path)
  {
  }

  /** Narrowing composes: a path in a scope that lies in a wider scope lies in the wider scope. */
  lemma PathInScopeTransitive(path: Bytes, narrow: Bytes, wide: Bytes)
    requires PathInScope(path, narrow) && PathInScope(narrow, wide)
    ensures PathInScope(path, wide)
  {
  }

  /** Two scopes that contain each other are the same path, up to "" for "/". */
  lemma PathInScopeAntisymmetric(a: Bytes, b: Bytes)
    requires PathInScope(a, b) && PathInScope(b, a)
    ensures SamePath(a, b)
  {
  }
}
