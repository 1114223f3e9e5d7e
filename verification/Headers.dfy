/** Header lookup, and what removing a header leaves of a request's headers. */
module Headers {
  import opened ByteStrings

  type Header = (Bytes, Bytes)

  /** The values of every header of that name, in any case, in order. */
  function Matches(headers: seq<Header>, name: Bytes): seq<Bytes> {
    if headers == [] then []
    else if EqIgnoreCase(headers[0].0, name) then [headers[0].1] + Matches(headers[1..], name)
    else Matches(headers[1..], name)
  }

  datatype HeaderLookup = Missing | One(value: Bytes) | Many

  function LookupOf(values: seq<Bytes>): HeaderLookup {
    if |values| == 0 then Missing else if |values| == 1 then One(values[0]) else Many
  }

  lemma {:induction false} MatchesAppend(a: seq<Header>, b: seq<Header>, name: Bytes)
    ensures Matches(a + b, name) == Matches(a, name) + Matches(b, name)
  {
    if a == [] {
      assert a + b == b;
    } else {
      assert (a + b)[1..] == a[1..] + b;
      MatchesAppend(a[1..], b, name);
    }
  }

  lemma MatchesNext(headers: seq<Header>, name: Bytes, i: nat)
    requires i < |headers|
    ensures Matches(headers[..i + 1], name) ==
            Matches(headers[..i], name) + if EqIgnoreCase(headers[i].0, name) then [headers[i].1] else []
    ensures Matches(headers, name) == Matches(headers[..i + 1], name) + Matches(headers[i + 1..], name)
  {
    assert headers[..i + 1] == headers[..i] + [headers[i]];
    MatchesAppend(headers[..i], [headers[i]], name);
    assert headers == headers[..i + 1] + headers[i + 1..];
    MatchesAppend(headers[..i + 1], headers[i + 1..], name);
  }

  /** Stops at the second match; the answer is still that of the full count. */
  method FindTokenHeader(headers: seq<Header>, nameLower: Bytes) returns (r: HeaderLookup)
    ensures r == LookupOf(Matches(headers, nameLower))
  {
    var found: Option<Bytes> := None;
    var i := 0;
    while i < |headers|
      invariant 0 <= i <= |headers|
      invariant Matches(headers[..i], nameLower) == if found.Some? then [found.value] else []
    {
      MatchesNext(headers, nameLower, i);
      if EqIgnoreCase(headers[i].0, nameLower) {
        if found.Some? {
          return Many;
        }
        found := Some(headers[i].1);
      }
      i := i + 1;
    }
    assert headers[..i] == headers;
    match found {
      case Some(v) => r := One(v);
      case None => r := Missing;
    }
  }

  /** The first match. */
  function FindHeader(headers: seq<Header>, nameLower: Bytes): Option<Bytes> {
    if headers == [] then None
    else if EqIgnoreCase(headers[0].0, nameLower) then Some(headers[0].1)
    else FindHeader(headers[1..], nameLower)
  }

  lemma {:induction false} FindHeaderIsFirst(headers: seq<Header>, name: Bytes)
    ensures var values := Matches(headers, name);
            FindHeader(headers, name) == if values == [] then None else Some(values[0])
  {
    if headers != [] && !EqIgnoreCase(headers[0].0, name) {
      FindHeaderIsFirst(headers[1..], name);
    }
  }

  /** One of the names is the header's, in any case. */
  predicate Removed(header: Header, names: seq<Bytes>) {
    exists n | n in names :: EqIgnoreCase(header.0, n)
  }

  /** What the host leaves after removing every instance of each name, in any case. */
  function RemoveAll(headers: seq<Header>, names: seq<Bytes>): seq<Header> {
    if headers == [] then []
    else if Removed(headers[0], names) then RemoveAll(headers[1..], names)
    else [headers[0]] + RemoveAll(headers[1..], names)
  }

  function Shift(positions: seq<nat>): (r: seq<nat>)
    ensures |r| == |positions|
    ensures forall i | 0 <= i < |r| :: r[i] == positions[i] + 1
  {
    seq(|positions|, i requires 0 <= i < |positions| => positions[i] + 1)
  }

  /** The positions of the headers that match no name. */
  function Kept(headers: seq<Header>, names: seq<Bytes>): seq<nat> {
    if headers == [] then []
    else (if Removed(headers[0], names) then [] else [0]) + Shift(Kept(headers[1..], names))
  }

  lemma ShiftMembers(positions: seq<nat>, k: nat)
    ensures k in Shift(positions) <==> k > 0 && k - 1 in positions
  {
    if k > 0 && k - 1 in positions {
      var i :| 0 <= i < |positions| && positions[i] == k - 1;
      assert Shift(positions)[i] == k;
    }
  }

  lemma KeptNext(headers: seq<Header>, names: seq<Bytes>, k: nat)
    requires headers != []
    ensures k in Kept(headers, names) <==>
            if k == 0 then !Removed(headers[0], names) else k - 1 in Kept(headers[1..], names)
  {
    var shifted := Shift(Kept(headers[1..], names));
    ShiftMembers(Kept(headers[1..], names), k);
    assert Kept(headers, names) == (if Removed(headers[0], names) then [] else [0]) + shifted;
    assert k in [0] + shifted <==> k == 0 || k in shifted;
  }

  lemma {:induction false} KeptPositions(headers: seq<Header>, names: seq<Bytes>, k: nat)
    ensures k in Kept(headers, names) <==> k < |headers| && !Removed(headers[k], names)
  {
    if headers == [] {
      assert Kept(headers, names) == [];
    } else {
      KeptNext(headers, names, k);
      if k > 0 {
        KeptPositions(headers[1..], names, k - 1);
      }
    }
  }

  /** `picked` is the headers at those positions, which increase. */
  predicate PickedAt(picked: seq<Header>, headers: seq<Header>, positions: seq<nat>) {
    && |picked| == |positions|
    && (forall i, j | 0 <= i < j < |positions| :: positions[i] < positions[j])
    && forall i | 0 <= i < |positions| :: positions[i] < |headers| && picked[i] == headers[positions[i]]
  }

  lemma PickedNext(picked: seq<Header>, headers: seq<Header>, positions: seq<nat>)
    requires headers != [] && PickedAt(picked, headers[1..], positions)
    ensures PickedAt(picked, headers, Shift(positions))
    ensures PickedAt([headers[0]] + picked, headers, [0] + Shift(positions))
  {
  }

  /** The values are those of the headers of that name, each once and in order. */
  lemma {:induction false} MatchesAt(headers: seq<Header>, name: Bytes) returns (positions: seq<nat>)
    ensures forall k :: k in positions <==> 0 <= k < |headers| && EqIgnoreCase(headers[k].0, name)
    ensures forall i, j | 0 <= i < j < |positions| :: positions[i] < positions[j]
    ensures |Matches(headers, name)| == |positions|
    ensures forall i | 0 <= i < |positions| ::
              positions[i] < |headers| && Matches(headers, name)[i] == headers[positions[i]].1
  {
    if headers == [] {
      positions := [];
    } else {
      var rest := MatchesAt(headers[1..], name);
      positions := (if EqIgnoreCase(headers[0].0, name) then [0] else []) + Shift(rest);
      forall k
        ensures k in positions <==> 0 <= k < |headers| && EqIgnoreCase(headers[k].0, name)
      {
        if k >= 0 {
          ShiftMembers(rest, k);
        }
        assert k in positions <==> (k == 0 && EqIgnoreCase(headers[0].0, name)) || k in Shift(rest);
      }
    }
  }

  /** What is left is the headers at those positions, in their original order. */
  lemma {:induction false} RemoveAllKeepsOrder(headers: seq<Header>, names: seq<Bytes>)
    ensures PickedAt(RemoveAll(headers, names), headers, Kept(headers, names))
  {
    if headers != [] {
      var rest, kept := RemoveAll(headers[1..], names), Kept(headers[1..], names);
      RemoveAllKeepsOrder(headers[1..], names);
      PickedNext(rest, headers, kept);
      assert [] + Shift(kept) == Shift(kept);
    }
  }

  lemma {:induction false} RemoveAllMatches(headers: seq<Header>, names: seq<Bytes>, name: Bytes)
    ensures Matches(RemoveAll(headers, names), name) ==
            if exists n | n in names :: EqIgnoreCase(n, name) then [] else Matches(headers, name)
  {
    if headers != [] {
      RemoveAllMatches(headers[1..], names, name);
      var key := headers[0].0;
      if Removed(headers[0], names) {
        var n :| n in names && EqIgnoreCase(key, n);
        FoldingTransitive(n, key, name);
      } else {
        assert RemoveAll(headers, names)[1..] == RemoveAll(headers[1..], names);
        forall n | n in names
          ensures !(EqIgnoreCase(n, name) && EqIgnoreCase(key, name))
        {
          FoldingTransitive(key, name, n);
        }
      }
    }
  }

  lemma FoldingTransitive(a: Bytes, b: Bytes, c: Bytes)
    ensures EqIgnoreCase(a, b) <==> EqIgnoreCase(b, a)
    ensures EqIgnoreCase(b, c) <==> EqIgnoreCase(c, b)
    ensures EqIgnoreCase(a, b) && EqIgnoreCase(b, c) ==> EqIgnoreCase(a, c)
  {
  }
}
