/** How the three clients put identifiers into a request line. */
module Clients {
  import opened Wrappers
  import opened Text
  import opened Url

  function TrimSlashes(s: string): (r: string)
    ensures IsBytes(s) ==> IsBytes(r)
    ensures !EndsWith(r, '/')
  {
    if EndsWith(s, '/') then TrimSlashes(s[..|s| - 1]) else s
  }

  function TrimOneSlash(s: string): (r: string)
    ensures IsBytes(s) ==> IsBytes(r)
  {
    if EndsWith(s, '/') then s[..|s| - 1] else s
  }

  /** Each segment after its separator. */
  function Tail(segments: seq<string>): string {
    if segments == [] then "" else "/" + (segments[0] + Tail(segments[1..]))
  }

  function EscapeAll(segments: seq<Bytes>, m: Mode): (r: seq<string>)
    ensures |r| == |segments| && forall i :: 0 <= i < |r| ==> r[i] == Escape(segments[i], m)
  {
    if segments == [] then [] else [Escape(segments[0], m)] + EscapeAll(segments[1..], m)
  }

  lemma {:induction false} JoinTail(first: string, segments: seq<string>)
    ensures Join([first] + segments, '/') == first + Tail(segments)
    decreases |segments|
  {
    var parts := [first] + segments;
    assert parts[1..] == segments;
    if segments != [] {
      JoinTail(segments[0], segments[1..]);
      assert [segments[0]] + segments[1..] == segments;
      Regroup(first, "/", Join(segments, '/'));
    }
  }

  lemma {:induction false} TailBytes(segments: seq<Bytes>)
    ensures IsBytes(Tail(segments))
    decreases |segments|
  {
    if segments != [] {
      TailBytes(segments[1..]);
    }
  }

  /** The pieces of an address are its base's, then one for each segment. */
  lemma {:induction false} SplitTail(a: string, segments: seq<string>)
    requires AllFree(segments, '/')
    ensures Split(a + Tail(segments), '/') == Split(a, '/') + segments
    decreases |segments|
  {
    hide Split;
    if segments == [] {
      assert a + Tail(segments) == a;
    } else {
      var s, rest := segments[0], segments[1..];
      SplitTail(s, rest);
      SplitConcat(a, s + Tail(rest), '/');
      Regroup(a, "/", s + Tail(rest));
      SplitFree(s, '/');
      Regroup(Split(a, '/'), [s], rest);
      assert segments == [s] + rest;
    }
  }

  lemma EscapedFree(segments: seq<Bytes>)
    ensures AllFree(EscapeAll(segments, Segment), '/')
  {
    hide Escape;
    forall i | 0 <= i < |segments| ensures Free(EscapeAll(segments, Segment)[i], '/') {
      EscapeFree(segments[i], Segment);
    }
  }

  lemma {:induction false} TailDecodes(segments: seq<Bytes>)
    ensures Unescape(Tail(EscapeAll(segments, Segment)), Path) == Some(Tail(segments))
    decreases |segments|
  {
    if segments == [] {
      assert Unescape("", Path) == Some("");
    } else {
      hide Escape, Unescape;
      var rest := EscapeAll(segments[1..], Segment);
      TailDecodes(segments[1..]);
      var body := Escape(segments[0], Segment) + Tail(rest);
      UnescapeEscapeThen(segments[0], Tail(rest), Segment, Path);
      assert EscapeAll(segments, Segment)[1..] == rest;
      var s := "/" + body;
      UnescapeHead(s);
      assert s[1..] == body;
    }
  }

  lemma {:induction false} TailValid(segments: seq<Bytes>)
    ensures ValidEncoded(Tail(EscapeAll(segments, Segment)))
    decreases |segments|
  {
    if segments != [] {
      TailValid(segments[1..]);
      EscapeIsValid(segments[0], Segment);
      assert ValidChar('/');
      hide Escape, ValidChar;
      assert EscapeAll(segments, Segment)[1..] == EscapeAll(segments[1..], Segment);
    }
  }

  /** Decoding a base followed by segments decodes each. */
  lemma TailAfter(a: string, tail: string)
    requires tail == "" || tail[0] == '/'
    ensures Unescape(a + tail, Path) == Joined(Unescape(a, Path), Unescape(tail, Path))
  {
    if tail == "" {
      assert a + tail == a;
      assert Unescape("", Path) == Some("");
      assert Unescape(a, Path).Some? ==> Unescape(a, Path).value + "" == Unescape(a, Path).value;
    } else {
      assert tail == "/" + tail[1..];
      UnescapeAtSlash(a, tail[1..]);
    }
    hide Unescape;
  }

  // ---- the registry client ----

  function RegistryBase(base: URL): string {
    TrimSlashes(EscapedPath(base))
  }

  function RegistryEncoded(base: URL, segments: seq<Bytes>): string {
    RegistryBase(base) + Tail(EscapeAll(segments, Segment))
  }

  function RegistryDecoded(base: URL, segments: seq<Bytes>): Bytes {
    TailBytes(segments);
    TrimSlashes(base.path) + Tail(segments)
  }

  /** The address as the client builds it, segment by segment. */
  method RegistryURL(base: URL, segments: seq<Bytes>) returns (u: URL)
    ensures u == URL(RegistryDecoded(base, segments), RegistryEncoded(base, segments))
  {
    hide *;
    var decoded: seq<string> := [TrimSlashes(base.path)];
    var escaped: seq<string> := [TrimSlashes(EscapedPath(base))];
    ghost var all := EscapeAll(segments, Segment);
    for i := 0 to |segments|
      invariant decoded == [TrimSlashes(base.path)] + segments[..i]
      invariant escaped == [TrimSlashes(EscapedPath(base))] + all[..i]
    {
      decoded := decoded + [segments[i]];
      escaped := escaped + [Escape(segments[i], Segment)];
    }
    assert segments[..|segments|] == segments && all[..|segments|] == all;
    JoinedRegistry(base, segments);
    u := URL(Join(decoded, '/'), Join(escaped, '/'));
  }

  lemma JoinedRegistry(base: URL, segments: seq<Bytes>)
    ensures Join([TrimSlashes(base.path)] + segments, '/') == RegistryDecoded(base, segments)
    ensures Join([TrimSlashes(EscapedPath(base))] + EscapeAll(segments, Segment), '/') ==
            RegistryEncoded(base, segments)
  {
    hide EscapedPath, Join, Tail;
    JoinTail(TrimSlashes(base.path), segments);
    JoinTail(TrimSlashes(EscapedPath(base)), EscapeAll(segments, Segment));
  }

  /** What trimming the encoded base leaves, decoded, against trimming the base. */
  lemma {:induction false} TrimDecodes(s: string)
    requires Unescape(s, Path).Some?
    ensures Unescape(TrimSlashes(s), Path).Some?
    ensures TrimSlashes(Unescape(TrimSlashes(s), Path).value) == TrimSlashes(Unescape(s, Path).value)
    decreases |s|
  {
    if EndsWith(s, '/') {
      var t := s[..|s| - 1];
      TailAfter(t, "/");
      assert s == t + "/";
      PlainDecodes("/");
      hide Unescape;
      var x := Unescape(t, Path).value;
      assert (x + "/")[..|x|] == x;
      TrimDecodes(t);
    }
  }

  lemma RegistryBaseDecodes(base: URL)
    ensures Unescape(RegistryBase(base), Path).Some?
    ensures Unescape(RegistryBase(base), Path) == Some(TrimSlashes(base.path)) <==>
            !EndsEscapedSlash(RegistryBase(base))
  {
    EscapedPathDecodes(base);
    TrimDecodes(EscapedPath(base));
    DecodedEnd(RegistryBase(base));
    hide Unescape, EscapedPath, EndsEscapedSlash;
    var y := Unescape(RegistryBase(base), Path).value;
    TrimShortens(y);
  }

  lemma TrimShortens(s: string)
    ensures |TrimSlashes(s)| <= |s| && (EndsWith(s, '/') ==> |TrimSlashes(s)| < |s|)
    ensures !EndsWith(s, '/') ==> TrimSlashes(s) == s
  {
  }

  lemma RegistryEncodedDecodes(base: URL, segments: seq<Bytes>)
    ensures Unescape(RegistryEncoded(base, segments), Path) ==
            Joined(Unescape(RegistryBase(base), Path), Some(Tail(segments)))
    ensures ValidEncoded(RegistryEncoded(base, segments))
  {
    hide Unescape, Escape;
    TailDecodes(segments);
    TailValid(segments);
    TailAfter(RegistryBase(base), Tail(EscapeAll(segments, Segment)));
    EscapedPathDecodes(base);
    TrimIsPrefix(EscapedPath(base));
    hide ValidChar;
  }

  lemma {:induction false} TrimIsPrefix(s: string)
    ensures TrimSlashes(s) <= s
    decreases |s|
  {
    if EndsWith(s, '/') {
      TrimIsPrefix(s[..|s| - 1]);
    }
  }

  /** The request line the registry client sends is the encoded base followed by
      each segment encoded, exactly when that base does not end in an escaped slash. */
  lemma RegistryRequest(base: URL, segments: seq<Bytes>)
    requires segments != []
    ensures EscapedPath(URL(RegistryDecoded(base, segments), RegistryEncoded(base, segments)))
              == RegistryEncoded(base, segments)
            <==> !EndsEscapedSlash(RegistryBase(base))
  {
    var u := URL(RegistryDecoded(base, segments), RegistryEncoded(base, segments));
    RegistryEncodedDecodes(base, segments);
    RegistryBaseDecodes(base);
    EscapedPathDecodes(u);
    hide Unescape, Escape, ValidEncoded, EndsEscapedSlash;
    var x := Unescape(RegistryBase(base), Path).value;
    SameTail(x, TrimSlashes(base.path), Tail(segments));
    assert u.rawPath != "" by { assert Tail(EscapeAll(segments, Segment)) != ""; }
  }

  lemma SameTail(a: string, b: string, tail: string)
    ensures a + tail == b + tail <==> a == b
  {
    if a + tail == b + tail {
      assert (a + tail)[..|a|] == a && (b + tail)[..|b|] == b;
    }
  }

  /** What stands before the identifiers on the request line: the base as it is encoded,
      or its path encoded again when that ends in an escaped slash. */
  function RegistryFront(base: URL): string {
    if EndsEscapedSlash(RegistryBase(base)) then Escape(TrimSlashes(base.path), Path) else RegistryBase(base)
  }

  /** The number of pieces the identifiers have. */
  function PieceCount(segments: seq<string>): nat {
    if segments == [] then 0 else |Split(segments[0], '/')| + PieceCount(segments[1..])
  }

  lemma {:induction false} PieceCountAll(segments: seq<Bytes>)
    ensures PieceCount(segments) >= |segments|
    ensures PieceCount(segments) == |segments| <==> forall s <- segments :: '/' !in s
    decreases |segments|
  {
    hide Split, Escape;
    if segments != [] {
      PieceCountAll(segments[1..]);
      EscapedPieces(segments[0]);
      assert forall s :: s in segments <==> s == segments[0] || s in segments[1..];
    }
  }

  lemma {:induction false} TailPieces(a: string, segments: seq<Bytes>)
    ensures |Split(a + Tail(EscapeAll(segments, Path)), '/')| == |Split(a, '/')| + PieceCount(segments)
    decreases |segments|
  {
    hide Split, Escape;
    if segments == [] {
      assert a + Tail(EscapeAll(segments, Path)) == a;
    } else {
      var first := Escape(segments[0], Path);
      var rest := EscapeAll(segments[1..], Path);
      assert EscapeAll(segments, Path)[1..] == rest;
      assert a + Tail(EscapeAll(segments, Path)) == (a + ['/'] + first) + Tail(rest);
      TailPieces(a + ['/'] + first, segments[1..]);
      SplitConcat(a, first, '/');
      EscapedPieces(segments[0]);
    }
  }

  lemma RegistryFallsBack(base: URL, segments: seq<Bytes>)
    requires segments != [] && EndsEscapedSlash(RegistryBase(base))
    ensures EscapedPath(URL(RegistryDecoded(base, segments), RegistryEncoded(base, segments)))
            == RegistryFront(base) + Tail(EscapeAll(segments, Path))
  {
    RegistryRequest(base, segments);
    EscapeTail(TrimSlashes(base.path), segments);
    assert '/' in Tail(segments);
    hide Escape, Unescape, ValidEncoded, EndsEscapedSlash, RegistryBase;
  }

  /** Each identifier is one more piece of the request line, and that piece decodes to it,
      exactly when the base does not end in an escaped slash or no identifier holds a
      slash. */
  lemma RegistrySegments(base: URL, segments: seq<Bytes>)
    requires segments != []
    ensures var u := URL(RegistryDecoded(base, segments), RegistryEncoded(base, segments));
            var pieces := Split(EscapedPath(u), '/');
            var own := Split(RegistryFront(base), '/');
            var kept := !EndsEscapedSlash(RegistryBase(base)) || forall s <- segments :: '/' !in s;
            (|pieces| == |own| + |segments| <==> kept) &&
            (kept ==>
               pieces[..|own|] == own &&
               forall i :: 0 <= i < |segments| ==> Unescape(pieces[|own| + i], Path) == Some(segments[i]))
  {
    if EndsEscapedSlash(RegistryBase(base)) {
      RegistryFallsBack(base, segments);
      TailPieces(RegistryFront(base), segments);
      PieceCountAll(segments);
      hide Unescape, Escape, EscapedPath, Split, EndsEscapedSlash, RegistryFront, Tail, PieceCount;
      if forall s <- segments :: '/' !in s {
        EscapedAllFree(segments);
        SplitTail(RegistryFront(base), EscapeAll(segments, Path));
        EscapedAllDecode(segments, Path);
      }
    } else {
      RegistryRequest(base, segments);
      EscapedFree(segments);
      SplitTail(RegistryBase(base), EscapeAll(segments, Segment));
      hide Unescape, Escape, EscapedPath, Split, EndsEscapedSlash;
      EscapedAllDecode(segments, Segment);
    }
  }

  lemma EscapedAllFree(segments: seq<Bytes>)
    requires forall s <- segments :: '/' !in s
    ensures AllFree(EscapeAll(segments, Path), '/')
  {
    hide Escape;
    forall i | 0 <= i < |segments| ensures Free(EscapeAll(segments, Path)[i], '/') {
      EscapeFree(segments[i], Path);
    }
  }

  lemma EscapedAllDecode(segments: seq<Bytes>, m: Mode)
    requires m != Query
    ensures forall i :: 0 <= i < |segments| ==> Unescape(EscapeAll(segments, m)[i], Path) == Some(segments[i])
  {
    hide Escape, Unescape;
    forall i | 0 <= i < |segments| ensures Unescape(EscapeAll(segments, m)[i], Path) == Some(segments[i]) {
      UnescapeEscape(segments[i], m, Path);
    }
  }

  /** Escaping leaves a dot segment as it is, so an identifier that is one is
      still one on the request line. */
  lemma DotSegments(id: Bytes)
    ensures Escape(id, Segment) == "." <==> id == "."
    ensures Escape(id, Segment) == ".." <==> id == ".."
  {
    EscapeUnchanged(id, Segment);
    UnescapeEscape(id, Segment, Segment);
    PlainSegment(".");
    PlainSegment("..");
    hide Escape, Unescape;
  }

  lemma PlainSegment(s: string)
    requires s == "." || s == ".."
    ensures IsBytes(s) && Escape(s, Segment) == s && Unescape(s, Segment) == Some(s)
  {
    EscapeUnchanged(s, Segment);
    UnescapeEscape(s, Segment, Segment);
  }

  // ---- the key store client ----

  /** The address of the keys, which the client writes into both fields unescaped. */
  function KeysBase(base: URL): Bytes {
    KeysFront(base) + "/"
  }

  function KeysFront(base: URL): Bytes {
    TrimOneSlash(base.path) + "/me/ssh-keys"
  }

  function KeyURL(base: URL, id: Bytes): URL {
    URL(KeysBase(base) + id, KeysBase(base) + Escape(id, Segment))
  }

  /** The address of the keys is the base, less one slash it may end in, and two
      segments more. */
  lemma KeysFrontSegments(base: URL)
    ensures forall b :: base.path == b + "/" || (base.path == b && !EndsWith(b, '/')) ==>
      Split(KeysFront(base), '/') == Split(b, '/') + ["me", "ssh-keys"]
  {
    forall b | base.path == b + "/" || (base.path == b && !EndsWith(b, '/'))
      ensures Split(KeysFront(base), '/') == Split(b, '/') + ["me", "ssh-keys"] {
      assert TrimOneSlash(base.path) == b;
      TwoMore(b);
      hide Split, TrimOneSlash;
    }
  }

  lemma TwoMore(b: string)
    ensures Split(b + "/me/ssh-keys", '/') == Split(b, '/') + ["me", "ssh-keys"]
  {
    var me, keys := "me", "ssh-keys";
    assert Free(me, '/') && Free(keys, '/');
    assert "/me/ssh-keys" == "/" + (me + ("/" + keys));
    hide Split, Free;
    PiecesAfter(b, me, keys);
  }

  lemma PiecesAfter(b: string, first: string, second: string)
    requires Free(first, '/') && Free(second, '/')
    ensures Split(b + ("/" + (first + ("/" + second))), '/') == Split(b, '/') + [first, second]
  {
    hide *;
    SplitFree(first, '/');
    SplitFree(second, '/');
    SplitConcat(first, second, '/');
    Regroup(first, "/", second);
    var tail := first + ("/" + second);
    SplitConcat(b, tail, '/');
    Regroup(b, "/", tail);
    assert [first] + [second] == [first, second];
  }

  /** A path that is its own encoding. */
  predicate NeedsNoEscape(path: string) {
    ValidEncoded(path) && '%' !in path
  }

  lemma KeyRawDecodes(base: URL, id: Bytes)
    ensures Unescape(KeyURL(base, id).rawPath, Path) == Some(KeyURL(base, id).path) <==> '%' !in KeysBase(base)
  {
    var front := KeysFront(base);
    var e := "/" + Escape(id, Segment);
    assert KeyURL(base, id).rawPath == front + e && KeyURL(base, id).path == front + ("/" + id);
    TailAfter(front, e);
    UnescapeHead(e);
    assert e[1..] == Escape(id, Segment);
    UnescapeEscape(id, Segment, Path);
    if Unescape(front, Path).Some? {
      UnescapeLength(front);
      SameTail(Unescape(front, Path).value, front, "/" + id);
    }
    if '%' !in front {
      PlainDecodes(front);
    }
    assert '%' in KeysBase(base) <==> '%' in front;
    hide Unescape, Escape;
  }

  /** The request line for one key, by whether its base needs escaping. */
  lemma KeyRequest(base: URL, id: Bytes)
    ensures EscapedPath(KeyURL(base, id)) ==
            if NeedsNoEscape(KeysBase(base)) then KeysBase(base) + Escape(id, Segment)
            else Escape(KeysBase(base), Path) + Escape(id, Path)
  {
    KeyRawDecodes(base, id);
    EscapeIsValid(id, Segment);
    EscapeConcat(KeysBase(base), id, Path);
    hide Unescape, Escape, ValidChar;
    var base' := KeysBase(base);
    assert base'[|base'| - 1] == '/';
    assert ValidEncoded(base' + Escape(id, Segment)) <==> ValidEncoded(base') by {
      assert forall c :: c in base' + Escape(id, Segment) <==> c in base' || c in Escape(id, Segment);
    }
  }

  function Last(parts: seq<string>): string
    requires parts != []
  {
    parts[|parts| - 1]
  }

  lemma LastPiece(a: string, b: string)
    requires Free(b, '/')
    ensures Last(Split(a + ("/" + b), '/')) == b
    ensures |Split(a + ("/" + b), '/')| == |Split(a, '/')| + 1
  {
    Regroup(a, "/", b);
    SplitConcat(a, b, '/');
    SplitFree(b, '/');
    hide Split;
  }

  /** What stands after the last separator of a text that holds one. */
  lemma {:induction false} LastSlash(s: string) returns (a: string, b: string)
    requires '/' in s
    ensures s == a + ("/" + b) && Free(b, '/')
    decreases |s|
  {
    if EndsWith(s, '/') {
      a, b := s[..|s| - 1], "";
    } else {
      a, b := LastSlash(s[..|s| - 1]);
      b := b + [s[|s| - 1]];
    }
  }

  lemma {:induction false} EscapedPieces(s: Bytes)
    ensures |Split(Escape(s, Path), '/')| == |Split(s, '/')|
    ensures |Split(s, '/')| == 1 <==> '/' !in s
    decreases |s|
  {
    if '/' in s {
      var a, b := LastSlash(s);
      assert forall i :: 0 <= i < |a| ==> a[i] == s[i];
      assert forall i :: 0 <= i < |b| ==> b[i] == s[|a| + 1 + i];
      EscapedPieces(a);
      EscapeSlash(a, b);
      EscapeFree(b, Path);
      hide Split, Escape;
      LastPiece(a, b);
      LastPiece(Escape(a, Path), Escape(b, Path));
    } else {
      EscapeFree(s, Path);
      SplitFree(s, '/');
      SplitFree(Escape(s, Path), '/');
    }
  }

  /** How many pieces the request line for one key has: one for the id when the base
      needs no escaping, and otherwise one for each piece of the id. */
  lemma KeyPieces(base: URL, id: Bytes)
    ensures |Split(EscapedPath(KeyURL(base, id)), '/')| ==
            |Split(KeysFront(base), '/')| + if NeedsNoEscape(KeysBase(base)) then 1 else |Split(id, '/')|
  {
    KeyRequest(base, id);
    EscapeFree(id, Segment);
    KeysBaseEscaped(base);
    EscapedPieces(KeysFront(base));
    EscapedPieces(id);
    hide EscapedPath, NeedsNoEscape, Escape, KeysFront, Split;
    if NeedsNoEscape(KeysBase(base)) {
      LastPiece(KeysFront(base), Escape(id, Segment));
      Regroup(KeysFront(base), "/", Escape(id, Segment));
    } else {
      SplitConcat(Escape(KeysFront(base), Path), Escape(id, Path), '/');
    }
  }

  /** The id is one more piece than the base, and that piece decodes to it, exactly when
      the base needs no escaping or the id holds no separator. */
  lemma KeyOneSegment(base: URL, id: Bytes)
    ensures var pieces := Split(EscapedPath(KeyURL(base, id)), '/');
            var kept := NeedsNoEscape(KeysBase(base)) || '/' !in id;
            (|pieces| == |Split(KeysFront(base), '/')| + 1 <==> kept) &&
            (Unescape(Last(pieces), Path) == Some(id) <==> kept)
  {
    KeyRequest(base, id);
    KeyPieces(base, id);
    EscapedPieces(id);
    hide EscapedPath, NeedsNoEscape, Escape, Unescape, Split;
    if NeedsNoEscape(KeysBase(base)) {
      PlainKey(base, id);
    } else if '/' !in id {
      UnslashedKey(base, id);
    } else {
      SlashedKey(Escape(KeysBase(base), Path), id);
    }
  }

  lemma PlainKey(base: URL, id: Bytes)
    ensures Unescape(Last(Split(KeysBase(base) + Escape(id, Segment), '/')), Path) == Some(id)
  {
    EscapeFree(id, Segment);
    hide KeysFront, Escape, Unescape, Split, IsBytes;
    UnescapeEscape(id, Segment, Path);
    var x, y := KeysFront(base), Escape(id, Segment);
    LastPiece(x, y);
    Regroup(x, "/", y);
  }

  lemma KeysBaseEscaped(base: URL)
    ensures Escape(KeysBase(base), Path) == Escape(KeysFront(base), Path) + "/"
  {
    assert EscapeChar('/', Path) == "/";
    assert Escape("/", Path) == "/" + Escape("", Path);
    hide EscapeChar, KeysFront;
    EscapeConcat(KeysFront(base), "/", Path);
  }

  lemma UnslashedKey(base: URL, id: Bytes)
    requires '/' !in id
    ensures Unescape(Last(Split(Escape(KeysBase(base), Path) + Escape(id, Path), '/')), Path) == Some(id)
  {
    EscapeFree(id, Path);
    KeysBaseEscaped(base);
    assert Free(id, '/');
    hide *;
    UnescapeEscape(id, Path, Path);
    var x, y := Escape(KeysFront(base), Path), Escape(id, Path);
    LastPiece(x, y);
    Regroup(x, "/", y);
  }

  lemma EscapeSlash(a: Bytes, b: Bytes)
    ensures IsBytes(a + ("/" + b)) && Escape(a + ("/" + b), Path) == Escape(a, Path) + ("/" + Escape(b, Path))
  {
    var s := "/" + b;
    assert s[1..] == b;
    assert EscapeChar('/', Path) == "/";
    EscapeConcat(a, s, Path);
  }

  lemma SlashedKey(encodedBase: string, id: Bytes)
    requires '/' in id
    ensures Unescape(Last(Split(encodedBase + Escape(id, Path), '/')), Path) != Some(id)
  {
    var a, b := LastSlash(id);
    assert forall i :: 0 <= i < |a| ==> a[i] == id[i];
    assert forall i :: 0 <= i < |b| ==> b[i] == id[|a| + 1 + i];
    EscapeSlash(a, b);
    EscapeFree(b, Path);
    UnescapeEscape(b, Path, Path);
    hide Escape, Unescape, Split;
    LastPiece(encodedBase + Escape(a, Path), Escape(b, Path));
    Regroup(encodedBase, Escape(a, Path), "/" + Escape(b, Path));
  }

  // ---- the Origo client ----

  /** A base address as url.Parse gives one. */
  predicate Parsed(u: URL) {
    u.rawPath == "" || Unescape(u.rawPath, Path) == Some(u.path)
  }

  lemma ParseIsParsed(p: string)
    ensures Parse(p).Some? ==> Parsed(Parse(p).value)
  {
    hide Unescape, Escape;
  }

  /** The route of a call: each segment already escaped, put into Path. */
  function Route(segments: seq<Bytes>): Bytes {
    RouteBytes(segments);
    Tail(EscapeAll(segments, Segment))
  }

  lemma {:induction false} EscapeBytes(s: Bytes, m: Mode)
    ensures IsBytes(Escape(s, m))
    decreases |s|
  {
    if s != "" {
      EscapeBytes(s[1..], m);
      HexIsPlain(s[0] as int / 16);
      HexIsPlain(s[0] as int % 16);
      hide HexChar;
    }
  }

  lemma {:induction false} RouteBytes(segments: seq<Bytes>)
    ensures IsBytes(Tail(EscapeAll(segments, Segment)))
    decreases |segments|
  {
    if segments != [] {
      EscapeBytes(segments[0], Segment);
      RouteBytes(segments[1..]);
      hide Escape;
      assert EscapeAll(segments, Segment)[1..] == EscapeAll(segments[1..], Segment);
    }
  }

  function OrigoURL(base: URL, segments: seq<Bytes>): URL {
    base.(path := TrimSlashes(base.path) + Route(segments))
  }

  lemma {:induction false} AllSlashesAfterTrim(s: string)
    ensures TrimSlashes(s) <= s && forall i :: |TrimSlashes(s)| <= i < |s| ==> s[i] == '/'
    decreases |s|
  {
    if EndsWith(s, '/') {
      AllSlashesAfterTrim(s[..|s| - 1]);
    }
  }

  /** The base's RawPath no longer matches, so the whole path is escaped again. */
  lemma OrigoRequest(base: URL, segments: seq<Bytes>)
    requires Parsed(base) && segments != [] && segments[0] != ""
    ensures EscapedPath(OrigoURL(base, segments)) == Escape(OrigoURL(base, segments).path, Path)
  {
    var u := OrigoURL(base, segments);
    var n := |TrimSlashes(base.path)|;
    EscapeFree(segments[0], Segment);
    EscapeUnchanged(segments[0], Segment);
    AllSlashesAfterTrim(base.path);
    hide Unescape, Escape;
    assert u.path[n] == '/';
    assert u.path[n + 1] == Escape(segments[0], Segment)[0];
    assert u.path != base.path;
    assert u.path != "*";
  }

  lemma {:induction false} EscapeTail(a: Bytes, segments: seq<Bytes>)
    ensures IsBytes(a + Tail(segments))
    ensures Escape(a + Tail(segments), Path) == Escape(a, Path) + Tail(EscapeAll(segments, Path))
    decreases |segments|
  {
    TailBytes(segments);
    if segments == [] {
      assert a + Tail(segments) == a;
    } else {
      hide Escape;
      var s, rest := segments[0], segments[1..];
      EscapeTail(s, rest);
      EscapeSlash(a, s + Tail(rest));
      assert EscapeAll(segments, Path)[1..] == EscapeAll(rest, Path);
    }
  }

  /** A segment as the request line carries it: escaped, and escaped again. */
  function Twice(segment: Bytes): string {
    EscapeBytes(segment, Segment);
    Escape(Escape(segment, Segment), Path)
  }

  lemma OrigoPieces(base: URL, segments: seq<Bytes>)
    requires Parsed(base) && segments != [] && segments[0] != ""
    ensures Split(EscapedPath(OrigoURL(base, segments)), '/') ==
            Split(Escape(TrimSlashes(base.path), Path), '/') + seq(|segments|,
                i requires 0 <= i < |segments| => Twice(segments[i]))
  {
    OrigoRequest(base, segments);
    var once: seq<Bytes> := EscapedBytes(segments);
    EscapeTail(TrimSlashes(base.path), once);
    hide Escape, EscapedPath, Split;
    var twice := EscapeAll(once, Path);
    forall i | 0 <= i < |segments| ensures Free(twice[i], '/') && twice[i] == Twice(segments[i]) {
      EscapeFree(segments[i], Segment);
      EscapeFree(once[i], Path);
    }
    SplitTail(Escape(TrimSlashes(base.path), Path), twice);
    assert twice == seq(|segments|, i requires 0 <= i < |segments| => Twice(segments[i]));
  }

  lemma EscapedBytes(segments: seq<Bytes>) returns (once: seq<Bytes>)
    ensures once == EscapeAll(segments, Segment)
  {
    hide Escape;
    var all := EscapeAll(segments, Segment);
    forall i | 0 <= i < |all| ensures IsBytes(all[i]) {
      EscapeBytes(segments[i], Segment);
    }
    once := all;
  }

  /** One decoding of a segment escaped twice gives it escaped once: the segment
      itself exactly when nothing in it needs escaping. */
  lemma TwiceDecodes(segment: Bytes)
    ensures Unescape(Twice(segment), Path) == Some(Escape(segment, Segment))
    ensures Unescape(Twice(segment), Path) == Some(segment) <==> forall c <- segment :: !ShouldEscape(c, Segment)
  {
    hide Escape, Unescape, ShouldEscape;
    EscapeBytes(segment, Segment);
    UnescapeEscape(Escape(segment, Segment), Path, Path);
    EscapeUnchanged(segment, Segment);
  }

  /** Every identifier still adds exactly one segment, but one decoding gives its
      escaped form: the identifier itself exactly when escaping leaves it unchanged. */
  lemma OrigoSegments(base: URL, segments: seq<Bytes>, i: nat)
    requires Parsed(base) && segments != [] && segments[0] != "" && i < |segments|
    ensures var pieces := Split(EscapedPath(OrigoURL(base, segments)), '/');
            var own := Split(Escape(TrimSlashes(base.path), Path), '/');
            |pieces| == |own| + |segments| && pieces[..|own|] == own
            && Unescape(pieces[|own| + i], Path) == Some(Escape(segments[i], Segment))
            && (Unescape(pieces[|own| + i], Path) == Some(segments[i])
                <==> forall c <- segments[i] :: !ShouldEscape(c, Segment))
  {
    hide *;
    OrigoPieces(base, segments);
    TwiceDecodes(segments[i]);
  }

  /** The segments of the call that lists a tree at a revision. */
  function TreeSegments(id: Bytes, rev: Bytes): (r: seq<Bytes>)
    ensures |r| == 5 && r[0] != "" && r[4] == rev
  {
    ["v1", "repos", id, "tree", rev]
  }

  /** So a branch whose name holds a separator reaches Origo under another name. */
  lemma SlashedRevision(base: URL, id: Bytes, rev: Bytes)
    requires Parsed(base) && '/' in rev
    ensures var pieces := Split(EscapedPath(OrigoURL(base, TreeSegments(id, rev))), '/');
            |pieces| > 0 && Unescape(pieces[|pieces| - 1], Path) != Some(rev)
  {
    assert ShouldEscape('/', Segment);
    hide *;
    OrigoSegments(base, TreeSegments(id, rev), 4);
  }
}
