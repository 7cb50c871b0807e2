/** The string operations of the Go standard library that the model is written in.
    A string is a sequence of characters; where the source works on bytes the
    module that uses these says so. */
module Text {

  // ---- splitting and joining on one separator ----

  /** strings.Split and strings.SplitSeq for a one-character separator. */
  function Split(s: string, sep: char): (parts: seq<string>)
    ensures |parts| > 0
  {
    if s == "" then [""]
    else
      var rest := Split(s[1..], sep);
      if s[0] == sep then [""] + rest else [[s[0]] + rest[0]] + rest[1..]
  }

  /** strings.Join for a one-character separator. */
  function Join(parts: seq<string>, sep: char): string {
    if parts == [] then ""
    else if |parts| == 1 then parts[0]
    else parts[0] + [sep] + Join(parts[1..], sep)
  }

  /** Every piece ends with the terminator, which is how a text of lines is laid out. */
  function Unlines(lines: seq<string>): string {
    if lines == [] then "" else lines[0] + "\n" + Unlines(lines[1..])
  }

  predicate Free(s: string, c: char) {
    c !in s
  }

  predicate AllFree(parts: seq<string>, c: char) {
    forall p <- parts :: Free(p, c)
  }

  lemma {:induction false} SplitFree(s: string, sep: char)
    requires Free(s, sep)
    ensures Split(s, sep) == [s]
  {
    if s != "" {
      SplitFree(s[1..], sep);
      assert s == [s[0]] + s[1..];
    }
  }

  /** Whole pieces of one text, and the beginning of its next. */
  predicate Begins(part: seq<string>, whole: seq<string>, j: nat) {
    j < |whole| && |part| == j + 1 && part[..j] == whole[..j] && part[j] <= whole[j]
  }

  lemma BeginsLater(part: seq<string>, whole: seq<string>, j: nat)
    requires Begins(part, whole, j)
    ensures Begins([""] + part, [""] + whole, j + 1)
  {
    assert ([""] + part)[..j + 1] == [""] + part[..j] && ([""] + whole)[..j + 1] == [""] + whole[..j];
  }

  lemma BeginsLonger(c: char, part: seq<string>, whole: seq<string>, j: nat)
    requires Begins(part, whole, j)
    ensures Begins([[c] + part[0]] + part[1..], [[c] + whole[0]] + whole[1..], j)
  {
    if j > 0 {
      assert part[0] == part[..j][0] == whole[..j][0] == whole[0];
      assert part[1..j] == part[..j][1..] == whole[..j][1..] == whole[1..j];
      assert ([[c] + part[0]] + part[1..])[..j] == [[c] + part[0]] + part[1..j];
      assert ([[c] + whole[0]] + whole[1..])[..j] == [[c] + whole[0]] + whole[1..j];
    }
  }

  lemma {:induction false} SplitBeginning(s: string, n: nat, sep: char) returns (j: nat)
    requires n <= |s|
    ensures Begins(Split(s[..n], sep), Split(s, sep), j)
  {
    if n == 0 {
      j := 0;
      assert s[..0] == "";
    } else {
      j := SplitBeginning(s[1..], n - 1, sep);
      assert s[..n][1..] == s[1..][..n - 1];
      hide Begins;
      if s[0] == sep {
        BeginsLater(Split(s[1..][..n - 1], sep), Split(s[1..], sep), j);
        j := j + 1;
      } else {
        BeginsLonger(s[0], Split(s[1..][..n - 1], sep), Split(s[1..], sep), j);
      }
    }
  }

  /** Splitting is a homomorphism: the pieces of a text cut at a separator are the
      pieces of the two halves. */
  lemma {:induction false} SplitConcat(a: string, b: string, sep: char)
    ensures Split(a + [sep] + b, sep) == Split(a, sep) + Split(b, sep)
  {
    var whole := a + [sep] + b;
    if a == "" {
      assert whole[1..] == b;
    } else {
      assert whole[1..] == a[1..] + [sep] + b;
      SplitConcat(a[1..], b, sep);
    }
  }

  lemma {:induction false} SplitPieces(s: string, sep: char)
    ensures AllFree(Split(s, sep), sep)
  {
    if s != "" {
      SplitPieces(s[1..], sep);
      assert Split(s[1..], sep)[0] in Split(s[1..], sep);
    }
  }

  lemma {:induction false} JoinSplit(s: string, sep: char)
    ensures Join(Split(s, sep), sep) == s
  {
    if s != "" {
      JoinSplit(s[1..], sep);
      var rest := Split(s[1..], sep);
      if s[0] == sep {
        assert ([""] + rest)[1..] == rest;
        assert s == "" + [sep] + s[1..];
      } else {
        var parts := [[s[0]] + rest[0]] + rest[1..];
        assert parts[1..] == rest[1..];
        assert s == [s[0]] + s[1..];
      }
    }
  }

  lemma {:induction false} SplitJoin(parts: seq<string>, sep: char)
    requires parts != []
    requires AllFree(parts, sep)
    ensures Split(Join(parts, sep), sep) == parts
  {
    SplitFree(parts[0], sep);
    if |parts| > 1 {
      SplitJoin(parts[1..], sep);
      SplitConcat(parts[0], Join(parts[1..], sep), sep);
    }
  }

  lemma {:induction false} JoinConcat(a: seq<string>, b: seq<string>, sep: char)
    requires a != [] && b != []
    ensures Join(a + b, sep) == Join(a, sep) + [sep] + Join(b, sep)
  {
    if |a| == 1 {
      assert (a + b)[1..] == b;
    } else {
      JoinConcat(a[1..], b, sep);
      assert (a + b)[1..] == a[1..] + b;
    }
  }

  lemma SplitLine(line: string, rest: string)
    requires Free(line, '\n')
    ensures Split(line + "\n" + rest, '\n') == [line] + Split(rest, '\n')
  {
    SplitFree(line, '\n');
    SplitConcat(line, rest, '\n');
  }

  lemma Regroup<T>(a: seq<T>, b: seq<T>, c: seq<T>)
    ensures a + b + c == a + (b + c)
  {
  }

  lemma {:induction false} SplitUnlines(lines: seq<string>, rest: string)
    requires AllFree(lines, '\n')
    ensures Split(Unlines(lines) + rest, '\n') == lines + Split(rest, '\n')
  {
    if lines == [] {
      assert Unlines(lines) + rest == rest;
    } else {
      var head, tail := lines[0], lines[1..];
      SplitUnlines(tail, rest);
      SplitLine(head, Unlines(tail) + rest);
      Regroup(head + "\n", Unlines(tail), rest);
      Regroup([head], tail, Split(rest, '\n'));
      assert lines == [head] + tail;
    }
  }

  // ---- prefixes and searching ----

  /** strings.HasPrefix. */
  predicate HasPrefix(s: string, p: string) {
    p <= s
  }

  /** strings.TrimPrefix. */
  function TrimPrefix(s: string, p: string): string {
    if p <= s then s[|p|..] else s
  }

  lemma TrimPrefixConcat(p: string, s: string)
    ensures HasPrefix(p + s, p) && TrimPrefix(p + s, p) == s
  {
  }

  /** strings.Index: where sub first occurs in s, or -1. */
  function Index(s: string, sub: string): (i: int)
    ensures -1 <= i <= |s|
    ensures i >= 0 ==> sub <= s[i..]
    ensures forall j :: 0 <= j <= |s| && sub <= s[j..] ==> 0 <= i <= j
  {
    if sub <= s then 0
    else if s == "" then -1
    else
      var r := Index(s[1..], sub);
      assert forall j :: 1 <= j <= |s| ==> s[j..] == s[1..][j - 1..];
      if r < 0 then -1 else r + 1
  }

  predicate Contains(s: string, sub: string) {
    Index(s, sub) >= 0
  }

  /** The first occurrence is pinned by an occurrence with none before it. */
  lemma IndexAt(s: string, sub: string, i: nat)
    requires i <= |s| && sub <= s[i..]
    requires forall j :: 0 <= j < i ==> !(sub <= s[j..])
    ensures Index(s, sub) == i
  {
    assert Index(s, sub) <= i;
  }

  /** strings.IndexByte, and the search inside strings.Cut. */
  function IndexChar(s: string, c: char): (i: int)
    ensures -1 <= i < |s|
    ensures i >= 0 ==> s[i] == c && c !in s[..i]
    ensures i < 0 ==> c !in s
  {
    if s == "" then -1
    else if s[0] == c then 0
    else
      var r := IndexChar(s[1..], c);
      assert r >= 0 ==> s[..r + 1] == [s[0]] + s[1..][..r];
      if r < 0 then -1 else r + 1
  }

  lemma IndexCharAt(s: string, c: char, i: nat)
    requires i < |s| && s[i] == c && c !in s[..i]
    ensures IndexChar(s, c) == i
  {
    var k := IndexChar(s, c);
    assert k >= 0;
    assert forall j :: 0 <= j < i ==> s[j] == s[..i][j] && s[j] != c;
    assert forall j :: 0 <= j < k ==> s[j] == s[..k][j] && s[j] != c;
  }

  /** strings.Cut at a one-character separator. */
  function Cut(s: string, c: char): (r: (string, string, bool))
    ensures r.2 == (c in s)
    ensures r.2 ==> s == r.0 + [c] + r.1 && c !in r.0
    ensures !r.2 ==> r.0 == s && r.1 == ""
  {
    var i := IndexChar(s, c);
    if i < 0 then (s, "", false) else (s[..i], s[i + 1..], true)
  }

  lemma CutConcat(a: string, c: char, b: string)
    requires c !in a
    ensures Cut(a + [c] + b, c) == (a, b, true)
  {
    var s := a + [c] + b;
    assert s[..|a|] == a;
    IndexCharAt(s, c, |a|);
  }

  // ---- white space ----

  /** unicode.IsSpace. */
  predicate IsSpace(c: char) {
    c in "\t\n\U{0B}\U{0C}\r \U{85}\U{A0}\U{1680}\U{2028}\U{2029}\U{202F}\U{205F}\U{3000}"
    || '\U{2000}' <= c <= '\U{200A}'
  }

  function TrimLeft(s: string): (r: string)
    ensures r == "" || !IsSpace(r[0])
  {
    if s != "" && IsSpace(s[0]) then TrimLeft(s[1..]) else s
  }

  function TrimRight(s: string): (r: string)
    ensures r <= s
    ensures r == "" || !IsSpace(r[|r| - 1])
    ensures forall i :: |r| <= i < |s| ==> IsSpace(s[i])
  {
    if s != "" && IsSpace(s[|s| - 1]) then TrimRight(s[..|s| - 1]) else s
  }

  /** strings.TrimSpace. */
  function TrimSpace(s: string): string {
    TrimRight(TrimLeft(s))
  }

  /** A text no trimming shortens at its end. */
  predicate EndsTight(s: string) {
    s == "" || !IsSpace(s[|s| - 1])
  }

  lemma TrimSpaceTight(s: string)
    requires s != "" && !IsSpace(s[0]) && EndsTight(s)
    ensures TrimSpace(s) == s
  {
  }

  /** What has been trimmed is not trimmed again. */
  lemma TrimSpaceTwice(s: string)
    ensures TrimSpace(TrimSpace(s)) == TrimSpace(s)
  {
    hide IsSpace;
    var t := TrimSpace(s);
    assert t != "" ==> !IsSpace(t[0]) && !IsSpace(t[|t| - 1]);
  }

  function SkipWord(s: string): (n: nat)
    ensures n <= |s|
    ensures forall i :: 0 <= i < n ==> !IsSpace(s[i])
    ensures n < |s| ==> IsSpace(s[n])
  {
    if s == "" || IsSpace(s[0]) then 0 else 1 + SkipWord(s[1..])
  }

  /** strings.FieldsSeq: the maximal runs of characters that are not white space. */
  function Fields(s: string): seq<string>
    decreases |s|
  {
    if s == "" then []
    else if IsSpace(s[0]) then Fields(s[1..])
    else
      var n := SkipWord(s);
      [s[..n]] + Fields(s[n..])
  }

  predicate IsWord(w: string) {
    w != "" && forall c <- w :: !IsSpace(c)
  }

  lemma SkipWordAt(w: string, rest: string)
    requires IsWord(w)
    requires rest != "" && IsSpace(rest[0])
    ensures SkipWord(w + rest) == |w|
  {
    var s := w + rest;
    assert IsSpace(s[|w|]);
    assert forall i :: 0 <= i < |w| ==> s[i] == w[i] && w[i] in w;
  }

  lemma FieldsWord(w: string, rest: string)
    requires IsWord(w)
    requires rest != "" && IsSpace(rest[0])
    ensures Fields(w + rest) == [w] + Fields(rest[1..])
  {
    hide IsSpace, SkipWord;
    var s := w + rest;
    SkipWordAt(w, rest);
    assert !IsSpace(s[0]) by { assert s[0] == w[0] && w[0] in w; }
    assert s[..|w|] == w;
    assert s[|w|..] == rest;
  }
}
