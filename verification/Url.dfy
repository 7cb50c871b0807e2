/** Percent-encoding and the path rule of Go's url.URL (sections 2.1 and 3.3 of
    RFC 3986). Text here is bytes: a character stands for the byte of its value. */
module Url {
  import opened Wrappers
  import opened Text

  type Bytes = s: string | IsBytes(s)

  predicate IsBytes(s: string) {
    forall i :: 0 <= i < |s| ==> s[i] < '\U{100}'
  }

  /** Where a text stands in an address: a whole path, one segment, a query value. */
  datatype Mode = Path | Segment | Query

  predicate Alphanumeric(c: char) {
    'a' <= c <= 'z' || 'A' <= c <= 'Z' || '0' <= c <= '9'
  }

  /** The characters of a text that must be escaped there. */
  predicate ShouldEscape(c: char, m: Mode) {
    if Alphanumeric(c) then false
    else if c in "-_.~" then false
    else if c in "$&+,/:;=?@" then
      match m
      case Path => c == '?'
      case Segment => c == '/' || c == ';' || c == ',' || c == '?'
      case Query => true
    else true
  }

  function HexChar(n: nat): char
    requires n < 16
  {
    if n < 10 then '0' + n as char else 'A' + (n - 10) as char
  }

  function HexValue(c: char): int {
    if '0' <= c <= '9' then (c - '0') as int
    else if 'a' <= c <= 'f' then (c - 'a') as int + 10
    else if 'A' <= c <= 'F' then (c - 'A') as int + 10
    else -1
  }

  predicate IsHex(c: char) {
    HexValue(c) >= 0
  }

  function ByteOf(high: char, low: char): char
    requires IsHex(high) && IsHex(low)
  {
    (HexValue(high) * 16 + HexValue(low)) as char
  }

  function EscapeChar(c: char, m: Mode): string
    requires c < '\U{100}'
  {
    if m == Query && c == ' ' then "+"
    else if ShouldEscape(c, m) then ['%', HexChar(c as int / 16), HexChar(c as int % 16)]
    else [c]
  }

  /** url.PathEscape in the Segment mode, url.QueryEscape in the Query mode. */
  function Escape(s: Bytes, m: Mode): string {
    if s == "" then "" else EscapeChar(s[0], m) + Escape(s[1..], m)
  }

  /** url.PathUnescape and url.QueryUnescape; None for an escape that is not one. */
  function Unescape(s: string, m: Mode): Option<string>
    decreases |s|
  {
    if s == "" then Some("")
    else if s[0] == '%' then
      if |s| < 3 || !IsHex(s[1]) || !IsHex(s[2]) then None
      else
        var rest := Unescape(s[3..], m);
        if rest.None? then None else Some([ByteOf(s[1], s[2])] + rest.value)
    else
      var rest := Unescape(s[1..], m);
      if rest.None? then None
      else Some([if m == Query && s[0] == '+' then ' ' else s[0]] + rest.value)
  }

  // ---- decoding undoes encoding ----

  lemma HexRoundTrip(c: char)
    requires c < '\U{100}'
    ensures IsHex(HexChar(c as int / 16)) && IsHex(HexChar(c as int % 16))
    ensures ByteOf(HexChar(c as int / 16), HexChar(c as int % 16)) == c
  {
    HexDigit(c as int / 16);
    HexDigit(c as int % 16);
    hide HexChar, HexValue;
  }

  lemma HexDigit(n: nat)
    requires n < 16
    ensures HexValue(HexChar(n)) == n
  {
  }

  lemma UnescapeChar(c: char, rest: string, m: Mode, d: Mode)
    requires c < '\U{100}'
    requires m == Query <==> d == Query
    ensures Unescape(EscapeChar(c, m) + rest, d) ==
            if Unescape(rest, d).Some? then Some([c] + Unescape(rest, d).value) else None
  {
    var s := EscapeChar(c, m) + rest;
    HexRoundTrip(c);
    hide HexChar, IsHex, ByteOf;
    if m == Query && c == ' ' {
      assert s[1..] == rest;
    } else if ShouldEscape(c, m) {
      assert s[3..] == rest;
    } else {
      assert s[1..] == rest && s[0] == c && c != '%' && !(m == Query && c == '+');
    }
  }

  /** Decoding a text that starts with an encoded one gives that one back first. */
  lemma {:induction false} UnescapeEscapeThen(s: Bytes, rest: string, m: Mode, d: Mode)
    requires m == Query <==> d == Query
    ensures Unescape(Escape(s, m) + rest, d) ==
            if Unescape(rest, d).Some? then Some(s + Unescape(rest, d).value) else None
    decreases |s|
  {
    hide EscapeChar, Unescape;
    if s == "" {
      assert Escape(s, m) + rest == rest;
      if Unescape(rest, d).Some? {
        assert s + Unescape(rest, d).value == Unescape(rest, d).value;
      }
    } else {
      var tail := Escape(s[1..], m) + rest;
      UnescapeEscapeThen(s[1..], rest, m, d);
      UnescapeChar(s[0], tail, m, d);
      Regroup(EscapeChar(s[0], m), Escape(s[1..], m), rest);
      if Unescape(rest, d).Some? {
        assert s + Unescape(rest, d).value == [s[0]] + (s[1..] + Unescape(rest, d).value);
      }
    }
  }

  lemma UnescapeEscape(s: Bytes, m: Mode, d: Mode)
    requires m == Query <==> d == Query
    ensures Unescape(Escape(s, m), d) == Some(s)
  {
    UnescapeEscapeThen(s, "", m, d);
    assert s + "" == s;
    assert Escape(s, m) + "" == Escape(s, m);
    assert Unescape("", d) == Some("");
    hide Escape, Unescape;
  }

  /** An encoded segment holds no separator, and an encoded query value no space and no "=". */
  lemma {:induction false} EscapeFree(s: Bytes, m: Mode)
    ensures m == Segment ==> Free(Escape(s, m), '/')
    ensures m == Query ==> Free(Escape(s, m), ' ') && Free(Escape(s, m), '=') && Free(Escape(s, m), '/')
    ensures m == Path && Free(s, '/') ==> Free(Escape(s, m), '/')
    decreases |s|
  {
    if s != "" {
      EscapeFree(s[1..], m);
      CharFree(s[0], m);
      hide EscapeChar;
    }
  }

  lemma CharFree(c: char, m: Mode)
    requires c < '\U{100}'
    ensures m == Segment ==> '/' !in EscapeChar(c, m)
    ensures m == Query ==> ' ' !in EscapeChar(c, m) && '=' !in EscapeChar(c, m) && '/' !in EscapeChar(c, m)
    ensures m == Path && c != '/' ==> '/' !in EscapeChar(c, m)
  {
    HexIsPlain(c as int / 16);
    HexIsPlain(c as int % 16);
    hide HexChar;
  }

  lemma HexIsPlain(n: nat)
    requires n < 16
    ensures Alphanumeric(HexChar(n))
  {
  }

  lemma {:induction false} EscapeConcat(a: Bytes, b: Bytes, m: Mode)
    ensures IsBytes(a + b) && Escape(a + b, m) == Escape(a, m) + Escape(b, m)
    decreases |a|
  {
    hide EscapeChar;
    if a == "" {
      assert a + b == b;
    } else {
      EscapeConcat(a[1..], b, m);
      assert (a + b)[1..] == a[1..] + b;
    }
  }

  /** An encoded text is the text itself exactly when nothing in it needs escaping. */
  lemma {:induction false} EscapeUnchanged(s: Bytes, m: Mode)
    requires m != Query
    ensures |Escape(s, m)| >= |s|
    ensures Escape(s, m) == s <==> forall c <- s :: !ShouldEscape(c, m)
    decreases |s|
  {
    if s != "" {
      EscapeUnchanged(s[1..], m);
      if ShouldEscape(s[0], m) {
        assert |Escape(s, m)| == 3 + |Escape(s[1..], m)|;
        assert s[0] in s;
      } else {
        assert Escape(s, m)[1..] == Escape(s[1..], m);
        assert s == [s[0]] + s[1..];
      }
      hide ShouldEscape;
    }
  }

  // ---- decoding ----

  function Joined(a: Option<string>, b: Option<string>): Option<string> {
    if a.Some? && b.Some? then Some(a.value + b.value) else None
  }

  /** What decoding puts before the rest of a text that starts so. */
  lemma UnescapeHead(s: string)
    requires s != ""
    ensures s[0] != '%' ==> Unescape(s, Path) == Joined(Some([s[0]]), Unescape(s[1..], Path))
    ensures s[0] == '%' && |s| >= 3 && IsHex(s[1]) && IsHex(s[2]) ==>
              Unescape(s, Path) == Joined(Some([ByteOf(s[1], s[2])]), Unescape(s[3..], Path))
    ensures s[0] == '%' && (|s| < 3 || !IsHex(s[1]) || !IsHex(s[2])) ==> Unescape(s, Path) == None
  {
    hide IsHex, ByteOf;
  }

  lemma JoinedThrice(a: Option<string>, b: Option<string>, c: Option<string>)
    ensures Joined(a, Joined(b, c)) == Joined(Joined(a, b), c)
  {
    if a.Some? && b.Some? && c.Some? {
      Regroup(a.value, b.value, c.value);
    }
  }

  /** A separator is never part of an escape, so decoding works on each side of it. */
  lemma {:induction false} UnescapeAtSlash(a: string, b: string)
    ensures Unescape(a + ("/" + b), Path) == Joined(Unescape(a, Path), Unescape("/" + b, Path))
    decreases |a|
  {
    assert !IsHex('/');
    hide IsHex, ByteOf, Unescape, Joined;
    var s := a + ("/" + b);
    if a == "" {
      assert s == "/" + b;
      EmptyJoins(Unescape("/" + b, Path));
    } else {
      UnescapeHead(s);
      UnescapeHead(a);
      if a[0] != '%' {
        assert s[1..] == a[1..] + ("/" + b);
        UnescapeAtSlash(a[1..], b);
        JoinedThrice(Some([a[0]]), Unescape(a[1..], Path), Unescape("/" + b, Path));
      } else if |a| >= 3 && IsHex(a[1]) && IsHex(a[2]) {
        assert s[3..] == a[3..] + ("/" + b);
        UnescapeAtSlash(a[3..], b);
        JoinedThrice(Some([ByteOf(a[1], a[2])]), Unescape(a[3..], Path), Unescape("/" + b, Path));
      } else {
        assert |a| < 3 ==> s[|a|] == '/';
        NoneJoins(Unescape("/" + b, Path));
      }
    }
  }

  lemma EmptyJoins(x: Option<string>)
    ensures Joined(Unescape("", Path), x) == x
  {
    if x.Some? {
      assert "" + x.value == x.value;
    }
  }

  lemma NoneJoins(x: Option<string>)
    ensures Joined(None, x) == None
  {
  }

  /** Decoding shortens a text exactly when it holds an escape. */
  lemma {:induction false} UnescapeLength(s: string)
    requires Unescape(s, Path).Some?
    ensures |Unescape(s, Path).value| <= |s|
    ensures |Unescape(s, Path).value| == |s| <==> '%' !in s
    ensures '%' !in s ==> Unescape(s, Path).value == s
    decreases |s|
  {
    hide IsHex, ByteOf;
    if s != "" {
      if s[0] == '%' {
        UnescapeLength(s[3..]);
      } else {
        UnescapeLength(s[1..]);
        assert s == [s[0]] + s[1..];
      }
    }
  }

  lemma {:induction false} PlainDecodes(s: string)
    requires '%' !in s
    ensures Unescape(s, Path) == Some(s)
    decreases |s|
  {
    if s != "" {
      PlainDecodes(s[1..]);
      assert s == [s[0]] + s[1..];
    }
  }

  predicate EndsWith(s: string, c: char) {
    s != "" && s[|s| - 1] == c
  }

  predicate EndsEscapedSlash(s: string) {
    |s| >= 3 && (s[|s| - 3..] == "%2F" || s[|s| - 3..] == "%2f")
  }

  lemma SlashByte(high: char, low: char)
    requires IsHex(high) && IsHex(low)
    ensures ByteOf(high, low) == '/' <==> high == '2' && (low == 'F' || low == 'f')
  {
  }

  /** A decoded text ends in a separator exactly when the text does, plainly or escaped. */
  lemma {:induction false} DecodedEnd(s: string)
    requires Unescape(s, Path).Some?
    ensures EndsWith(Unescape(s, Path).value, '/') <==> EndsWith(s, '/') || EndsEscapedSlash(s)
    decreases |s|
  {
    if s != "" {
      UnescapeHead(s);
      HexIsNoPercent(s);
      hide IsHex, ByteOf, Unescape, EndsEscapedSlash, EndsWith;
      var n := if s[0] == '%' then 3 else 1;
      var rest := s[n..];
      if rest == "" {
        DecodedEndAtOnce(s);
      } else {
        DecodedEnd(rest);
        SuffixAfter(s, n);
        NotEmptied(rest);
        EndOfConcat(if n == 3 then [ByteOf(s[1], s[2])] else [s[0]], Unescape(rest, Path).value);
        EndOfConcat(s[..n], rest);
        assert s == s[..n] + rest;
      }
    }
  }

  lemma EndOfConcat(a: string, b: string)
    requires b != ""
    ensures EndsWith(a + b, '/') <==> EndsWith(b, '/')
  {
  }

  lemma NotEmptied(s: string)
    requires s != "" && Unescape(s, Path).Some?
    ensures Unescape(s, Path).value != ""
  {
    hide IsHex, ByteOf;
  }

  lemma HexIsNoPercent(s: string)
    requires s != "" && Unescape(s, Path).Some?
    ensures s[0] == '%' ==> |s| >= 3 && IsHex(s[1]) && IsHex(s[2]) && s[1] != '%' && s[2] != '%'
  {
    assert !IsHex('%');
    hide IsHex, ByteOf;
  }

  lemma DecodedEndAtOnce(s: string)
    requires |s| == 1 || (|s| == 3 && s[0] == '%')
    requires Unescape(s, Path).Some?
    ensures EndsWith(Unescape(s, Path).value, '/') <==> EndsWith(s, '/') || EndsEscapedSlash(s)
  {
    UnescapeHead(s);
    assert !IsHex('/');
    assert Unescape("", Path) == Some("");
    if |s| == 3 {
      SlashByte(s[1], s[2]);
      hide IsHex, ByteOf, Unescape;
      assert s[3..] == "" && s[0..] == s;
    } else {
      hide IsHex, ByteOf, Unescape;
      assert s[1..] == "";
    }
  }

  lemma SuffixAfter(s: string, n: nat)
    requires n < |s| && (n == 1 || n == 3)
    requires n == 1 ==> s[0] != '%'
    requires n == 3 ==> s[1] != '%' && s[2] != '%'
    ensures EndsEscapedSlash(s) <==> EndsEscapedSlash(s[n..])
  {
    var rest := s[n..];
    if |rest| >= 3 {
      assert s[|s| - 3..] == rest[|rest| - 3..];
    } else if |s| >= 3 {
      assert s[|s| - 3..][0] == s[|s| - 3];
    }
  }

  // ---- url.URL ----

  datatype URL = URL(path: Bytes, rawPath: string)

  predicate ValidChar(c: char) {
    c in "!$&'()*+,;=:@[]%" || !ShouldEscape(c, Path)
  }

  predicate ValidEncoded(s: string) {
    forall c <- s :: ValidChar(c)
  }

  /** rawPath is used only when it is a valid encoding of path. */
  function EscapedPath(u: URL): string {
    if u.rawPath != "" && ValidEncoded(u.rawPath) && Unescape(u.rawPath, Path) == Some(u.path) then u.rawPath
    else if u.path == "*" then "*"
    else Escape(u.path, Path)
  }

  /** What url.Parse makes of the path of an address. */
  function Parse(p: string): Option<URL> {
    var path := Unescape(p, Path);
    if path.None? || !IsBytes(path.value) then None
    else Some(URL(path.value, if Escape(path.value, Path) == p then "" else p))
  }

  lemma {:induction false} EscapeIsValid(s: Bytes, m: Mode)
    requires m != Query
    ensures ValidEncoded(Escape(s, m))
    decreases |s|
  {
    if s != "" {
      EscapeIsValid(s[1..], m);
      CharIsValid(s[0], m);
      hide EscapeChar, ValidChar;
    }
  }

  lemma CharIsValid(c: char, m: Mode)
    requires c < '\U{100}' && m != Query
    ensures forall d <- EscapeChar(c, m) :: ValidChar(d)
  {
    if ShouldEscape(c, m) {
      HexIsValid(c as int / 16);
      HexIsValid(c as int % 16);
    }
  }

  lemma HexIsValid(n: nat)
    requires n < 16
    ensures ValidChar(HexChar(n))
  {
  }

  /** Whatever the two fields hold, the escaped path is a valid encoding of the path. */
  lemma EscapedPathDecodes(u: URL)
    ensures Unescape(EscapedPath(u), Path) == Some(u.path) && ValidEncoded(EscapedPath(u))
  {
    UnescapeEscape(u.path, Path, Path);
    EscapeIsValid(u.path, Path);
    PlainDecodes("*");
    hide Escape, Unescape;
  }

  /** The request is built by printing the address and parsing it again, which
      leaves the escaped path as it is. */
  lemma RequestKeepsPath(u: URL)
    requires u.path != "*"
    ensures Parse(EscapedPath(u)).Some? && EscapedPath(Parse(EscapedPath(u)).value) == EscapedPath(u)
  {
    EscapedPathDecodes(u);
    hide Escape, Unescape, ValidEncoded, IsBytes;
    UnescapeEscapeEmpty();
  }

  lemma UnescapeEscapeEmpty()
    ensures Escape("", Path) == ""
  {
  }
}
