/** The list of recently opened repositories, which lives in a cookie and nowhere else. */
module Session {
  import opened Wrappers
  import opened Text
  import opened Url
  import C = Cookies
  import Sq = Sequences

  const LIMIT := 12

  // ---- what an entry may hold ----

  predicate PlausibleChar(c: char) {
    Alphanumeric(c) || c == '-' || c == '_' || c == '.'
  }

  predicate PlausibleID(id: string) {
    id != "" && |id| <= 128 && forall i :: 0 <= i < |id| ==> PlausibleChar(id[i])
  }

  /** An owner and a slug. */
  predicate PlausibleName(name: string) {
    var cut := Cut(name, '/');
    cut.2 && PlausibleID(cut.0) && PlausibleID(cut.1)
  }

  lemma PlausibleBytes(s: string)
    ensures PlausibleID(s) ==> IsBytes(s)
    ensures PlausibleName(s) ==> IsBytes(s)
  {
    var cut := Cut(s, '/');
    assert cut.2 ==> s == cut.0 + ['/'] + cut.1;
  }

  datatype Opened = Opened(id: Bytes, name: Bytes)

  /** What the list may keep: a plausible id, and a plausible name or none. */
  predicate Keepable(o: Opened) {
    PlausibleID(o.id) && (o.name == "" || PlausibleName(o.name))
  }

  /** The name as the list keeps it. */
  function KeptName(name: string): Bytes {
    PlausibleBytes(name);
    if PlausibleName(name) then name else ""
  }

  // ---- the codec ----

  function FormatOpened(o: Opened): string {
    Escape(o.id, Query) + if o.name == "" then "" else "=" + Escape(o.name, Query)
  }

  function ParseOpened(part: string): Option<Opened> {
    var cut := Cut(part, '=');
    var id := Unescape(cut.0, Query);
    if id.None? || !PlausibleID(id.value) then None
    else
      PlausibleBytes(id.value);
      var name := Unescape(cut.1, Query);
      Some(Opened(id.value, if name.None? then "" else KeptName(name.value)))
  }

  function ParseAll(parts: seq<string>): seq<Opened> {
    if parts == [] then []
    else
      var before, o := ParseAll(parts[..|parts| - 1]), ParseOpened(parts[|parts| - 1]);
      if o.Some? then before + [o.value] else before
  }

  function Take(list: seq<Opened>, n: nat): seq<Opened> {
    if |list| <= n then list else list[..n]
  }

  /** The list a cookie value stands for. */
  function RecentOf(value: string): seq<Opened> {
    if value == "" then [] else Take(ParseAll(Split(value, ' ')), LIMIT)
  }

  function FormatAll(list: seq<Opened>): seq<string> {
    seq(|list|, i requires 0 <= i < |list| => FormatOpened(list[i]))
  }

  /** The cookie value of a list. */
  function Format(list: seq<Opened>): string {
    Join(FormatAll(list), ' ')
  }

  // ---- editing the list ----

  /** The entries of other repositories, in order. */
  function Others(list: seq<Opened>, id: string): seq<Opened> {
    if list == [] then []
    else
      var before, last := Others(list[..|list| - 1], id), list[|list| - 1];
      if last.id != id then before + [last] else before
  }

  function Remembered(list: seq<Opened>, id: Bytes, name: string): seq<Opened> {
    Take([Opened(id, KeptName(name))] + Others(list, id), LIMIT)
  }

  // ---- the response header ----

  /** The cookie names in force: the __Host- prefix needs a secure connection. */
  datatype Names = Names(secure: bool) {
    function Recent(): string { if secure then "__Host-origoweb-recent" else "origoweb-recent" }
    function Session(): string { if secure then "__Host-origoweb-session" else "origoweb-session" }
    function Attributes(maxAge: string): string {
      "; Path=/; Max-Age=" + maxAge + "; HttpOnly" + (if secure then "; Secure" else "") + "; SameSite=Lax"
    }
    /** The line that sets the list, and the line that takes it away. */
    function RecentLine(list: seq<Opened>): string {
      Recent() + "=" +
      if list == [] then Attributes("0")
      else Quoted(Format(list)) + Attributes("43200")
    }
    function SessionCleared(): string { Session() + "=" + Attributes("0") }
  }

  /** Go quotes a cookie value that holds a space. */
  function Quoted(value: string): string {
    if ' ' in value then "\"" + value + "\"" else value
  }

  lemma QueryChar(c: char)
    requires c < '\U{100}'
    ensures forall d <- EscapeChar(c, Query) :: Alphanumeric(d) || d in "-_.~%+"
  {
    HexIsPlain(c as int / 16);
    HexIsPlain(c as int % 16);
    hide HexChar;
  }

  /** An escaped query value holds nothing a cookie line gives a meaning to. */
  lemma {:induction false} QueryChars(s: Bytes)
    ensures forall d <- Escape(s, Query) :: Alphanumeric(d) || d in "-_.~%+"
    decreases |s|
  {
    hide EscapeChar;
    if s != "" {
      QueryChars(s[1..]);
      QueryChar(s[0]);
    }
  }

  predicate CookieText(s: string) {
    Free(s, ';') && Free(s, '"')
  }

  lemma EscapedIsCookieText(s: Bytes)
    ensures CookieText(Escape(s, Query))
  {
    QueryChars(s);
    hide Escape;
    assert ';' !in "-_.~%+" && '"' !in "-_.~%+";
    assert !Alphanumeric(';') && !Alphanumeric('"');
  }

  lemma EntryIsCookieText(o: Opened)
    ensures CookieText(FormatOpened(o))
  {
    EscapedIsCookieText(o.id);
    EscapedIsCookieText(o.name);
    hide Escape;
  }

  lemma {:induction false} JoinedIsCookieText(parts: seq<string>)
    requires forall p <- parts :: CookieText(p)
    ensures CookieText(Join(parts, ' '))
    decreases |parts|
  {
    if parts != [] {
      assert parts[0] in parts;
      JoinedIsCookieText(parts[1..]);
    }
  }

  lemma ListIsCookieText(list: seq<Opened>)
    ensures CookieText(Format(list))
  {
    hide FormatOpened, Join, CookieText;
    forall p | p in FormatAll(list) ensures CookieText(p) {
      var i :| 0 <= i < |list| && FormatAll(list)[i] == p;
      EntryIsCookieText(list[i]);
    }
    JoinedIsCookieText(FormatAll(list));
  }

  lemma QuotesComeOff(value: string)
    requires CookieText(value)
    ensures C.Unquoted(Quoted(value)) == value && Free(Quoted(value), ';')
  {
    if value != "" && ' ' !in value {
      assert value[0] in value;
    }
  }

  /** What is sent with a cookie: every path, no script, the secure channel where there is
      one, and no other site's form. */
  function AttributeList(secure: bool, maxAge: string): seq<string> {
    [" Path=/", " Max-Age=" + maxAge, " HttpOnly"] + (if secure then [" Secure"] else []) + [" SameSite=Lax"]
  }

  lemma AttributesJoined(names: Names, maxAge: string)
    ensures names.Attributes(maxAge) == ";" + Join(AttributeList(names.secure, maxAge), ';')
  {
    var m := " Max-Age=" + maxAge;
    AttributesSpelled(maxAge);
    if names.secure {
      assert AttributeList(true, maxAge) == [" Path=/", m, " HttpOnly", " Secure", " SameSite=Lax"];
      JoinFive(" Path=/", m, " HttpOnly", " Secure", " SameSite=Lax");
    } else {
      assert AttributeList(false, maxAge) == [" Path=/", m, " HttpOnly", " SameSite=Lax"];
      JoinFour(" Path=/", m, " HttpOnly", " SameSite=Lax");
    }
    hide Join, AttributeList;
  }

  lemma AttributesSpelled(age: string)
    ensures Names(true).Attributes(age) ==
      ";" + (" Path=/" + (";" + ((" Max-Age=" + age) +
        (";" + (" HttpOnly" + (";" + (" Secure" + (";" + " SameSite=Lax"))))))))
    ensures Names(false).Attributes(age) ==
      ";" + (" Path=/" + (";" + ((" Max-Age=" + age) + (";" + (" HttpOnly" + (";" + " SameSite=Lax"))))))
  {
    var front := "; Path=/; Max-Age=" + age;
    var s, e := "; Secure", "; SameSite=Lax";
    assert ";" + " SameSite=Lax" == e;
    assert ";" + (" Secure" + e) == s + e;
    assert ";" + (" HttpOnly" + (s + e)) == "; HttpOnly" + s + e;
    assert ";" + (" HttpOnly" + e) == "; HttpOnly" + "" + e;
    assert ";" + (" Path=/" + (";" + (" Max-Age=" + age))) == front;
    SpelledOut(";", " Path=/", ";", " Max-Age=" + age, "; HttpOnly" + s + e);
    SpelledOut(";", " Path=/", ";", " Max-Age=" + age, "; HttpOnly" + "" + e);
    assert front + ("; HttpOnly" + s + e) == Names(true).Attributes(age);
    assert front + ("; HttpOnly" + "" + e) == Names(false).Attributes(age);
  }

  lemma SpelledOut(a: string, b: string, c: string, d: string, rest: string)
    ensures a + (b + (c + (d + rest))) == a + (b + (c + d)) + rest
  {
  }

  lemma JoinTwo(a: string, rest: seq<string>)
    requires rest != []
    ensures Join([a] + rest, ';') == a + ";" + Join(rest, ';')
  {
    assert ([a] + rest)[1..] == rest;
    assert a + [';'] + Join(rest, ';') == a + ";" + Join(rest, ';');
  }

  lemma JoinFour(a: string, b: string, c: string, d: string)
    ensures Join([a, b, c, d], ';') == a + (";" + (b + (";" + (c + (";" + d)))))
  {
    assert Join([d], ';') == d;
    JoinTwo(c, [d]);
    JoinTwo(b, [c, d]);
    JoinTwo(a, [b, c, d]);
    hide Join;
    assert [c] + [d] == [c, d] && [b] + [c, d] == [b, c, d] && [a] + [b, c, d] == [a, b, c, d];
  }

  lemma JoinFive(a: string, b: string, c: string, d: string, e: string)
    ensures Join([a, b, c, d, e], ';') == a + (";" + (b + (";" + (c + (";" + (d + (";" + e)))))))
  {
    JoinFour(b, c, d, e);
    JoinTwo(a, [b, c, d, e]);
    hide Join;
    assert [a] + [b, c, d, e] == [a, b, c, d, e];
  }

  lemma AttributesAreFree(secure: bool, maxAge: string)
    requires Free(maxAge, ';')
    ensures AllFree(AttributeList(secure, maxAge), ';')
  {
    assert Free(" Max-Age=" + maxAge, ';');
  }

  lemma AgeIsThere(secure: bool)
    ensures " Max-Age=0" in AttributeList(secure, "0")
    ensures " Max-Age=0" !in AttributeList(secure, "43200")
  {
    assert AttributeList(secure, "0")[1] == " Max-Age=0";
    var long := AttributeList(secure, "43200");
    assert |long[1]| == 14;
    assert forall i :: 0 <= i < |long| && i != 1 ==> long[i][1] != 'M';
  }

  lemma LineIsLaidOut(names: Names, value: string, age: string)
    ensures names.Recent() + "=" + (value + names.Attributes(age)) ==
            names.Recent() + "=" + (value + ";" + Join(AttributeList(names.secure, age), ';'))
  {
    AttributesJoined(names, age);
    hide *;
    Regroup(value, ";", Join(AttributeList(names.secure, age), ';'));
  }

  /** A browser reads the list from its line, whatever the list is, and drops the
      cookie for an empty one. */
  lemma LineIsRead(names: Names, list: seq<Opened>)
    ensures C.Names(names.RecentLine(list), names.Recent())
    ensures C.Read(names.RecentLine(list), names.Recent()) == Format(list)
    ensures var attributes := C.Parts(names.RecentLine(list), names.Recent()).1;
      attributes == AttributeList(names.secure, if list == [] then "0" else "43200") &&
      (" Max-Age=0" in attributes <==> list == [])
  {
    var age := if list == [] then "0" else "43200";
    var value := if list == [] then "" else Quoted(Format(list));
    var attributes := AttributeList(names.secure, age);
    LineSpelled(names, list);
    ListIsCookieText(list);
    QuotesComeOff(Format(list));
    AttributesAreFree(names.secure, age);
    AgeIsThere(names.secure);
    LineIsLaidOut(names, value, age);
    EmptyList();
    hide Join, Quoted, Format, AttributeList, Names.Recent, Names.Attributes, Names.RecentLine, C.Parts, C.Names,
         C.Unquoted, Cut, Split, AllFree;
    C.LineParts(names.Recent(), value, attributes);
  }

  lemma LineSpelled(names: Names, list: seq<Opened>)
    ensures names.RecentLine(list) ==
            names.Recent() + "=" +
              ((if list == [] then "" else Quoted(Format(list))) +
               names.Attributes(if list == [] then "0" else "43200"))
  {
    hide Format, Quoted, Names.Attributes, Names.Recent;
    assert "" + names.Attributes("0") == names.Attributes("0");
  }

  lemma EmptyList()
    ensures Format([]) == "" && Free("", ';') && Free("0", ';') && Free("43200", ';')
  {
  }

  lemma ListIsKept(names: Names, lines: seq<string>, list: seq<Opened>)
    ensures forall was :: C.Jar(names.Recent(), was, lines + [names.RecentLine(list)]) == Format(list)
  {
    LineIsRead(names, list);
    hide Names.RecentLine, Names.Recent, Format, C.Read, C.Names, C.Jar;
    forall was ensures C.Jar(names.Recent(), was, lines + [names.RecentLine(list)]) == Format(list) {
      C.JarLast(names.Recent(), was, lines, names.RecentLine(list));
    }
  }

  lemma SessionIsRead(names: Names)
    ensures C.Names(names.SessionCleared(), names.Session())
    ensures C.Read(names.SessionCleared(), names.Session()) == ""
    ensures C.Parts(names.SessionCleared(), names.Session()).1 == AttributeList(names.secure, "0")
  {
    AttributesAreFree(names.secure, "0");
    AgeIsThere(names.secure);
    AttributesJoined(names, "0");
    hide Join, AttributeList, Names.Session, Names.Attributes, C.Parts, C.Names, AllFree;
    var rest := Join(AttributeList(names.secure, "0"), ';');
    assert names.SessionCleared() == names.Session() + "=" + ("" + ";" + rest);
    C.LineParts(names.Session(), "", AttributeList(names.secure, "0"));
  }

  /** Neither name's lines are the other's. */
  lemma NamesApart(names: Names, line: string)
    ensures !(C.Names(line, names.Recent()) && C.Names(line, names.Session()))
  {
    var r, s := names.Recent() + "=", names.Session() + "=";
    var i := if names.secure then 16 else 9;
    assert r[i] == 'r' && s[i] == 's';
  }

  lemma BothAreDropped(names: Names, lines: seq<string>)
    ensures var left := lines + [names.SessionCleared()] + [names.RecentLine([])];
      forall was :: C.Jar(names.Recent(), was, left) == C.Jar(names.Session(), was, left) == ""
  {
    var first, last := names.SessionCleared(), names.RecentLine([]);
    SessionIsRead(names);
    LineIsRead(names, []);
    EmptyList();
    NamesApart(names, last);
    hide *;
    forall was
      ensures C.Jar(names.Recent(), was, lines + [first] + [last]) == ""
      ensures C.Jar(names.Session(), was, lines + [first] + [last]) == "" {
      C.JarLast(names.Recent(), was, lines + [first], last);
      C.JarLast(names.Session(), was, lines + [first], last);
      C.JarLast(names.Session(), was, lines, first);
    }
  }

  /** The lines that do not start so. */
  function Without(lines: seq<string>, start: string): seq<string> {
    if lines == [] then []
    else
      var before, last := Without(lines[..|lines| - 1], start), lines[|lines| - 1];
      if HasPrefix(last, start) then before else before + [last]
  }

  /** The lines that start so. */
  function Only(lines: seq<string>, start: string): seq<string> {
    if lines == [] then []
    else
      var before, last := Only(lines[..|lines| - 1], start), lines[|lines| - 1];
      if HasPrefix(last, start) then before + [last] else before
  }

  function Starting(start: string): string -> bool { (line: string) => HasPrefix(line, start) }
  function NotStarting(start: string): string -> bool { (line: string) => !HasPrefix(line, start) }
  function OtherThan(id: string): Opened -> bool { (o: Opened) => o.id != id }

  /** The lines are parted by how they start, each part in order and as often. */
  lemma {:induction false} LinesParted(lines: seq<string>, start: string)
    ensures Sq.Selected(lines, Without(lines, start), NotStarting(start))
    ensures Sq.Selected(lines, Only(lines, start), Starting(start))
    decreases |lines|
  {
    hide Sq.Selected;
    if lines == [] {
      Sq.SelectsNothing(NotStarting(start));
      Sq.SelectsNothing(Starting(start));
    } else {
      var front, last := lines[..|lines| - 1], lines[|lines| - 1];
      LinesParted(front, start);
      Sq.SelectsMore(front, Without(front, start), NotStarting(start), last);
      Sq.SelectsMore(front, Only(front, start), Starting(start), last);
      assert lines == front + [last];
      assert Starting(start)(last) <==> HasPrefix(last, start);
      assert NotStarting(start)(last) <==> !HasPrefix(last, start);
    }
  }

  /** Dropping a repository keeps the other entries, in order and as often. */
  lemma {:induction false} OthersSelect(list: seq<Opened>, id: string)
    ensures Sq.Selected(list, Others(list, id), OtherThan(id))
    decreases |list|
  {
    hide Sq.Selected;
    if list == [] {
      Sq.SelectsNothing(OtherThan(id));
    } else {
      var front, last := list[..|list| - 1], list[|list| - 1];
      OthersSelect(front, id);
      Sq.SelectsMore(front, Others(front, id), OtherThan(id), last);
      assert list == front + [last];
      assert OtherThan(id)(last) <==> last.id != id;
    }
  }

  class Response {
    var setCookie: seq<string>

    constructor ()
      ensures setCookie == []
    {
      setCookie := [];
    }
  }

  // ---- the operations as the source writes them ----

  class Manager {
    const names: Names

    constructor (secure: bool)
      ensures names == Names(secure)
    {
      names := Names(secure);
    }

    /** The list on the request; `value` is the cookie's, empty when there is none. */
    method Recent(value: string) returns (out: seq<Opened>)
      ensures out == RecentOf(value)
    {
      hide ParseOpened;
      out := [];
      if value == "" {
        return;
      }
      var parts := Split(value, ' ');
      for i := 0 to |parts|
        invariant out == ParseAll(parts[..i])
        invariant |out| < LIMIT
      {
        assert parts[..i + 1][..i] == parts[..i];
        var o := ParseOpened(parts[i]);
        if o.None? {
          continue;
        }
        out := out + [o.value];
        if |out| == LIMIT {
          TakenEarly(parts, i + 1);
          return;
        }
      }
      assert parts[..|parts|] == parts;
    }

    method Remember(w: Response, value: string, id: Bytes, name: string)
      modifies w
      ensures w.setCookie ==
        if PlausibleID(id)
        then Without(old(w.setCookie), names.Recent() + "=") + [names.RecentLine(Remembered(RecentOf(value), id, name))]
        else old(w.setCookie)
      ensures PlausibleID(id) ==>
        forall was :: C.Jar(names.Recent(), was, w.setCookie) == Format(Remembered(RecentOf(value), id, name))
    {
      assert Others([], id) == [];
      hide C.Jar, Format, PlausibleID, PlausibleName, RecentOf, KeptName, Without, Names.RecentLine, Names.Recent,
           Others;
      if !PlausibleID(id) {
        return;
      }
      var next := [Opened(id, KeptName(name))];
      var list := Recent(value);
      for i := 0 to |list|
        invariant next == [Opened(id, KeptName(name))] + Others(list[..i], id)
        invariant |next| < LIMIT
        invariant w.setCookie == old(w.setCookie)
      {
        OthersStep(list, i, id);
        if list[i].id != id {
          next := next + [list[i]];
        }
        if |next| == LIMIT {
          RememberedEarly(list, i + 1, id, name);
          assert next == Remembered(list, id, name);
          WriteRecent(w, next);
          return;
        }
      }
      assert list[..|list|] == list;
      assert next == Remembered(list, id, name);
      WriteRecent(w, next);
    }

    method Forget(w: Response, value: string, id: string)
      modifies w
      ensures w.setCookie ==
        Without(old(w.setCookie), names.Recent() + "=") + [names.RecentLine(Others(RecentOf(value), id))]
      ensures forall was :: C.Jar(names.Recent(), was, w.setCookie) == Format(Others(RecentOf(value), id))
    {
      assert Others([], id) == [];
      hide C.Jar, Format, RecentOf, Without, Names.RecentLine, Names.Recent, Others;
      var next: seq<Opened> := [];
      var list := Recent(value);
      for i := 0 to |list|
        invariant w.setCookie == old(w.setCookie)
        invariant next == Others(list[..i], id)
      {
        OthersStep(list, i, id);
        if list[i].id != id {
          next := next + [list[i]];
        }
      }
      assert list[..|list|] == list;
      WriteRecent(w, next);
    }

    /** The one place the recent cookie is written. */
    method WriteRecent(w: Response, list: seq<Opened>)
      modifies w
      ensures w.setCookie == Without(old(w.setCookie), names.Recent() + "=") + [names.RecentLine(list)]
      ensures forall was :: C.Jar(names.Recent(), was, w.setCookie) == Format(list)
    {
      hide Names.Recent, Names.Attributes, FormatOpened, Join, C.Jar;
      var kept: seq<string> := [];
      for i := 0 to |w.setCookie|
        invariant w.setCookie == old(w.setCookie)
        invariant kept == Without(w.setCookie[..i], names.Recent() + "=")
      {
        assert w.setCookie[..i + 1][..i] == w.setCookie[..i];
        if !HasPrefix(w.setCookie[i], names.Recent() + "=") {
          kept := kept + [w.setCookie[i]];
        }
      }
      assert w.setCookie[..|w.setCookie|] == w.setCookie;
      w.setCookie := kept;
      ListIsKept(names, kept, list);
      if list == [] {
        w.setCookie := w.setCookie + [names.Recent() + "=" + names.Attributes("0")];
        return;
      }
      var parts: seq<string> := [];
      for i := 0 to |list|
        invariant parts == FormatAll(list)[..i]
        invariant w.setCookie == kept
      {
        parts := parts + [FormatOpened(list[i])];
      }
      assert FormatAll(list)[..|list|] == FormatAll(list);
      w.setCookie := w.setCookie + [names.Recent() + "=" + (Quoted(Join(parts, ' ')) + names.Attributes("43200"))];
    }

    /** Removes the session and the list; it is the one writer that takes nothing back. */
    method Clear(w: Response)
      modifies w
      ensures w.setCookie == old(w.setCookie) + [names.SessionCleared(), names.RecentLine([])]
      ensures forall was :: C.Jar(names.Recent(), was, w.setCookie) == C.Jar(names.Session(), was, w.setCookie) == ""
    {
      BothAreDropped(names, w.setCookie);
      hide C.Jar;
      w.setCookie := w.setCookie + [names.SessionCleared()];
      w.setCookie := w.setCookie + [names.Recent() + "=" + names.Attributes("0")];
    }
  }

  lemma OthersAppend(list: seq<Opened>, o: Opened, id: string)
    ensures Others(list + [o], id) == if o.id != id then Others(list, id) + [o] else Others(list, id)
  {
    assert (list + [o])[..|list|] == list;
  }

  lemma OthersStep(list: seq<Opened>, i: nat, id: string)
    requires i < |list|
    ensures Others(list[..i + 1], id) ==
            if list[i].id != id then Others(list[..i], id) + [list[i]] else Others(list[..i], id)
  {
    assert list[..i + 1] == list[..i] + [list[i]];
    OthersAppend(list[..i], list[i], id);
  }

  lemma {:induction false} ParseAllPrefix(parts: seq<string>, i: nat)
    requires i <= |parts|
    ensures ParseAll(parts[..i]) <= ParseAll(parts)
    decreases |parts| - i
  {
    hide ParseOpened;
    if i == |parts| {
      assert parts[..i] == parts;
    } else {
      ParseAllPrefix(parts, i + 1);
      assert parts[..i + 1][..i] == parts[..i];
    }
  }

  lemma TakenEarly(parts: seq<string>, i: nat)
    requires i <= |parts| && |ParseAll(parts[..i])| == LIMIT
    ensures Take(ParseAll(parts), LIMIT) == ParseAll(parts[..i])
  {
    ParseAllPrefix(parts, i);
  }

  /** Removing one repository keeps prefixes. */
  lemma {:induction false} OthersPrefix(list: seq<Opened>, i: nat, id: string)
    requires i <= |list|
    ensures Others(list[..i], id) <= Others(list, id)
    decreases |list| - i
  {
    if i == |list| {
      assert list[..i] == list;
    } else {
      OthersPrefix(list, i + 1, id);
      assert list[..i + 1] == list[..i] + [list[i]];
      OthersAppend(list[..i], list[i], id);
    }
  }

  lemma RememberedEarly(list: seq<Opened>, i: nat, id: Bytes, name: string)
    requires i <= |list| && |Others(list[..i], id)| == LIMIT - 1
    ensures Remembered(list, id, name) == [Opened(id, KeptName(name))] + Others(list[..i], id)
  {
    hide KeptName;
    OthersPrefix(list, i, id);
  }
}
