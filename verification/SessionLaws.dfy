/** What the recent list promises: its codec, its runs and its one cookie a response. */
module SessionLaws {
  import opened Wrappers
  import opened Text
  import opened Url
  import opened Session
  import Sq = Sequences

  // ---- the codec ----

  lemma EntryCut(o: Opened)
    requires o.id != ""
    ensures var cut := Cut(FormatOpened(o), '=');
            cut.0 == Escape(o.id, Query) && cut.1 == if o.name == "" then "" else Escape(o.name, Query)
    ensures Free(FormatOpened(o), ' ') && FormatOpened(o) != ""
  {
    EscapeFree(o.id, Query);
    EscapeFree(o.name, Query);
    NotEmptyEscaped(o.id);
    hide Escape, IsBytes;
    var id, name := Escape(o.id, Query), Escape(o.name, Query);
    if o.name == "" {
      assert FormatOpened(o) == id;
    } else {
      assert FormatOpened(o) == id + ['='] + name;
      CutConcat(id, '=', name);
    }
  }

  lemma EntryReads(o: Opened)
    requires Keepable(o)
    ensures ParseOpened(FormatOpened(o)) == Some(o)
    ensures Free(FormatOpened(o), ' ') && FormatOpened(o) != ""
  {
    assert o.id != "" by { hide PlausibleName; }
    NoName();
    hide Escape, Unescape, PlausibleID, PlausibleName, FormatOpened, Cut, IsBytes, Free;
    EntryCut(o);
    UnescapeEscape(o.id, Query, Query);
    UnescapeEscape(o.name, Query, Query);
  }

  lemma NoName()
    ensures Unescape("", Query) == Some("") && !PlausibleName("")
  {
  }

  lemma NotEmptyEscaped(s: Bytes)
    requires s != ""
    ensures Escape(s, Query) != ""
  {
  }

  lemma {:induction false} ListReads(list: seq<Opened>)
    requires forall o <- list :: Keepable(o)
    ensures ParseAll(FormatAll(list)) == list
    decreases |list|
  {
    hide ParseOpened, FormatOpened, Keepable;
    if list != [] {
      var front, last := list[..|list| - 1], list[|list| - 1];
      ListReads(front);
      EntryReads(last);
      var parts := FormatAll(list);
      assert parts[..|parts| - 1] == FormatAll(front);
      assert list == front + [last];
    }
  }

  /** A list of at most twelve plausible entries survives the cookie. */
  lemma CodecRoundTrip(list: seq<Opened>)
    requires |list| <= LIMIT
    requires forall o <- list :: Keepable(o)
    ensures RecentOf(Format(list)) == list
  {
    hide ParseOpened, FormatOpened, Keepable;
    if list != [] {
      var parts := FormatAll(list);
      forall i | 0 <= i < |parts| ensures Free(parts[i], ' ') {
        EntryReads(list[i]);
      }
      EntryReads(list[0]);
      FirstJoined(parts, ' ');
      SplitJoin(parts, ' ');
      ListReads(list);
    }
  }

  lemma FirstJoined(parts: seq<string>, sep: char)
    requires parts != [] && parts[0] != ""
    ensures Join(parts, sep) != ""
  {
  }

  lemma {:induction false} ParsedAreKeepable(parts: seq<string>)
    ensures forall o <- ParseAll(parts) :: Keepable(o)
    decreases |parts|
  {
    if parts != [] {
      ParsedAreKeepable(parts[..|parts| - 1]);
      hide Unescape, PlausibleID, PlausibleName;
    }
  }

  /** Whatever a cookie was edited to, what is read from it is plausible, at most
      twelve entries, and unchanged by writing it back. */
  lemma EditedCookie(value: string)
    ensures |RecentOf(value)| <= LIMIT
    ensures forall o <- RecentOf(value) :: Keepable(o)
    ensures RecentOf(Format(RecentOf(value))) == RecentOf(value)
  {
    hide ParseOpened, Keepable, Format;
    ParsedAreKeepable(Split(value, ' '));
    CodecRoundTrip(RecentOf(value));
  }

  function Legible(): string -> bool { (part: string) => ParseOpened(part).Some? }

  predicate ReadFrom(entries: seq<Opened>, parts: seq<string>) {
    |entries| == |parts| && forall i :: 0 <= i < |parts| ==> ParseOpened(parts[i]) == Some(entries[i])
  }

  lemma {:induction false} PartsRead(parts: seq<string>) returns (kept: seq<string>)
    ensures Sq.Selected(parts, kept, Legible()) && ReadFrom(ParseAll(parts), kept)
    decreases |parts|
  {
    hide ParseOpened, Sq.Selected;
    if parts == [] {
      kept := [];
      Sq.SelectsNothing(Legible());
    } else {
      var front, last := parts[..|parts| - 1], parts[|parts| - 1];
      kept := PartsRead(front);
      Sq.SelectsMore(front, kept, Legible(), last);
      assert parts == front + [last];
      assert Legible()(last) <==> ParseOpened(last).Some?;
      if ParseOpened(last).Some? { kept := kept + [last]; }
    }
  }

  /** What is read from a cookie is the entries of its pieces, in order: a piece that is
      no entry is passed over, and what follows it is read. */
  lemma UnreadableIsPassedOver(value: string)
    requires value != ""
    ensures var parts := Split(value, ' ');
      exists kept, entries ::
        Sq.Selected(parts, kept, Legible()) && ReadFrom(entries, kept) && RecentOf(value) == Take(entries, LIMIT)
  {
    var kept := PartsRead(Split(value, ' '));
    hide ParseOpened, Sq.Selected, ReadFrom;
  }

  /** An entry with no name, as an earlier release wrote it, reads with none; and a name
      that is not shaped like one costs the name and not the entry. */
  lemma EntryWithoutName(id: Bytes, name: Bytes)
    requires PlausibleID(id)
    ensures ParseOpened(Escape(id, Query)) == Some(Opened(id, ""))
    ensures ParseOpened(Escape(id, Query) + "=" + Escape(name, Query)) ==
            Some(Opened(id, if PlausibleName(name) then name else ""))
  {
    EscapeFree(id, Query);
    UnescapeEscape(id, Query, Query);
    UnescapeEscape(name, Query, Query);
    NoName();
    var part := Escape(id, Query) + ['='] + Escape(name, Query);
    hide Escape, Unescape, PlausibleID, PlausibleName, Cut, IsBytes;
    assert Escape(id, Query) + "=" + Escape(name, Query) == part;
    CutConcat(Escape(id, Query), '=', Escape(name, Query));
  }

  /** No entry is read from a piece whose identifier does not decode to a plausible one. */
  lemma EntryNeedsID(part: string)
    ensures ParseOpened(part).Some? <==>
      var id := Unescape(Cut(part, '=').0, Query);
      id.Some? && 0 < |id.value| <= 128 && forall c <- id.value :: Alphanumeric(c) || c in "-_."
  {
    hide Unescape, KeptName;
    var id := Unescape(Cut(part, '=').0, Query);
    if id.Some? {
      PlausibleMeans(id.value);
    }
  }

  lemma PlausibleMeans(s: string)
    ensures PlausibleID(s) <==> 0 < |s| <= 128 && forall c <- s :: Alphanumeric(c) || c in "-_."
  {
    if forall c <- s :: Alphanumeric(c) || c in "-_." {
      forall i | 0 <= i < |s| ensures PlausibleChar(s[i]) {
        assert s[i] in s;
      }
    }
  }

  // ---- its size ----

  lemma {:induction false} PlainEscapes(s: Bytes)
    requires forall i :: 0 <= i < |s| ==> PlausibleChar(s[i])
    ensures Escape(s, Query) == s
    decreases |s|
  {
    if s != "" {
      PlainEscapes(s[1..]);
      PlainChar(s[0]);
      hide EscapeChar, PlausibleChar;
      assert s == [s[0]] + s[1..];
    }
  }

  lemma PlainChar(c: char)
    requires PlausibleChar(c)
    ensures c < '\U{100}' && EscapeChar(c, Query) == [c]
  {
  }

  lemma SlashBetween(a: Bytes, b: Bytes)
    ensures IsBytes(a + ("/" + b)) && Escape(a + ("/" + b), Query) == Escape(a, Query) + ("%2F" + Escape(b, Query))
  {
    SlashEscapes();
    hide Escape;
    EscapeConcat("/", b, Query);
    EscapeConcat(a, "/" + b, Query);
  }

  lemma PlausiblePart(part: string)
    requires PlausibleID(part)
    ensures IsBytes(part) && Escape(part, Query) == part
  {
    PlausibleBytes(part);
    PlainEscapes(part);
  }

  lemma NameCut(name: string)
    requires PlausibleName(name)
    ensures var cut := Cut(name, '/');
            cut.2 && PlausibleID(cut.0) && PlausibleID(cut.1) && name == cut.0 + (['/'] + cut.1)
  {
    hide PlausibleID;
    Regroup(Cut(name, '/').0, ['/'], Cut(name, '/').1);
  }

  lemma NameParts(name: Bytes) returns (owner: Bytes, slug: Bytes)
    requires PlausibleName(name)
    ensures name == owner + ("/" + slug) && Cut(name, '/') == (owner, slug, true)
    ensures Escape(owner, Query) == owner && Escape(slug, Query) == slug
  {
    hide *;
    NameCut(name);
    var cut := Cut(name, '/');
    PlausiblePart(cut.0);
    PlausiblePart(cut.1);
    owner, slug := cut.0, cut.1;
  }

  lemma NameEscapes(name: Bytes)
    requires PlausibleName(name)
    ensures var cut := Cut(name, '/');
            Escape(name, Query) == cut.0 + ("%2F" + cut.1) && |name| == |cut.0| + 1 + |cut.1|
  {
    hide *;
    var owner, slug := NameParts(name);
    SlashBetween(owner, slug);
  }

  lemma SlashEscapes()
    ensures IsBytes("/") && Escape("/", Query) == "%2F"
  {
    assert EscapeChar('/', Query) == "%2F" by {
      assert '/' as int == 47;
      assert ShouldEscape('/', Query);
      assert HexChar(2) == '2' && HexChar(15) == 'F';
    }
    hide EscapeChar;
    assert Escape("", Query) == "";
  }

  /** The written length of an entry, to the byte. */
  lemma EntryLength(o: Opened)
    requires Keepable(o)
    ensures |FormatOpened(o)| == |o.id| + if o.name == "" then 0 else |o.name| + 3
    ensures |FormatOpened(o)| <= 388
  {
    PlainEscapes(o.id);
    if o.name != "" {
      NameEscapes(o.name);
    }
    hide Escape;
  }

  lemma {:induction false} JoinedLength(list: seq<Opened>)
    requires forall o <- list :: Keepable(o)
    ensures |Join(FormatAll(list), ' ')| <= 389 * |list|
    ensures list != [] ==> |Join(FormatAll(list), ' ')| <= 389 * |list| - 1
    decreases |list|
  {
    hide FormatOpened, Keepable;
    if list != [] {
      var parts := FormatAll(list);
      EntryLength(list[0]);
      assert parts[1..] == FormatAll(list[1..]);
      JoinedLength(list[1..]);
    }
  }

  /** The cookie value never exceeds twelve entries of 388 bytes and eleven spaces. */
  lemma CookieLength(list: seq<Opened>)
    requires |list| <= LIMIT
    requires forall o <- list :: Keepable(o)
    ensures |Format(list)| <= 12 * 388 + 11
  {
    hide FormatOpened, Keepable, Join;
    JoinedLength(list);
    assert list == [] ==> Format(list) == "" by { EmptyFormat(); }
  }

  lemma EmptyFormat()
    ensures Format([]) == ""
  {
  }

  // ---- runs of requests ----

  /** One request: it opens a repository under a name, or drops one. */
  datatype Visit = Open(id: Bytes, name: string) | Drop(id: Bytes)

  /** The list the browser's cookie holds after the answer. */
  function Browse(value: string, v: Visit): string {
    match v
    case Open(id, name) => if PlausibleID(id) then Format(Remembered(RecentOf(value), id, name)) else value
    case Drop(id) => Format(Others(RecentOf(value), id))
  }

  function BrowseAll(visits: seq<Visit>): string {
    if visits == [] then "" else Browse(BrowseAll(visits[..|visits| - 1]), visits[|visits| - 1])
  }

  /** The list with no bound and no cookie: every repository opened and not
      dropped since, most recently opened first. */
  function History(visits: seq<Visit>): seq<Opened> {
    if visits == [] then []
    else
      var before := History(visits[..|visits| - 1]);
      match visits[|visits| - 1]
      case Open(id, name) => if PlausibleID(id) then [Opened(id, KeptName(name))] + Others(before, id) else before
      case Drop(id) => Others(before, id)
  }

  predicate OnlyOpens(visits: seq<Visit>) {
    forall v <- visits :: v.Open?
  }

  lemma {:induction false} OthersIn(list: seq<Opened>, id: string)
    ensures forall o :: o in Others(list, id) <==> o in list && o.id != id
    ensures |Others(list, id)| <= |list|
    decreases |list|
  {
    if list != [] {
      OthersIn(list[..|list| - 1], id);
      assert list == list[..|list| - 1] + [list[|list| - 1]];
    }
  }

  lemma OthersOfPrefix(a: seq<Opened>, b: seq<Opened>, id: string)
    requires a <= b
    ensures Others(a, id) <= Others(b, id)
  {
    assert b[..|a|] == a;
    OthersPrefix(b, |a|, id);
  }

  lemma KeepRemembered(list: seq<Opened>, id: Bytes, name: string)
    requires PlausibleID(id) && forall o <- list :: Keepable(o)
    ensures |Remembered(list, id, name)| <= LIMIT
    ensures forall o <- Remembered(list, id, name) :: Keepable(o)
  {
    OthersIn(list, id);
    hide PlausibleID, PlausibleName, Others;
  }

  /** The cookie is written and read back between requests without loss. */
  lemma BrowseReads(value: string, v: Visit)
    ensures RecentOf(Browse(value, v)) ==
            match v
            case Open(id, name) => if PlausibleID(id) then Remembered(RecentOf(value), id, name) else RecentOf(value)
            case Drop(id) => Others(RecentOf(value), id)
  {
    hide RecentOf, Format, Others, Remembered, PlausibleID, Keepable;
    EditedCookie(value);
    match v
    case Open(id, name) =>
      if PlausibleID(id) {
        KeepRemembered(RecentOf(value), id, name);
        CodecRoundTrip(Remembered(RecentOf(value), id, name));
      }
    case Drop(id) =>
      OthersIn(RecentOf(value), id);
      CodecRoundTrip(Others(RecentOf(value), id));
  }

  lemma TakePrefix(a: seq<Opened>, b: seq<Opened>)
    requires a <= b
    ensures Take(a, LIMIT) <= b && |Take(a, LIMIT)| <= LIMIT
  {
  }

  /** For every run, the cookie holds a prefix of the unbounded history, so it is
      ordered by last opening and names nothing dropped and not reopened. */
  lemma {:induction false} RecentIsPrefix(visits: seq<Visit>)
    ensures RecentOf(BrowseAll(visits)) <= History(visits)
    ensures |RecentOf(BrowseAll(visits))| <= LIMIT
    decreases |visits|
  {
    hide RecentOf, Browse, Others, PlausibleID, KeptName, Take;
    if visits == [] {
      NoCookie();
    } else {
      var front, v := visits[..|visits| - 1], visits[|visits| - 1];
      var list, before := RecentOf(BrowseAll(front)), History(front);
      RecentIsPrefix(front);
      BrowseReads(BrowseAll(front), v);
      OthersOfPrefix(list, before, v.id);
      OthersIn(list, v.id);
      if v.Open? && PlausibleID(v.id) {
        var o := Opened(v.id, KeptName(v.name));
        TakePrefix([o] + Others(list, v.id), [o] + Others(before, v.id));
      }
    }
  }

  lemma NoCookie()
    ensures RecentOf("") == []
  {
  }

  predicate DistinctIDs(list: seq<Opened>) {
    forall i, j :: 0 <= i < j < |list| ==> list[i].id != list[j].id
  }

  lemma {:induction false} OthersLength(list: seq<Opened>, id: string)
    requires DistinctIDs(list)
    ensures DistinctIDs(Others(list, id))
    ensures |Others(list, id)| >= |list| - 1
    ensures (forall o <- list :: o.id != id) ==> |Others(list, id)| == |list|
    decreases |list|
  {
    if list != [] {
      var front, last := list[..|list| - 1], list[|list| - 1];
      OthersLength(front, id);
      OthersIn(front, id);
      assert forall o <- Others(front, id) :: o in front;
      assert forall o <- front :: exists i :: 0 <= i < |front| && front[i] == o && list[i].id != last.id;
      assert last.id == id ==> forall o <- front :: o.id != id;
    }
  }

  lemma {:induction false} HistoryDistinct(visits: seq<Visit>)
    ensures DistinctIDs(History(visits))
    decreases |visits|
  {
    hide PlausibleID, KeptName, Others;
    if visits != [] {
      var before, v := History(visits[..|visits| - 1]), visits[|visits| - 1];
      HistoryDistinct(visits[..|visits| - 1]);
      OthersLength(before, v.id);
      OthersIn(before, v.id);
      assert forall i :: 0 <= i < |Others(before, v.id)| ==> Others(before, v.id)[i] in Others(before, v.id);
    }
  }

  /** Dropping the thirteenth entry before or after an opening is the same. */
  lemma TakeCommutes(list: seq<Opened>, o: Opened)
    requires DistinctIDs(list)
    ensures Take([o] + Others(Take(list, LIMIT), o.id), LIMIT) == Take([o] + Others(list, o.id), LIMIT)
  {
    if |list| > LIMIT {
      var first := list[..LIMIT];
      OthersOfPrefix(first, list, o.id);
      OthersLength(first, o.id);
      hide Others, DistinctIDs;
      assert Take(list, LIMIT) == first;
      assert LIMIT <= |[o] + Others(first, o.id)|;
      assert ([o] + Others(first, o.id))[..LIMIT] == ([o] + Others(list, o.id))[..LIMIT];
    }
  }

  /** For every run of openings, the cookie holds exactly the twelve most recent. */
  lemma {:induction false} RecentIsTwelveNewest(visits: seq<Visit>)
    requires OnlyOpens(visits)
    ensures RecentOf(BrowseAll(visits)) == Take(History(visits), LIMIT)
    decreases |visits|
  {
    hide RecentOf, Browse, Others, PlausibleID, KeptName;
    if visits == [] {
      NoCookie();
    } else {
      var front, v := visits[..|visits| - 1], visits[|visits| - 1];
      RecentIsTwelveNewest(front);
      BrowseReads(BrowseAll(front), v);
      HistoryDistinct(front);
      assert v.Open?;
      if PlausibleID(v.id) {
        hide Take, DistinctIDs;
        TakeCommutes(History(front), Opened(v.id, KeptName(v.name)));
      }
    }
  }

  // ---- what the history is ----

  /** The last request that said something about an id, or -1. */
  function LastTouch(visits: seq<Visit>, id: string): int {
    if visits == [] then -1
    else
      var v := visits[|visits| - 1];
      if v.id == id && (v.Drop? || PlausibleID(id)) then |visits| - 1
      else LastTouch(visits[..|visits| - 1], id)
  }

  lemma {:induction false} LastTouchRange(visits: seq<Visit>, id: string)
    ensures -1 <= LastTouch(visits, id) < |visits|
    decreases |visits|
  {
    if visits != [] { LastTouchRange(visits[..|visits| - 1], id); }
  }

  /** An entry stands in the history exactly when the last request about its id
      opened it, under that name. */
  predicate Stands(visits: seq<Visit>, o: Opened) {
    var k := LastTouch(visits, o.id);
    0 <= k < |visits| && visits[k].Open? && o.name == KeptName(visits[k].name)
  }

  lemma StandsStep(visits: seq<Visit>, v: Visit, o: Opened)
    ensures Stands(visits + [v], o) <==>
            if v.id == o.id && (v.Drop? || PlausibleID(o.id)) then v.Open? && o.name == KeptName(v.name)
            else Stands(visits, o)
    ensures LastTouch(visits + [v], o.id) ==
            if v.id == o.id && (v.Drop? || PlausibleID(o.id)) then |visits| else LastTouch(visits, o.id)
  {
    hide PlausibleID, KeptName;
    assert (visits + [v])[..|visits|] == visits;
    LastTouchRange(visits, o.id);
  }

  lemma {:induction false} HistoryMembers(visits: seq<Visit>)
    ensures forall o :: o in History(visits) <==> Stands(visits, o)
    decreases |visits|
  {
    hide PlausibleID, KeptName, Others;
    if visits != [] {
      var front, v := visits[..|visits| - 1], visits[|visits| - 1];
      assert visits == front + [v];
      HistoryMembers(front);
      OthersIn(History(front), v.id);
      forall o ensures o in History(visits) <==> Stands(visits, o) {
        StandsStep(front, v, o);
        hide Stands;
      }
    }
  }

  predicate NewestFirst(visits: seq<Visit>, list: seq<Opened>) {
    forall i, j :: 0 <= i < j < |list| ==> LastTouch(visits, list[i].id) > LastTouch(visits, list[j].id)
  }

  lemma {:induction false} OthersKeepOrder(visits: seq<Visit>, list: seq<Opened>, id: string)
    requires NewestFirst(visits, list)
    ensures NewestFirst(visits, Others(list, id))
    decreases |list|
  {
    hide LastTouch;
    if list != [] {
      var front, last := list[..|list| - 1], list[|list| - 1];
      OthersKeepOrder(visits, front, id);
      OthersIn(front, id);
      var kept := Others(front, id);
      forall i | 0 <= i < |kept| ensures LastTouch(visits, kept[i].id) > LastTouch(visits, last.id) {
        assert kept[i] in front;
        var k :| 0 <= k < |front| && front[k] == kept[i];
        assert list[k] == kept[i];
      }
    }
  }

  lemma SameOrder(a: seq<Visit>, b: seq<Visit>, list: seq<Opened>)
    requires forall o <- list :: LastTouch(a, o.id) == LastTouch(b, o.id)
    requires NewestFirst(a, list)
    ensures NewestFirst(b, list)
  {
    hide LastTouch;
    assert forall i :: 0 <= i < |list| ==> list[i] in list;
  }

  lemma NewestInFront(visits: seq<Visit>, o: Opened, list: seq<Opened>)
    requires NewestFirst(visits, list)
    requires forall p <- list :: LastTouch(visits, o.id) > LastTouch(visits, p.id)
    ensures NewestFirst(visits, [o] + list)
  {
    hide LastTouch;
    assert forall i :: 0 <= i < |list| ==> list[i] in list;
  }

  lemma {:induction false} HistoryOrder(visits: seq<Visit>)
    ensures NewestFirst(visits, History(visits))
    decreases |visits|
  {
    hide PlausibleID, KeptName, Others, LastTouch, NewestFirst;
    if visits == [] {
      NothingInOrder();
    } else {
      var front, v := visits[..|visits| - 1], visits[|visits| - 1];
      assert visits == front + [v];
      HistoryOrder(front);
      if v.Open? && !PlausibleID(v.id) {
        forall o | o in History(front) ensures LastTouch(visits, o.id) == LastTouch(front, o.id) {
          StandsStep(front, v, o);
        }
        SameOrder(front, visits, History(front));
      } else {
        OthersKeepOrder(front, History(front), v.id);
        OthersIn(History(front), v.id);
        var kept := Others(History(front), v.id);
        forall o | o in kept ensures LastTouch(visits, o.id) == LastTouch(front, o.id) < |front| {
          StandsStep(front, v, o);
          LastTouchRange(front, o.id);
        }
        SameOrder(front, visits, kept);
        if v.Open? {
          var o := Opened(v.id, KeptName(v.name));
          StandsStep(front, v, o);
          NewestInFront(visits, o, kept);
        }
      }
    }
  }

  lemma NothingInOrder()
    ensures NewestFirst([], History([]))
  {
  }

  /** The history, said without a list: who is in it, under what name, in what order. */
  lemma HistoryMeans(visits: seq<Visit>)
    ensures DistinctIDs(History(visits))
    ensures forall o :: o in History(visits) <==> Stands(visits, o)
    ensures NewestFirst(visits, History(visits))
  {
    hide *;
    HistoryDistinct(visits);
    HistoryMembers(visits);
    HistoryOrder(visits);
  }

  /** A repository reopened under a name that is not one keeps no name: the entry
      carries the name of the last opening, not the last valid name. */
  lemma ReopenedWithoutName(visits: seq<Visit>, id: Bytes, name: string)
    requires PlausibleID(id)
    ensures var list := RecentOf(BrowseAll(visits + [Open(id, name)]));
            list != [] && list[0].id == id && list[0].name == if PlausibleName(name) then name else ""
  {
    hide RecentOf, Browse, Others, PlausibleID, PlausibleName;
    var all := visits + [Open(id, name)];
    assert all[..|visits|] == visits;
    BrowseReads(BrowseAll(visits), Open(id, name));
  }

  // ---- one cookie a response ----

  /** What a handler may do to the response's list cookie. */
  datatype Op = Write(list: seq<Opened>) | Clear

  function After(names: Names, lines: seq<string>, op: Op): seq<string> {
    match op
    case Write(list) => Without(lines, names.Recent() + "=") + [names.RecentLine(list)]
    case Clear => lines + [names.SessionCleared(), names.RecentLine([])]
  }

  function AfterAll(names: Names, lines: seq<string>, ops: seq<Op>): seq<string> {
    if ops == [] then lines else After(names, AfterAll(names, lines, ops[..|ops| - 1]), ops[|ops| - 1])
  }

  /** The recent lines a run of operations leaves: one for the last write, and one
      for each clearing after it. */
  function RecentLines(names: Names, ops: seq<Op>): seq<string> {
    if ops == [] then []
    else
      match ops[|ops| - 1]
      case Write(list) => [names.RecentLine(list)]
      case Clear => RecentLines(names, ops[..|ops| - 1]) + [names.RecentLine([])]
  }

  /** The session lines the clearings leave. */
  function SessionLines(names: Names, ops: seq<Op>): seq<string> {
    if ops == [] then []
    else
      SessionLines(names, ops[..|ops| - 1]) +
      if ops[|ops| - 1].Clear? then [names.SessionCleared()] else []
  }

  lemma {:induction false} WithoutConcat(a: seq<string>, b: seq<string>, start: string)
    ensures Without(a + b, start) == Without(a, start) + Without(b, start)
    ensures Only(a + b, start) == Only(a, start) + Only(b, start)
    decreases |b|
  {
    if b == [] {
      assert a + b == a;
    } else {
      WithoutConcat(a, b[..|b| - 1], start);
      assert (a + b)[..|a + b| - 1] == a + b[..|b| - 1];
    }
  }

  lemma {:induction false} WithoutTwice(lines: seq<string>, start: string)
    ensures Without(Without(lines, start), start) == Without(lines, start)
    ensures Only(Without(lines, start), start) == []
    decreases |lines|
  {
    if lines != [] {
      WithoutTwice(lines[..|lines| - 1], start);
    }
  }

  lemma OneLine(names: Names, list: seq<Opened>)
    ensures HasPrefix(names.RecentLine(list), names.Recent() + "=")
    ensures !HasPrefix(names.SessionCleared(), names.Recent() + "=")
  {
    hide Format, Names.Attributes;
    var r := names.Recent() + "=";
    assert names.RecentLine(list)[..|r|] == r;
    var s := names.SessionCleared();
    if names.secure {
      assert s[16] == 's' && r[16] == 'r';
    } else {
      assert s[9] == 's' && r[9] == 'r';
    }
  }

  lemma SingletonLines(names: Names, list: seq<Opened>)
    ensures var start := names.Recent() + "=";
            Only([names.RecentLine(list)], start) == [names.RecentLine(list)] &&
            Without([names.RecentLine(list)], start) == [] &&
            Only([names.SessionCleared(), names.RecentLine([])], start) == [names.RecentLine([])] &&
            Without([names.SessionCleared(), names.RecentLine([])], start) == [names.SessionCleared()]
  {
    OneLine(names, list);
    OneLine(names, []);
    hide Names.RecentLine, Names.SessionCleared, Names.Recent;
    var start := names.Recent() + "=";
    var line := [names.RecentLine(list)];
    assert line[..0] == [];
    var s, e := names.SessionCleared(), names.RecentLine([]);
    assert [s, e] == [s] + [e];
    WithoutConcat([s], [e], start);
    assert [s][..0] == [] && [e][..0] == [];
  }

  /** Whatever a handler does, the other cookies keep their content and order, and
      the recent lines are those of the last write and the clearings after it. */
  lemma {:induction false} ResponseCookies(names: Names, lines: seq<string>, ops: seq<Op>)
    requires Only(lines, names.Recent() + "=") == []
    ensures var start := names.Recent() + "=";
            Only(AfterAll(names, lines, ops), start) == RecentLines(names, ops) &&
            Without(AfterAll(names, lines, ops), start) == Without(lines, start) + SessionLines(names, ops)
    decreases |ops|
  {
    hide Names.RecentLine, Names.SessionCleared, Names.Recent, Only, Without;
    if ops != [] {
      var front, op := ops[..|ops| - 1], ops[|ops| - 1];
      ResponseCookies(names, lines, front);
      StepCookies(names, AfterAll(names, lines, front), op);
      Regroup(Without(lines, names.Recent() + "="), SessionLines(names, front), [names.SessionCleared()]);
    }
  }

  lemma StepCookies(names: Names, lines: seq<string>, op: Op)
    ensures var start := names.Recent() + "=";
            Only(After(names, lines, op), start) ==
              (if op.Write? then [names.RecentLine(op.list)] else Only(lines, start) + [names.RecentLine([])]) &&
            Without(After(names, lines, op), start) ==
              Without(lines, start) + (if op.Clear? then [names.SessionCleared()] else [])
  {
    hide Names.RecentLine, Names.SessionCleared, Names.Recent, Only, Without;
    var start := names.Recent() + "=";
    match op
    case Write(list) =>
      SingletonLines(names, list);
      WithoutTwice(lines, start);
      WithoutConcat(Without(lines, start), [names.RecentLine(list)], start);
    case Clear =>
      SingletonLines(names, []);
      WithoutConcat(lines, [names.SessionCleared(), names.RecentLine([])], start);
  }

  /** One response carries one line for the list exactly when it is written and
      not cleared after, or cleared once and never written; and the line a
      browser keeps, the last, is always the last operation's. */
  lemma OneRecentLine(names: Names, lines: seq<string>, ops: seq<Op>)
    requires Only(lines, names.Recent() + "=") == [] && ops != []
    ensures var own := Only(AfterAll(names, lines, ops), names.Recent() + "=");
            var last := ops[|ops| - 1];
            own != [] && own[|own| - 1] == names.RecentLine(if last.Write? then last.list else [])
            && (|own| == 1 <==> last.Write? || |ops| == 1)
  {
    hide Names.RecentLine, Names.SessionCleared, Names.Recent, Only, Without, AfterAll;
    ResponseCookies(names, lines, ops);
    if |ops| > 1 {
      SomeLine(names, ops[..|ops| - 1]);
    }
  }

  lemma SomeLine(names: Names, ops: seq<Op>)
    requires ops != []
    ensures RecentLines(names, ops) != []
  {
  }
}
