/** The recent list across requests, as a browser carries it: nothing here knows how a
    line is written, only what a browser keeps of the lines it is sent. */
module Browser {
  import opened Session
  import opened SessionLaws
  import C = Cookies

  /** A run of requests by one browser that starts with no cookie. Whatever was opened and
      dropped, the cookie it holds reads as a prefix of the unbounded history, at most
      twelve long; and when nothing was dropped, as its twelve newest. */
  method Follow(m: Manager, visits: seq<Visit>) returns (value: string)
    ensures value == BrowseAll(visits)
    ensures RecentOf(value) <= History(visits) && |RecentOf(value)| <= LIMIT
    ensures OnlyOpens(visits) ==> RecentOf(value) == Take(History(visits), LIMIT)
  {
    value := "";
    for i := 0 to |visits|
      invariant value == BrowseAll(visits[..i])
    {
      hide RecentOf, Remembered, Others, PlausibleID, Format, Names.RecentLine, Without;
      assert visits[..i + 1][..i] == visits[..i];
      var w := new Response();
      match visits[i]
      case Open(id, name) =>
        m.Remember(w, value, id, name);
        value := C.Jar(m.names.Recent(), value, w.setCookie);
      case Drop(id) =>
        m.Forget(w, value, id);
        value := C.Jar(m.names.Recent(), value, w.setCookie);
    }
    assert visits[..|visits|] == visits;
    hide RecentOf, BrowseAll, History, Take;
    RecentIsPrefix(visits);
    if OnlyOpens(visits) {
      RecentIsTwelveNewest(visits);
    }
  }

  /** The list a browser holds after a response is the last operation's, whatever the
      response held before and whatever the operations before it were. */
  lemma LastOperationIsKept(names: Names, was: string, lines: seq<string>, ops: seq<Op>)
    ensures C.Jar(names.Recent(), was, AfterAll(names, lines, ops)) ==
      if ops == [] then C.Jar(names.Recent(), was, lines)
      else Format(if ops[|ops| - 1].Write? then ops[|ops| - 1].list else [])
  {
    if ops != [] {
      var front, op := ops[..|ops| - 1], ops[|ops| - 1];
      var before := AfterAll(names, lines, front);
      hide AfterAll, Without, Names.RecentLine, Names.SessionCleared, Names.Recent, Format, C.Jar;
      match op
      case Write(list) => ListIsKept(names, Without(before, names.Recent() + "="), list);
      case Clear =>
        ListIsKept(names, before + [names.SessionCleared()], []);
        assert before + [names.SessionCleared(), names.RecentLine([])] ==
               before + [names.SessionCleared()] + [names.RecentLine([])];
    }
  }

  /** So the next request reads the list that was written last, for every list that may
      be kept, and the browser drops the cookie exactly for an empty one. */
  lemma WrittenIsRead(names: Names, was: string, lines: seq<string>, ops: seq<Op>, list: seq<Opened>)
    requires |list| <= LIMIT && forall o <- list :: Keepable(o)
    requires ops != [] && ops[|ops| - 1] == Write(list)
    ensures var value := C.Jar(names.Recent(), was, AfterAll(names, lines, ops));
      RecentOf(value) == list && (value == "" <==> list == [])
  {
    hide AfterAll, C.Jar, Keepable, RecentOf, Format, Names.Recent;
    LastOperationIsKept(names, was, lines, ops);
    CodecRoundTrip(list);
    NoCookie();
    EmptyList();
  }

  /** And it holds no session exactly as a clearing was among them; otherwise the session
      line it was sent, or the session it had. */
  lemma {:induction false} ClearingIsKept(names: Names, was: string, lines: seq<string>, ops: seq<Op>)
    ensures C.Jar(names.Session(), was, AfterAll(names, lines, ops)) ==
      if Clear in ops then "" else C.Jar(names.Session(), was, lines)
    decreases |ops|
  {
    hide C.Jar, Names.Session, After;
    if ops != [] {
      var front, op := ops[..|ops| - 1], ops[|ops| - 1];
      ClearingIsKept(names, was, lines, front);
      OneStepKeeps(names, was, AfterAll(names, lines, front), op);
      LastOf(ops);
    }
  }

  lemma LastOf(ops: seq<Op>)
    requires ops != []
    ensures Clear in ops <==> Clear in ops[..|ops| - 1] || ops[|ops| - 1] == Clear
  {
    assert ops == ops[..|ops| - 1] + [ops[|ops| - 1]];
  }

  lemma OneStepKeeps(names: Names, was: string, lines: seq<string>, op: Op)
    ensures C.Jar(names.Session(), was, After(names, lines, op)) ==
      if op == Clear then "" else C.Jar(names.Session(), was, lines)
  {
    hide Without, Names.RecentLine, Names.SessionCleared, Names.Recent, Names.Session, C.Jar, C.Names, C.Read, Format;
    match op
    case Write(list) =>
      LineIsRead(names, list);
      NamesApart(names, names.RecentLine(list));
      WithoutKeepsSession(names, was, lines);
      C.JarLast(names.Session(), was, Without(lines, names.Recent() + "="), names.RecentLine(list));
    case Clear =>
      BothAreDropped(names, lines);
      assert lines + [names.SessionCleared(), names.RecentLine([])] ==
             lines + [names.SessionCleared()] + [names.RecentLine([])];
  }

  lemma {:induction false} WithoutKeepsSession(names: Names, was: string, lines: seq<string>)
    ensures C.Jar(names.Session(), was, Without(lines, names.Recent() + "=")) == C.Jar(names.Session(), was, lines)
    decreases |lines|
  {
    if lines != [] {
      var front, last := lines[..|lines| - 1], lines[|lines| - 1];
      WithoutKeepsSession(names, was, front);
      NamesApart(names, last);
      C.JarLast(names.Session(), was, Without(front, names.Recent() + "="), last);
      hide Names.Recent, Names.Session, C.Read;
    }
  }
}
