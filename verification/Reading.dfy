/** The screens that read Origo. Each is proved against a specification that sees
    only the class of every answer, so a refusal and an absence cannot be told apart. */
module Reading {
  import opened Wrappers
  import opened Text
  import opened Url
  import opened Protocol
  import S = Session
  import SL = SessionLaws
  import V = Visibility
  import Li = Listing

  type Answers = nat -> Answer

  // ---- what the screens show, from classes alone ----

  datatype Opening = Stopped(outcome: Outcome) | At(repo: Repo, cookies: seq<SL.Op>)

  function Open(l: Loaded, cookie: string, o: Answers): Opening {
    match Classify(o(0), ARepo)
    case Got(p) => At(p.repo, Start(l) + RememberOps(cookie, p.repo.id, p.repo.Name()))
    case r => Stopped(Failed(ReadSession(l), Start(l), r))
  }

  function Shows(l: Loaded, screen: Screen, cookies: seq<SL.Op>): Outcome {
    Outcome(Page(200, ReadSession(l).token != NoToken, screen), cookies)
  }

  function Misses(l: Loaded, repo: Repo, cookies: seq<SL.Op>, r: Reply): Outcome {
    FailedIn(ReadSession(l), repo, cookies, r)
  }

  /** The branches and the tags: two calls. */
  datatype Refs = Missed(reply: Reply) | Both(branches: seq<string>, tags: seq<string>, cut: bool)

  function RefsAt(o: Answers, i: nat): Refs {
    match Classify(o(i), TheRefs)
    case Got(b) =>
      (match Classify(o(i + 1), TheRefs)
       case Got(t) => Both(Li.SortNames(b.refs), Li.SortNames(t.refs), b.cut || t.cut)
       case r => Missed(r))
    case r => Missed(r)
  }

  function RefsOutcome(l: Loaded, cookie: string, o: Answers): Outcome {
    match Open(l, cookie, o)
    case Stopped(out) => out
    case At(repo, ck) =>
      match RefsAt(o, 1)
      case Missed(r) => Misses(l, repo, ck, r)
      case Both(b, t, cut) => Shows(l, RefsScreen(repo, b, t, cut), ck)
  }

  function LogOutcome(l: Loaded, cookie: string, o: Answers): Outcome {
    match Open(l, cookie, o)
    case Stopped(out) => out
    case At(repo, ck) =>
      match Classify(o(1), ALog)
      case Got(p) => Shows(l, LogScreen(repo, p.commits, p.next), ck)
      case r => Misses(l, repo, ck, r)
  }

  function TreePage(l: Loaded, repo: Repo, ck: seq<SL.Op>, a: Answer): Outcome {
    match Classify(a, ATree)
    case Got(p) => Shows(l, TreeScreen(repo, false, p.entries, p.next), ck)
    case r => Misses(l, repo, ck, r)
  }

  function TreeOutcome(l: Loaded, cookie: string, o: Answers): Outcome {
    match Open(l, cookie, o)
    case Stopped(out) => out
    case At(repo, ck) =>
      if repo.head != "" then TreePage(l, repo, ck, o(1))
      else
        match RefsAt(o, 1)
        case Missed(r) => Misses(l, repo, ck, r)
        case Both(b, _, _) =>
          if b == [] then Shows(l, TreeScreen(repo, true, [], ""), ck)
          else TreePage(l, repo, ck, o(3))
  }

  // The file a path names in a listing of its directory.
  function FindEntry(entries: seq<Entry>, path: string): Option<Entry> {
    if entries == [] then None
    else if entries[0].path == path && !entries[0].isDir then Some(entries[0])
    else FindEntry(entries[1..], path)
  }

  const FETCH_LIMIT: nat := 52428800
  const README_LIMIT: nat := 524288

  datatype Found = FoundNot(outcome: Outcome) | FoundAt(repo: Repo, entry: Entry, commit: string, cookies: seq<SL.Op>)

  /** The entry a file screen is about: the repository, then its directory. */
  function Find(l: Loaded, cookie: string, path: string, o: Answers): Found {
    match Open(l, cookie, o)
    case Stopped(out) => FoundNot(out)
    case At(repo, ck) =>
      var notFound := Outcome(Page(404, ReadSession(l).token != NoToken, NotFoundScreen), ck);
      if path == "" then FoundNot(notFound)
      else
        match Classify(o(1), ATree)
        case Got(p) =>
          (match FindEntry(p.entries, path)
           case None => FoundNot(notFound)
           case Some(e) => FoundAt(repo, e, p.commit, ck))
        case r => FoundNot(Misses(l, repo, ck, r))
  }

  function BlobOutcome(l: Loaded, cookie: string, path: string, o: Answers): Outcome {
    hide Find, Misses, Shows, Classify;
    match Find(l, cookie, path, o)
    case FoundNot(out) => out
    case FoundAt(repo, e, commit, ck) =>
      var tooLarge := Shows(l, BlobScreen(repo, e, commit, true, false, ""), ck);
      if e.size > FETCH_LIMIT then tooLarge
      else
        match Classify(o(2), ABlob)
        case Got(p) => Shows(l, BlobScreen(repo, e, commit, false, !p.textual, if p.textual then p.bytes else ""), ck)
        case TooBig => tooLarge
        case r => Misses(l, repo, ck, r)
  }

  function RawOutcome(l: Loaded, cookie: string, path: string, o: Answers): Outcome {
    hide Find, Misses, Shows, Classify;
    match Find(l, cookie, path, o)
    case FoundNot(out) => out
    case FoundAt(repo, e, _, ck) =>
      match Classify(o(2), ABlob)
      case Got(p) => Outcome(Bytes(p.bytes), ck)
      case TooBig => Shows(l, RawTooLargeScreen(repo), ck)
      case r => Misses(l, repo, ck, r)
  }

  /** A commit is compared with its first parent; one with no parent with nothing. */
  function CommitOutcome(l: Loaded, cookie: string, o: Answers): Outcome {
    match Open(l, cookie, o)
    case Stopped(out) => out
    case At(repo, ck) =>
      match Classify(o(1), ACommit)
      case Got(c) =>
        if c.parents == [] then Shows(l, CommitScreen(repo, c.sha, c.parents, None), ck)
        else
          (match Classify(o(2), ADiff)
           case Got(d) => Shows(l, CommitScreen(repo, c.sha, c.parents, Some((d.text, d.cut))), ck)
           case r => Misses(l, repo, ck, r))
      case r => Misses(l, repo, ck, r)
  }

  function PatchOutcome(l: Loaded, cookie: string, o: Answers): Outcome {
    match Open(l, cookie, o)
    case Stopped(out) => out
    case At(repo, ck) =>
      match Classify(o(1), ACommit)
      case Got(c) =>
        if c.parents == [] then Outcome(Page(404, ReadSession(l).token != NoToken, NotFoundScreen), ck)
        else
          (match Classify(o(2), ADiff)
           case Got(d) => Outcome(Bytes(d.text), ck)
           case r => Misses(l, repo, ck, r))
      case r => Misses(l, repo, ck, r)
  }

  function CompareOutcome(l: Loaded, cookie: string, named: bool, o: Answers): Outcome {
    match Open(l, cookie, o)
    case Stopped(out) => out
    case At(repo, ck) =>
      if !named then Shows(l, CompareScreen(repo, None), ck)
      else
        match Classify(o(1), ADiff)
        case Got(d) => Shows(l, CompareScreen(repo, Some((d.text, d.cut))), ck)
        case r => Misses(l, repo, ck, r)
  }

  function ByIDOutcome(l: Loaded, rest: string, o: Answers): Outcome {
    match Classify(o(0), ARepo)
    case Got(p) => Outcome(Redirect(301, p.repo.Address() + rest), Start(l))
    case r => Failed(ReadSession(l), Start(l), r)
  }

  /** What the address of the home screen asks for; `matches` is the filter typed. */
  datatype HomeQuery = HomeQuery(cursor: string, deleted: string, matches: Li.Repo -> bool)

  function RowOf(repo: Repo): Li.Repo { Li.Repo(repo.id, repo.owner, repo.slug) }

  function RowsOf(repos: seq<Repo>): seq<Li.Repo> {
    seq(|repos|, i requires 0 <= i < |repos| => RowOf(repos[i]))
  }

  /** The filter is applied only to the whole directory. */
  function DirectoryOf(repos: seq<Repo>, next: string, q: HomeQuery): Directory {
    var canFilter := next == "" && q.cursor == "";
    var owners := Li.Grouped(if canFilter then Li.Filter(RowsOf(repos), q.matches) else RowsOf(repos));
    Directory(owners, Li.Sizes(owners), canFilter, next)
  }

  /** One side of a repository's name: 1 to 64 letters, digits, dots, underscores and dashes. */
  predicate NamePart(s: string) {
    0 < |s| <= 64 && forall c <- s :: S.PlausibleChar(c)
  }

  /** What the list repeats of a deleted name: the name when it is shaped like one. */
  function DeletedName(q: string): string {
    var cut := Cut(q, '/');
    if cut.2 && NamePart(cut.0) && NamePart(cut.1) then q else ""
  }

  /** The home screen degrades on every failure but a refused credential. */
  function HomeOutcome(l: Loaded, cookie: string, authError: bool, q: HomeQuery, o: Answers): Outcome {
    var rd := ReadSession(l);
    var failed := authError || rd.fault;
    match Classify(o(0), TheRepos)
    case Got(p) =>
      Shows(l, HomeScreen(Some(DirectoryOf(p.repos, p.next, q)), [], failed, DeletedName(q.deleted)), Start(l))
    case Unsigned =>
      Outcome(SignInPage(rd, if rd.origo != NoToken then 401 else 200, failed),
              Start(l) + if rd.origo != NoToken then [SL.Clear] else [])
    case _ => Shows(l, HomeScreen(None, S.RecentOf(cookie), failed, DeletedName(q.deleted)), Start(l))
  }

  /** The readme a listing holds: the first Markdown one, or else the first plain one. */
  function FindReadme(entries: seq<Entry>): Option<Entry> {
    var marked := FirstReadme(entries, MarkdownReadme);
    if marked.Some? then marked else FirstReadme(entries, PlainReadme)
  }

  function FirstReadme(entries: seq<Entry>, kind: ReadmeKind): Option<Entry> {
    if entries == [] then None
    else if !entries[0].isDir && entries[0].readme == kind then Some(entries[0])
    else FirstReadme(entries[1..], kind)
  }

  /** What is shown of the readme: its name always, its bytes when they could be read. */
  function ReadmeShown(entries: seq<Entry>, a: Answer): Option<Readme> {
    match FindReadme(entries)
    case None => None
    case Some(e) =>
      Some(Readme(e.sha,
        if e.size > README_LIMIT then None
        else match Classify(a, ABlob) case Got(p) => Some(p.bytes) case _ => None))
  }

  function OverviewBody(l: Loaded, repo: Repo, ref: string, shown: Shown, ck: seq<SL.Op>, o: Answers): Outcome {
    match RefsAt(o, 1)
    case Missed(r) => Misses(l, repo, ck, r)
    case Both(b, t, _) =>
      if repo.head == "" && b == [] then Shows(l, OverviewScreen(repo, ref, shown, b, t, true, [], None, None), ck)
      else
        match Classify(o(3), ATree)
        case Got(tree) =>
          (match Classify(o(4), ALog)
           case Got(log) =>
             Shows(l, OverviewScreen(repo, ref, shown, b, t, false, tree.entries,
                     if log.commits == [] then None else Some(log.commits[0]),
                     ReadmeShown(tree.entries, o(5))), ck)
           case r => Misses(l, repo, ck, r))
        case r => Misses(l, repo, ck, r)
  }

  function RefOf(repo: Repo, ref: string): string {
    if ref == "" then repo.defaultBranch else ref
  }

  /** What the registry and the cache say, as the overview sees them. */
  function VisibilityAt(l: Loaded, repo: Repo, now: nat, cache: map<string, V.Entry>, hasRegistry: bool,
                        first: PlatformAnswer): Shown {
    var rd := ReadSession(l);
    VisibilityShown(rd.platform, V.Lookup(cache, now, rd.sub, repo.id),
                    if hasRegistry then RegistryResultOf(ReadVisibility(repo.id), first) else NoRegistry)
  }

  function OverviewOutcome(l: Loaded, cookie: string, ref: string, now: nat, cache: map<string, V.Entry>,
                           hasRegistry: bool, first: PlatformAnswer, o: Answers): Outcome {
    match Open(l, cookie, o)
    case Stopped(out) => out
    case At(repo, ck) =>
      OverviewBody(l, repo, RefOf(repo, ref), VisibilityAt(l, repo, now, cache, hasRegistry, first), ck, o)
  }

  /** The cache and the questions the overview leaves; a repository that does not
      resolve leaves both alone. */
  function OverviewLeaves(l: Loaded, cookie: string, now: nat, cache: map<string, V.Entry>,
                          hasRegistry: bool, first: PlatformAnswer, o: Answers): (map<string, V.Entry>, seq<Ask>) {
    match Open(l, cookie, o)
    case Stopped(_) => (cache, [])
    case At(repo, _) =>
      var rd := ReadSession(l);
      (CacheAfterShown(rd, now, cache, repo.id,
         if hasRegistry then RegistryResultOf(ReadVisibility(repo.id), first) else NoRegistry),
       AskedToShow(rd, now, cache, repo.id, hasRegistry))
  }

  // ---- the token screens ----

  function ReposOf(r: Reply): Option<seq<Repo>> {
    if r.Got? && r.payload.ReposBody? then Some(r.payload.repos) else None
  }

  /** The repository the screen is scoped to, when one is named and can be read. */
  function ScopedRepo(scoped: string, a: Answer): Option<Repo> {
    if scoped == "" then None
    else match Classify(a, ARepo) case Got(p) => Some(p.repo) case _ => None
  }

  function RecordsOf(repo: Option<Repo>, a: Answer): Option<seq<string>> {
    if repo.None? then None
    else match Classify(a, TheRecords) case Got(p) => Some(p.records) case _ => None
  }

  function TokensPage(l: Loaded, cookie: string, status: nat, scoped: string, refusal: Sentence, ck: seq<SL.Op>,
                      o: Answers, i: nat): Outcome {
    var rd := ReadSession(l);
    var listed := Classify(o(i), TheRepos);
    if listed == Unsigned
    then Outcome(SignInPage(rd, 401, rd.fault), ck + if rd.origo != NoToken then [SL.Clear] else [])
    else
      var repo := ScopedRepo(scoped, o(i + 1));
      Outcome(Page(status, rd.token != NoToken,
        TokensScreen(ReposOf(listed), if listed.Got? then [] else S.RecentOf(cookie),
                     repo, RecordsOf(repo, o(i + 2)), refusal)), ck)
  }

  function TokensOutcome(l: Loaded, cookie: string, scoped: string, o: Answers): Outcome {
    var rd := ReadSession(l);
    if rd.origo == NoToken then Outcome(SignInPage(rd, 200, rd.fault), Start(l))
    else TokensPage(l, cookie, 200, scoped, NoSentence, Start(l), o, 0)
  }

  function MintRefusedOutcome(l: Loaded, cookie: string, scoped: string, r: Reply, o: Answers, i: nat): Outcome {
    var rd := ReadSession(l);
    match r
    case Unsigned => Outcome(SignInPage(rd, 401, rd.fault), Start(l) + if rd.origo != NoToken then [SL.Clear] else [])
    case Gone => TokensPage(l, cookie, 404, scoped, TokenWithheld, Start(l), o, i)
    case Down => Outcome(Page(502, rd.token != NoToken, UnavailableScreen), Start(l))
    case _ => TokensPage(l, cookie, 502, scoped, TokenBroken, Start(l), o, i)
  }

  /** The repository is read before it is minted against. */
  function MintOutcome(l: Loaded, cookie: string, scoped: string, o: Answers): Outcome {
    match Classify(o(0), ARepo)
    case Got(p) =>
      (match Classify(o(1), AMint)
       case Got(m) => Outcome(Page(200, ReadSession(l).token != NoToken, TokenScreen(p.repo, m.value)), Start(l))
       case r => MintRefusedOutcome(l, cookie, scoped, r, o, 2))
    case r => MintRefusedOutcome(l, cookie, scoped, r, o, 1)
  }

  function TokensPostOutcome(l: Loaded, cookie: string, csrf: bool, scoped: string, formOk: bool, o: Answers): Outcome {
    var rd := ReadSession(l);
    if !csrf then Outcome(Plain(403), [])
    else if rd.origo == NoToken then Outcome(SignInPage(rd, 200, rd.fault), Start(l))
    else if !formOk then TokensPage(l, cookie, 400, scoped, BadTokenForm, Start(l), o, 0)
    else MintOutcome(l, cookie, scoped, o)
  }

  // ---- the screens as the source writes them ----

  method HandleRefs(x: Exchange)
    requires x.Idle()
    modifies x
    ensures x.Valid() && x.response.Some?
    ensures x.cache == old(x.cache) && Asks(x.trace) == []
    ensures x.Result() == RefsOutcome(x.loaded, x.cookie, x.origo)
  {
    hide TraceOk, Asks, Clearings, Reasons, ReadSession, Classify, Failed, FailedIn, RememberOps, S.RecentOf, Start;
    x.Begin();
    var repo := x.OpenRepo();
    if repo.None? {
      return;
    }
    var refs, missed := RefsFor(x);
    if refs.None? {
      x.ReadFailedIn(repo.value, missed, TheRefs);
      return;
    }
    x.Render(200, RefsScreen(repo.value, refs.value.0, refs.value.1, refs.value.2));
  }

  /** The branches and the tags, or the answer that failed. */
  method RefsFor(x: Exchange) returns (refs: Option<(seq<string>, seq<string>, bool)>, missed: Answer)
    requires x.Valid()
    modifies x`trace, x`asked
    ensures x.Valid()
    ensures Asks(x.trace) == old(Asks(x.trace))
    ensures match RefsAt(x.origo, old(x.asked)) {
      case Both(b, t, cut) => refs == Some((b, t, cut)) && x.asked == old(x.asked) + 2
      case Missed(r) => refs == None && Classify(missed, TheRefs) == r && !Ok(missed, TheRefs)
        && x.trace != [] && x.trace[|x.trace| - 1] == OrigoCall(x.reader.origo, TheRefs, missed)
    }
  {
    hide TraceOk, Asks, Clearings, Reasons, ReadSession, Classify;
    var branches := x.CallOrigo(x.reader.origo, TheRefs);
    if !Ok(branches, TheRefs) {
      return None, branches;
    }
    var tags := x.CallOrigo(x.reader.origo, TheRefs);
    if !Ok(tags, TheRefs) {
      return None, tags;
    }
    refs := Some((Li.SortNames(branches.payload.refs), Li.SortNames(tags.payload.refs),
                  branches.payload.cut || tags.payload.cut));
    missed := tags;
  }

  method HandleLog(x: Exchange)
    requires x.Idle()
    modifies x
    ensures x.Valid() && x.response.Some?
    ensures x.cache == old(x.cache) && Asks(x.trace) == []
    ensures x.Result() == LogOutcome(x.loaded, x.cookie, x.origo)
  {
    hide TraceOk, Asks, Clearings, Reasons, ReadSession, Classify, Failed, FailedIn, RememberOps, S.RecentOf, Start;
    x.Begin();
    var repo := x.OpenRepo();
    if repo.None? {
      return;
    }
    var a := x.CallOrigo(x.reader.origo, ALog);
    if !Ok(a, ALog) {
      x.ReadFailedIn(repo.value, a, ALog);
      return;
    }
    x.Render(200, LogScreen(repo.value, a.payload.commits, a.payload.next));
  }

  method HandleTree(x: Exchange)
    requires x.Idle()
    modifies x
    ensures x.Valid() && x.response.Some?
    ensures x.cache == old(x.cache) && Asks(x.trace) == []
    ensures x.Result() == TreeOutcome(x.loaded, x.cookie, x.origo)
  {
    hide TraceOk, Asks, Clearings, Reasons, ReadSession, Classify, Failed, FailedIn, RememberOps, S.RecentOf, Start;
    x.Begin();
    var repo := x.OpenRepo();
    if repo.None? {
      return;
    }
    if repo.value.head == "" {
      var refs, missed := RefsFor(x);
      if refs.None? {
        x.ReadFailedIn(repo.value, missed, TheRefs);
        return;
      }
      if refs.value.0 == [] {
        x.Render(200, TreeScreen(repo.value, true, [], ""));
        return;
      }
    }
    var a := x.CallOrigo(x.reader.origo, ATree);
    if !Ok(a, ATree) {
      x.ReadFailedIn(repo.value, a, ATree);
      return;
    }
    x.Render(200, TreeScreen(repo.value, false, a.payload.entries, a.payload.next));
  }

  /** Reads one directory to find one file. */
  method FindFile(x: Exchange, path: string) returns (repo: Option<Repo>, entry: Option<Entry>, commit: string)
    requires x.Begun()
    modifies x`trace, x`asked, x`cookies, x`response
    ensures x.Valid()
    ensures Asks(x.trace) == []
    ensures match Find(x.loaded, x.cookie, path, x.origo) {
      case FoundNot(out) => (repo == None || entry == None) && x.response.Some? && x.Result() == out
      case FoundAt(r, e, c, ck) =>
        repo == Some(r) && entry == Some(e) && commit == c && x.cookies == ck && x.asked == 2 && x.response == None
    }
  {
    hide TraceOk, Asks, Clearings, Reasons, ReadSession, Classify, Failed, FailedIn, RememberOps, S.RecentOf, Start;
    repo, entry, commit := None, None, "";
    repo := x.OpenRepo();
    if repo.None? {
      return;
    }
    if path == "" {
      x.Render(404, NotFoundScreen);
      return;
    }
    var a := x.CallOrigo(x.reader.origo, ATree);
    if !Ok(a, ATree) {
      x.ReadFailedIn(repo.value, a, ATree);
      return;
    }
    var entries := a.payload.entries;
    commit := a.payload.commit;
    for i := 0 to |entries|
      invariant FindEntry(entries, path) == FindEntry(entries[i..], path)
      invariant x.trace ==
                old(x.trace) + [OrigoCall(x.reader.origo, ARepo, x.origo(0)), OrigoCall(x.reader.origo, ATree, a)]
      invariant x.Valid() && Asks(x.trace) == [] && x.asked == 2 && x.response == None
      invariant x.cookies == Start(x.loaded) + RememberOps(x.cookie, repo.value.id, repo.value.Name())
    {
      if entries[i].path == path && !entries[i].isDir {
        entry := Some(entries[i]);
        return;
      }
    }
    x.Render(404, NotFoundScreen);
  }

  method HandleBlob(x: Exchange, path: string)
    requires x.Idle()
    modifies x
    ensures x.Valid() && x.response.Some?
    ensures x.cache == old(x.cache) && Asks(x.trace) == []
    ensures x.Result() == BlobOutcome(x.loaded, x.cookie, path, x.origo)
  {
    hide TraceOk, Asks, Clearings, Reasons, ReadSession, Classify, Failed, FailedIn, RememberOps, S.RecentOf, Start;
    x.Begin();
    var repo, entry, commit := FindFile(x, path);
    if repo.None? || entry.None? {
      return;
    }
    var e := entry.value;
    if e.size > FETCH_LIMIT {
      x.Render(200, BlobScreen(repo.value, e, commit, true, false, ""));
      return;
    }
    var a := x.CallOrigo(x.reader.origo, ABlob);
    if !Ok(a, ABlob) {
      if TooLarge(a) {
        x.Render(200, BlobScreen(repo.value, e, commit, true, false, ""));
        return;
      }
      x.ReadFailedIn(repo.value, a, ABlob);
      return;
    }
    if !a.payload.textual {
      x.Render(200, BlobScreen(repo.value, e, commit, false, true, ""));
      return;
    }
    x.Render(200, BlobScreen(repo.value, e, commit, false, false, a.payload.bytes));
  }

  method HandleRaw(x: Exchange, path: string)
    requires x.Idle()
    modifies x
    ensures x.Valid() && x.response.Some?
    ensures x.cache == old(x.cache) && Asks(x.trace) == []
    ensures x.Result() == RawOutcome(x.loaded, x.cookie, path, x.origo)
  {
    hide TraceOk, Asks, Clearings, Reasons, ReadSession, Classify, Failed, FailedIn, RememberOps, S.RecentOf, Start;
    x.Begin();
    var repo, entry, _ := FindFile(x, path);
    if repo.None? || entry.None? {
      return;
    }
    var a := x.CallOrigo(x.reader.origo, ABlob);
    if !Ok(a, ABlob) {
      if TooLarge(a) {
        x.Render(200, RawTooLargeScreen(repo.value));
        return;
      }
      x.ReadFailedIn(repo.value, a, ABlob);
      return;
    }
    x.response := Some(Bytes(a.payload.bytes));
  }

  method HandleCommit(x: Exchange)
    requires x.Idle()
    modifies x
    ensures x.Valid() && x.response.Some?
    ensures x.cache == old(x.cache) && Asks(x.trace) == []
    ensures x.Result() == CommitOutcome(x.loaded, x.cookie, x.origo)
  {
    hide TraceOk, Asks, Clearings, Reasons, ReadSession, Classify, Failed, FailedIn, RememberOps, S.RecentOf, Start;
    x.Begin();
    var repo := x.OpenRepo();
    if repo.None? {
      return;
    }
    var c := x.CallOrigo(x.reader.origo, ACommit);
    if !Ok(c, ACommit) {
      x.ReadFailedIn(repo.value, c, ACommit);
      return;
    }
    if c.payload.parents == [] {
      x.Render(200, CommitScreen(repo.value, c.payload.sha, [], None));
      return;
    }
    var d := x.CallOrigo(x.reader.origo, ADiff);
    if !Ok(d, ADiff) {
      x.ReadFailedIn(repo.value, d, ADiff);
      return;
    }
    x.Render(200, CommitScreen(repo.value, c.payload.sha, c.payload.parents, Some((d.payload.text, d.payload.cut))));
  }

  method HandlePatch(x: Exchange)
    requires x.Idle()
    modifies x
    ensures x.Valid() && x.response.Some?
    ensures x.cache == old(x.cache) && Asks(x.trace) == []
    ensures x.Result() == PatchOutcome(x.loaded, x.cookie, x.origo)
  {
    hide TraceOk, Asks, Clearings, Reasons, ReadSession, Classify, Failed, FailedIn, RememberOps, S.RecentOf, Start;
    x.Begin();
    var repo := x.OpenRepo();
    if repo.None? {
      return;
    }
    var c := x.CallOrigo(x.reader.origo, ACommit);
    if !Ok(c, ACommit) {
      x.ReadFailedIn(repo.value, c, ACommit);
      return;
    }
    if c.payload.parents == [] {
      x.Render(404, NotFoundScreen);
      return;
    }
    var d := x.CallOrigo(x.reader.origo, ADiff);
    if !Ok(d, ADiff) {
      x.ReadFailedIn(repo.value, d, ADiff);
      return;
    }
    x.response := Some(Bytes(d.payload.text));
  }

  /** `named` says that both revisions are in the address. */
  method HandleCompare(x: Exchange, named: bool)
    requires x.Idle()
    modifies x
    ensures x.Valid() && x.response.Some?
    ensures x.cache == old(x.cache) && Asks(x.trace) == []
    ensures x.Result() == CompareOutcome(x.loaded, x.cookie, named, x.origo)
  {
    hide TraceOk, Asks, Clearings, Reasons, ReadSession, Classify, Failed, FailedIn, RememberOps, S.RecentOf, Start;
    x.Begin();
    var repo := x.OpenRepo();
    if repo.None? {
      return;
    }
    if !named {
      x.Render(200, CompareScreen(repo.value, None));
      return;
    }
    var d := x.CallOrigo(x.reader.origo, ADiff);
    if !Ok(d, ADiff) {
      x.ReadFailedIn(repo.value, d, ADiff);
      return;
    }
    x.Render(200, CompareScreen(repo.value, Some((d.payload.text, d.payload.cut))));
  }

  /** `rest` is what the old address carries after the identifier. */
  method HandleByID(x: Exchange, rest: string)
    requires x.Idle()
    modifies x
    ensures x.Valid() && x.response.Some?
    ensures x.cache == old(x.cache) && Asks(x.trace) == []
    ensures x.Result() == ByIDOutcome(x.loaded, rest, x.origo)
  {
    hide TraceOk, Asks, Clearings, Reasons, ReadSession, Classify, Failed, FailedIn, RememberOps, S.RecentOf, Start;
    x.Begin();
    var a := x.CallOrigo(x.reader.origo, ARepo);
    if !Ok(a, ARepo) {
      x.ReadFailed(a, ARepo);
      return;
    }
    x.response := Some(Redirect(301, a.payload.repo.Address() + rest));
  }

  method ShowDirectory(repos: seq<Repo>, next: string, q: HomeQuery) returns (d: Directory)
    ensures d == DirectoryOf(repos, next, q)
  {
    hide RowsOf, Li.Grouped, Li.Filter, Li.Sizes, Li.Listed;
    var canFilter, count, owners := Li.ListDirectory(RowsOf(repos), next, q.cursor, q.matches);
    d := Directory(owners, count, canFilter, next);
  }

  method HandleHome(x: Exchange, authError: bool, q: HomeQuery)
    requires x.Idle()
    modifies x
    ensures x.Valid() && x.response.Some?
    ensures x.cache == old(x.cache) && Asks(x.trace) == []
    ensures x.Result() == HomeOutcome(x.loaded, x.cookie, authError, q, x.origo)
  {
    hide TraceOk, Asks, Clearings, Reasons, ReadSession, Classify, Failed, FailedIn, RememberOps, S.RecentOf, Start,
         DirectoryOf, RowsOf, DeletedName, Absent, TooLarge, Unavailable;
    x.Begin();
    var failed := authError || x.reader.fault;
    var a := x.CallOrigo(x.reader.origo, TheRepos);
    if Ok(a, TheRepos) {
      var directory := ShowDirectory(a.payload.repos, a.payload.next, q);
      x.Render(200, HomeScreen(Some(directory), [], failed, DeletedName(q.deleted)));
    } else if Unauthenticated(a) {
      if x.reader.origo != NoToken {
        x.Clear();
      }
      x.SignIn(if x.reader.origo != NoToken then 401 else 200, failed);
    } else {
      x.Render(200, HomeScreen(None, S.RecentOf(x.cookie), failed, DeletedName(q.deleted)));
    }
  }

  // ---- the overview ----

  lemma ReadmeStep(entries: seq<Entry>, i: nat, kind: ReadmeKind)
    requires i < |entries|
    ensures FirstReadme(entries[i..], kind) ==
            if !entries[i].isDir && entries[i].readme == kind then Some(entries[i])
            else FirstReadme(entries[i + 1..], kind)
  {
    assert entries[i..][1..] == entries[i + 1..];
  }

  method PickReadme(entries: seq<Entry>) returns (r: Option<Entry>)
    ensures r == FindReadme(entries)
  {
    var plain: Option<Entry> := None;
    for i := 0 to |entries|
      invariant FirstReadme(entries, MarkdownReadme) == FirstReadme(entries[i..], MarkdownReadme)
      invariant FirstReadme(entries, PlainReadme) ==
                if plain.Some? then plain else FirstReadme(entries[i..], PlainReadme)
    {
      ReadmeStep(entries, i, MarkdownReadme);
      ReadmeStep(entries, i, PlainReadme);
      hide FirstReadme;
      var e := entries[i];
      if e.isDir || e.readme == NoReadme {
        continue;
      }
      if e.readme == MarkdownReadme {
        return Some(e);
      }
      if plain.None? {
        plain := Some(e);
      }
    }
    r := plain;
  }

  method ReadReadme(x: Exchange, entries: seq<Entry>) returns (r: Option<Readme>)
    requires x.Valid()
    modifies x`trace, x`asked
    ensures x.Valid()
    ensures Asks(x.trace) == old(Asks(x.trace))
    ensures r == ReadmeShown(entries, x.origo(old(x.asked)))
  {
    hide TraceOk, Asks, Clearings, Reasons, ReadSession, Classify, FindReadme;
    var e := PickReadme(entries);
    if e.None? {
      return None;
    }
    if e.value.size > README_LIMIT {
      return Some(Readme(e.value.sha, None));
    }
    var a := x.CallOrigo(x.reader.origo, ABlob);
    if !Ok(a, ABlob) {
      return Some(Readme(e.value.sha, None));
    }
    r := Some(Readme(e.value.sha, Some(a.payload.bytes)));
  }

  /** The overview once the repository and its visibility are known. */
  method RenderOverview(x: Exchange, repo: Repo, ref: string, shown: Shown)
    requires x.Valid() && x.asked == 1 && x.response == None
    modifies x`trace, x`asked, x`cookies, x`response
    ensures x.Valid() && x.response.Some?
    ensures Asks(x.trace) == old(Asks(x.trace))
    ensures x.Result() == OverviewBody(x.loaded, repo, ref, shown, old(x.cookies), x.origo)
  {
    hide TraceOk, Asks, Clearings, Reasons, ReadSession, Classify, Failed, FailedIn, ReadmeShown;
    var refs, missed := RefsFor(x);
    if refs.None? {
      x.ReadFailedIn(repo, missed, TheRefs);
      return;
    }
    var b, t := refs.value.0, refs.value.1;
    if repo.head == "" && b == [] {
      x.Render(200, OverviewScreen(repo, ref, shown, b, t, true, [], None, None));
      return;
    }
    var tree := x.CallOrigo(x.reader.origo, ATree);
    if !Ok(tree, ATree) {
      x.ReadFailedIn(repo, tree, ATree);
      return;
    }
    var log := x.CallOrigo(x.reader.origo, ALog);
    if !Ok(log, ALog) {
      x.ReadFailedIn(repo, log, ALog);
      return;
    }
    var last := if log.payload.commits == [] then None else Some(log.payload.commits[0]);
    var readme := ReadReadme(x, tree.payload.entries);
    x.Render(200, OverviewScreen(repo, ref, shown, b, t, false, tree.payload.entries, last, readme));
  }

  const CLONE := ".git"

  /** A clone address is the repository's with a suffix, and lands on the repository. */
  predicate CloneAddress(slug: string) {
    |CLONE| < |slug| && slug[|slug| - |CLONE|..] == CLONE
  }

  method HandleOverview(x: Exchange, owner: Bytes, slug: Bytes, ref: string)
    requires x.Idle()
    modifies x
    ensures x.Valid() && x.response.Some?
    ensures CloneAddress(slug) ==>
      x.response == Some(Redirect(301, NameURL(owner, slug[..|slug| - |CLONE|]))) &&
      x.cookies == [] && x.trace == [] && x.cache == old(x.cache)
    ensures !CloneAddress(slug) ==>
      x.Result() ==
        OverviewOutcome(x.loaded, x.cookie, ref, x.now, old(x.cache), x.hasRegistry, x.registry(0), x.origo) &&
      (x.cache, Asks(x.trace)) ==
        OverviewLeaves(x.loaded, x.cookie, x.now, old(x.cache), x.hasRegistry, x.registry(0), x.origo)
  {
    hide OverviewOutcome, OverviewLeaves;
    if CloneAddress(slug) {
      x.response := Some(Redirect(301, NameURL(owner, slug[..|slug| - |CLONE|])));
      return;
    }
    ShowOverview(x, ref);
  }

  lemma NothingBefore(asks: seq<Ask>)
    ensures [] + asks == asks
  {
  }

  method ShowOverview(x: Exchange, ref: string)
    requires x.Idle()
    modifies x
    ensures x.Valid() && x.response.Some?
    ensures x.Result() ==
            OverviewOutcome(x.loaded, x.cookie, ref, x.now, old(x.cache), x.hasRegistry, x.registry(0), x.origo)
    ensures (x.cache, Asks(x.trace)) ==
            OverviewLeaves(x.loaded, x.cookie, x.now, old(x.cache), x.hasRegistry, x.registry(0), x.origo)
  {
    hide TraceOk, Asks, Clearings, Reasons, ReadSession, Classify, Failed, RememberOps, S.RecentOf, Start,
         OverviewBody, VisibilityShown,
         V.Lookup, RegistryResultOf,
         CacheAfterShown, AskedToShow;
    x.Begin();
    var repo := x.OpenRepo();
    if repo.None? {
      return;
    }
    var shown := x.VisibilityOf(repo.value);
    NothingBefore(AskedToShow(x.reader, x.now, old(x.cache), repo.value.id, x.hasRegistry));
    assert (x.cache, Asks(x.trace)) ==
      OverviewLeaves(x.loaded, x.cookie, x.now, old(x.cache), x.hasRegistry, x.registry(0), x.origo);
    hide *;
    RenderOverview(x, repo.value, RefOf(repo.value, ref), shown);
  }

  // ---- the token screens ----

  /** Draws the screen, whether it was asked for or refused. */
  method RenderTokens(x: Exchange, status: nat, scoped: string, refusal: Sentence)
    requires x.Valid() && x.response == None
    modifies x`trace, x`asked, x`cookies, x`response
    ensures x.Valid() && x.response.Some?
    ensures Asks(x.trace) == old(Asks(x.trace))
    ensures x.Result() == TokensPage(x.loaded, x.cookie, status, scoped, refusal, old(x.cookies), x.origo, old(x.asked))
  {
    hide TraceOk, Asks, Clearings, Reasons, Classify, ReadSession, S.RecentOf;
    var listed := x.CallOrigo(x.reader.origo, TheRepos);
    if Unauthenticated(listed) {
      if x.reader.origo != NoToken {
        x.Clear();
      }
      x.SignIn(401, x.reader.fault);
      return;
    }
    var directory := if Ok(listed, TheRepos) then Some(listed.payload.repos) else None;
    var recent := if Ok(listed, TheRepos) then [] else S.RecentOf(x.cookie);
    var repo: Option<Repo> := None;
    var records: Option<seq<string>> := None;
    if scoped != "" {
      var a := x.CallOrigo(x.reader.origo, ARepo);
      if Ok(a, ARepo) {
        repo := Some(a.payload.repo);
        var b := x.CallOrigo(x.reader.origo, TheRecords);
        if Ok(b, TheRecords) {
          records := Some(b.payload.records);
        }
      }
    }
    x.Render(status, TokensScreen(directory, recent, repo, records, refusal));
  }

  method HandleTokens(x: Exchange, scoped: string)
    requires x.Idle()
    modifies x
    ensures x.Valid() && x.response.Some?
    ensures x.cache == old(x.cache) && Asks(x.trace) == []
    ensures x.Result() == TokensOutcome(x.loaded, x.cookie, scoped, x.origo)
  {
    hide TraceOk, Asks, Clearings, Reasons, Classify, ReadSession, TokensPage, Start;
    x.Begin();
    if x.reader.origo == NoToken {
      x.SignIn(200, x.reader.fault);
      return;
    }
    RenderTokens(x, 200, scoped, NoSentence);
  }

  /** Answers a refusal of either call the mint makes. */
  method MintRefused(x: Exchange, scoped: string, a: Answer, kind: Kind)
    requires x.Valid() && x.response == None && !Ok(a, kind) && x.cookies == Start(x.loaded)
    requires x.trace != [] && x.trace[|x.trace| - 1] == OrigoCall(x.reader.origo, kind, a)
    modifies x`trace, x`asked, x`cookies, x`response
    ensures x.Valid() && x.response.Some?
    ensures Asks(x.trace) == old(Asks(x.trace))
    ensures x.Result() == MintRefusedOutcome(x.loaded, x.cookie, scoped, Classify(a, kind), x.origo, old(x.asked))
  {
    hide TraceOk, Asks, Clearings, Reasons, ReadSession, TokensPage, Start;
    if Unauthenticated(a) {
      if x.reader.origo != NoToken {
        x.Clear();
      }
      x.SignIn(401, x.reader.fault);
    } else if Absent(a) {
      RenderTokens(x, 404, scoped, TokenWithheld);
    } else if Unavailable(a) {
      x.Render(502, UnavailableScreen);
    } else {
      RenderTokens(x, 502, scoped, TokenBroken);
    }
  }

  /** Mints one token and shows it, once. `formOk` says the form names a
      repository and one of the two scopes. */
  method HandleTokensPost(x: Exchange, csrf: bool, scoped: string, formOk: bool)
    requires x.Idle()
    modifies x
    ensures x.Valid() && x.response.Some?
    ensures x.cache == old(x.cache) && Asks(x.trace) == []
    ensures x.Result() == TokensPostOutcome(x.loaded, x.cookie, csrf, scoped, formOk, x.origo)
  {
    hide Classify, ReadSession, TokensPage, Start, MintOutcome;
    if !csrf {
      x.response := Some(Plain(403));
      return;
    }
    hide TraceOk, Asks, Clearings, Reasons;
    x.Begin();
    if x.reader.origo == NoToken {
      x.SignIn(200, x.reader.fault);
      return;
    }
    if !formOk {
      RenderTokens(x, 400, scoped, BadTokenForm);
      return;
    }
    ReadAndMint(x, scoped);
  }

  method ReadAndMint(x: Exchange, scoped: string)
    requires x.Begun()
    modifies x`trace, x`asked, x`cookies, x`response
    ensures x.Valid() && x.response.Some?
    ensures Asks(x.trace) == []
    ensures x.Result() == MintOutcome(x.loaded, x.cookie, scoped, x.origo)
  {
    hide TraceOk, Asks, Clearings, Reasons, Classify, ReadSession, TokensPage, Start, MintRefusedOutcome;
    var a := x.CallOrigo(x.reader.origo, ARepo);
    if !Ok(a, ARepo) {
      MintRefused(x, scoped, a, ARepo);
      return;
    }
    var m := x.CallOrigo(x.reader.origo, AMint);
    if !Ok(m, AMint) {
      MintRefused(x, scoped, m, AMint);
      return;
    }
    x.Render(200, TokenScreen(a.payload.repo, m.payload.value));
  }

  // ---- a refusal and an absence are one ----

  /** Two answers that differ at most in which of the absences they are. */
  predicate Alike(a: Answer, b: Answer) {
    a == b || (Absent(a) && Absent(b))
  }

  ghost predicate AlikeRuns(o1: Answers, o2: Answers) {
    forall i: nat :: Alike(o1(i), o2(i))
  }

  lemma AlikeClass(a: Answer, b: Answer, k: Kind)
    requires Alike(a, b)
    ensures Classify(a, k) == Classify(b, k)
  {
  }

  lemma AlikeClasses(o1: Answers, o2: Answers)
    requires AlikeRuns(o1, o2)
    ensures forall i: nat, k: Kind :: Classify(o1(i), k) == Classify(o2(i), k)
  {
    forall i: nat, k: Kind ensures Classify(o1(i), k) == Classify(o2(i), k) {
      assert Alike(o1(i), o2(i));
      AlikeClass(o1(i), o2(i), k);
    }
  }

  /** On every screen of a repository, exchanging 403, 404 and 410 at any calls
      leaves the status, the page and the cookies as they are. */
  lemma RefusalLooksAbsent(l: Loaded, cookie: string, o1: Answers, o2: Answers)
    requires AlikeRuns(o1, o2)
    ensures RefsOutcome(l, cookie, o1) == RefsOutcome(l, cookie, o2)
    ensures LogOutcome(l, cookie, o1) == LogOutcome(l, cookie, o2)
  {
    AlikeClasses(o1, o2);
    hide Classify, Absent, Failed, FailedIn, Fits, ReadSession, RememberOps, AlikeRuns, Start;
    assert Open(l, cookie, o1) == Open(l, cookie, o2);
    assert RefsAt(o1, 1) == RefsAt(o2, 1);
    hide Open, RefsAt;
  }

  lemma RefusalLooksAbsentInTrees(l: Loaded, cookie: string, o1: Answers, o2: Answers)
    requires AlikeRuns(o1, o2)
    ensures TreeOutcome(l, cookie, o1) == TreeOutcome(l, cookie, o2)
  {
    AlikeClasses(o1, o2);
    hide Classify, Absent, Failed, FailedIn, Fits, ReadSession, RememberOps, AlikeRuns, Start;
    assert Open(l, cookie, o1) == Open(l, cookie, o2);
    assert RefsAt(o1, 1) == RefsAt(o2, 1);
    forall repo, ck ensures
        TreePage(l, repo, ck, o1(1)) == TreePage(l, repo, ck, o2(1)) &&
        TreePage(l, repo, ck, o1(3)) == TreePage(l, repo, ck, o2(3)) {
    }
    hide Open, RefsAt, TreePage;
  }

  lemma RefusalLooksAbsentOnCommits(l: Loaded, cookie: string, o1: Answers, o2: Answers)
    requires AlikeRuns(o1, o2)
    ensures CommitOutcome(l, cookie, o1) == CommitOutcome(l, cookie, o2)
    ensures PatchOutcome(l, cookie, o1) == PatchOutcome(l, cookie, o2)
  {
    AlikeClasses(o1, o2);
    hide Classify, Absent, Failed, FailedIn, Fits, ReadSession, RememberOps, AlikeRuns, Start;
    assert Open(l, cookie, o1) == Open(l, cookie, o2);
    hide Open;
  }

  lemma RefusalLooksAbsentInFiles(l: Loaded, cookie: string, path: string, o1: Answers, o2: Answers)
    requires AlikeRuns(o1, o2)
    ensures BlobOutcome(l, cookie, path, o1) == BlobOutcome(l, cookie, path, o2)
    ensures RawOutcome(l, cookie, path, o1) == RawOutcome(l, cookie, path, o2)
  {
    AlikeClasses(o1, o2);
    hide Classify, Absent, Failed, FailedIn, Fits, ReadSession, RememberOps, AlikeRuns, Start, FindEntry;
    assert Open(l, cookie, o1) == Open(l, cookie, o2);
    assert Find(l, cookie, path, o1) == Find(l, cookie, path, o2);
    hide Find;
  }

  lemma RefusalLooksAbsentElsewhere(l: Loaded, cookie: string, named: bool, rest: string, authError: bool,
                                    q: HomeQuery, o1: Answers, o2: Answers)
    requires AlikeRuns(o1, o2)
    ensures CompareOutcome(l, cookie, named, o1) == CompareOutcome(l, cookie, named, o2)
    ensures ByIDOutcome(l, rest, o1) == ByIDOutcome(l, rest, o2)
    ensures HomeOutcome(l, cookie, authError, q, o1) == HomeOutcome(l, cookie, authError, q, o2)
  {
    AlikeClasses(o1, o2);
    hide Classify, Absent, Failed, FailedIn, Fits, ReadSession, RememberOps, AlikeRuns, Start;
  }

  /** The overview too, with the registry and the cache the same in both. */
  lemma RefusalLooksAbsentOnOverview(l: Loaded, cookie: string, ref: string, now: nat, cache: map<string, V.Entry>,
                                     hasRegistry: bool, first: PlatformAnswer, o1: Answers, o2: Answers)
    requires AlikeRuns(o1, o2)
    ensures OverviewOutcome(l, cookie, ref, now, cache, hasRegistry, first, o1) ==
            OverviewOutcome(l, cookie, ref, now, cache, hasRegistry, first, o2)
  {
    AlikeClasses(o1, o2);
    hide Classify, Absent, Failed, FailedIn, Fits, ReadSession, RememberOps, AlikeRuns, Start, FindReadme, VisibilityAt;
    assert Open(l, cookie, o1) == Open(l, cookie, o2);
    assert RefsAt(o1, 1) == RefsAt(o2, 1);
    forall entries ensures ReadmeShown(entries, o1(5)) == ReadmeShown(entries, o2(5)) {
      assert Classify(o1(5), ABlob) == Classify(o2(5), ABlob);
    }
    hide ReadmeShown, Open, RefsAt;
  }

  lemma TokensPageAlike(l: Loaded, cookie: string, status: nat, scoped: string, refusal: Sentence, ck: seq<SL.Op>,
                        o1: Answers, o2: Answers, i: nat)
    requires AlikeRuns(o1, o2)
    ensures TokensPage(l, cookie, status, scoped, refusal, ck, o1, i) ==
            TokensPage(l, cookie, status, scoped, refusal, ck, o2, i)
  {
    AlikeClasses(o1, o2);
    hide Classify, Absent, Fits, ReadSession, AlikeRuns, S.RecentOf;
  }

  /** And the token screens, whichever of their calls is refused. */
  lemma RefusalLooksAbsentOnTokens(l: Loaded, cookie: string, csrf: bool, scoped: string, formOk: bool, o1: Answers,
                                   o2: Answers)
    requires AlikeRuns(o1, o2)
    ensures TokensOutcome(l, cookie, scoped, o1) == TokensOutcome(l, cookie, scoped, o2)
    ensures TokensPostOutcome(l, cookie, csrf, scoped, formOk, o1) ==
            TokensPostOutcome(l, cookie, csrf, scoped, formOk, o2)
  {
    AlikeClasses(o1, o2);
    TokensPageAlike(l, cookie, 200, scoped, NoSentence, Start(l), o1, o2, 0);
    TokensPageAlike(l, cookie, 400, scoped, BadTokenForm, Start(l), o1, o2, 0);
    TokensPageAlike(l, cookie, 404, scoped, TokenWithheld, Start(l), o1, o2, 1);
    TokensPageAlike(l, cookie, 404, scoped, TokenWithheld, Start(l), o1, o2, 2);
    TokensPageAlike(l, cookie, 502, scoped, TokenBroken, Start(l), o1, o2, 1);
    TokensPageAlike(l, cookie, 502, scoped, TokenBroken, Start(l), o1, o2, 2);
    hide Classify, Absent, Fits, ReadSession, AlikeRuns, TokensPage, Start;
  }
}
