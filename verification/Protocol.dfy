/** One request on its way to an answer: the reader's tokens, the answers the
    services give, the trace of calls and clearings, and the cookies written. */
module Protocol {
  import opened Wrappers
  import opened Url
  import S = Session
  import SL = SessionLaws
  import V = Visibility
  import Li = Listing

  // ---- tokens ----

  datatype Audience = Issuer | Origo | Platform

  /** A token is known by whom it is addressed to. */
  datatype Token = NoToken | For(audience: Audience)

  /** What the session library makes of a request: no cookie, one it refused and
      cleared, or a live session for which each of the two mints may fail. */
  datatype Loaded = NoCookie | LoadFailed | Live(sub: string, origoMinted: bool, platformMinted: bool)

  datatype Reader = Reader(token: Token, origo: Token, platform: Token, fault: bool, platformFault: bool, sub: string)

  function ReadSession(l: Loaded): Reader {
    match l
    case NoCookie => Reader(NoToken, NoToken, NoToken, false, false, "")
    case LoadFailed => Reader(NoToken, NoToken, NoToken, false, false, "")
    case Live(sub, o, p) =>
      Reader(For(Issuer), if o then For(Origo) else NoToken, if p then For(Platform) else NoToken, !o, !p, sub)
  }

  // ---- Origo ----

  datatype Repo = Repo(id: Bytes, owner: Bytes, slug: Bytes, defaultBranch: string, head: string) {
    function Name(): Bytes { owner + "/" + slug }
    function Address(): string { NameURL(owner, slug) }
  }

  datatype ReadmeKind = NoReadme | PlainReadme | MarkdownReadme

  datatype Entry = Entry(path: string, isDir: bool, sha: string, size: nat, readme: ReadmeKind)

  datatype Payload =
    | RepoBody(repo: Repo)
    | RefsBody(refs: seq<string>, cut: bool)
    | TreeBody(entries: seq<Entry>, next: string, commit: string)
    | LogBody(commits: seq<string>, next: string)
    | CommitBody(sha: string, parents: seq<string>)
    | DiffBody(text: string, cut: bool)
    | BlobBody(bytes: string, textual: bool)
    | ReposBody(repos: seq<Repo>, next: string)
    | RecordsBody(records: seq<string>)
    | MintedBody(value: string)

  datatype Kind = ARepo | TheRefs | ATree | ALog | ACommit | ADiff | ABlob | TheRepos | TheRecords | AMint

  predicate Fits(p: Payload, k: Kind) {
    match k
    case ARepo => p.RepoBody?
    case TheRefs => p.RefsBody?
    case ATree => p.TreeBody?
    case ALog => p.LogBody?
    case ACommit => p.CommitBody?
    case ADiff => p.DiffBody?
    case ABlob => p.BlobBody?
    case TheRepos => p.ReposBody?
    case TheRecords => p.RecordsBody?
    case AMint => p.MintedBody?
  }

  /** One answer: a body, a status that refuses, or no answer at all. */
  datatype Answer = Body(payload: Payload) | Refused(status: nat) | Unreachable

  /** A body the client cannot decode is an error of no status. */
  predicate Ok(a: Answer, k: Kind) { a.Body? && Fits(a.payload, k) }
  predicate Unauthenticated(a: Answer) { a == Refused(401) }
  predicate Absent(a: Answer) { a == Refused(403) || a == Refused(404) || a == Refused(410) }
  predicate TooLarge(a: Answer) { a == Refused(413) }
  predicate Unavailable(a: Answer) { a == Unreachable || (a.Refused? && (a.status == 0 || a.status >= 500)) }

  // ---- the platform ----

  datatype PlatformBody = Done | VisibilityBody(answer: V.Answer) | CreatedBody(repo: Repo)
                        | SpacesBody(labels: seq<string>)
                        | KeysBody(ids: seq<string>) | KeyBody(fingerprint: string)

  /** An answer of the registry or the key store; a code comes with a refusal. */
  datatype PlatformAnswer = Good(body: PlatformBody) | Bad(status: nat, code: string) | Silent | Garbled

  datatype RegistryOp = ReadVisibility(id: Bytes) | SetVisibility(id: Bytes, target: string)
                      | Remove(id: Bytes) | Create(id: Bytes, owner: string, name: string) | Namespaces

  datatype KeysOp = ListKeys | ParseKey(pasted: string) | AddKey(pasted: string) | RemoveKey(id: string)

  /** A success, whether or not its body can be decoded. */
  predicate Accepted(a: PlatformAnswer) { a.Good? || a.Garbled? }
  predicate Denied(a: PlatformAnswer) { a.Bad? && a.status == 401 }
  predicate Withheld(a: PlatformAnswer) { a.Bad? && a.status == 403 }
  predicate NotThere(a: PlatformAnswer) { a.Bad? && a.status == 404 }
  predicate Conflicts(a: PlatformAnswer) { a.Bad? && a.status == 409 }
  predicate Invalid(a: PlatformAnswer) { a.Bad? && a.status == 400 }
  function CodeOf(a: PlatformAnswer): string { if a.Bad? then a.code else if a.Silent? then "unreachable" else "" }

  /** No registry is configured, or it does not serve the route: every method but
      the deletion reads a 404 so. */
  datatype RegistryResult = NoRegistry | Answered(answer: PlatformAnswer)

  /** The answer as the method for it reads it: a change and a deletion take any
      success, whatever its body. */
  function Fitted(op: RegistryOp, a: PlatformAnswer): PlatformAnswer {
    if !Accepted(a) || (a.Garbled? && !(op.SetVisibility? || op.Remove?)) then a
    else
      match op
      case ReadVisibility(_) => if a.body.VisibilityBody? then a else Garbled
      case Create(_, _, _) => if a.body.CreatedBody? then a else Garbled
      case Namespaces => if a.body.SpacesBody? then a else Garbled
      case SetVisibility(_, _) => Good(Done)
      case Remove(_) => Good(Done)
  }

  function RegistryResultOf(op: RegistryOp, a: PlatformAnswer): RegistryResult {
    if NotThere(a) && !op.Remove? then NoRegistry else Answered(Fitted(op, a))
  }

  // ---- what a request leaves ----

  datatype Event =
    | OrigoCall(token: Token, kind: Kind, answer: Answer)
    | RegistryCall(token: Token, op: RegistryOp, result: PlatformAnswer)
    | KeysCall(token: Token, keysOp: KeysOp, result: PlatformAnswer)
    | Lost
    | Cleared
    | SignedOut

  /** The call that was refused for its credential, and carried one. */
  predicate RefusedCredential(e: Event) {
    match e
    case OrigoCall(t, _, a) => t != NoToken && Unauthenticated(a)
    case RegistryCall(t, _, a) => t != NoToken && Denied(a)
    case KeysCall(t, _, a) => t != NoToken && Denied(a)
    case Lost => false
    case Cleared => false
    case SignedOut => false
  }

  /** Each service gets the token minted for it and no other, and a session is cleared
      only right after a call whose credential was refused. */
  predicate EventOk(rd: Reader, before: seq<Event>, e: Event) {
    match e
    case OrigoCall(t, _, _) => t == rd.origo
    case RegistryCall(t, _, _) => t == rd.platform != NoToken
    case KeysCall(t, _, _) => t == rd.platform != NoToken
    case Lost => before == []
    case Cleared => before != [] && RefusedCredential(before[|before| - 1])
    case SignedOut => false
  }

  predicate TraceOk(rd: Reader, trace: seq<Event>) {
    trace == [] || (TraceOk(rd, trace[..|trace| - 1]) && EventOk(rd, trace[..|trace| - 1], trace[|trace| - 1]))
  }

  lemma {:induction false} TraceOkAt(rd: Reader, trace: seq<Event>, i: nat)
    requires TraceOk(rd, trace) && i < |trace|
    ensures EventOk(rd, trace[..i], trace[i])
    decreases |trace|
  {
    if i < |trace| - 1 {
      TraceOkAt(rd, trace[..|trace| - 1], i);
      assert trace[..|trace| - 1][..i] == trace[..i];
    }
  }

  /** How often a response clears the session, and how often a trace says why. */
  function Clearings(ops: seq<SL.Op>): nat {
    if ops == [] then 0 else Clearings(ops[..|ops| - 1]) + if ops[|ops| - 1].Clear? then 1 else 0
  }

  function Reasons(trace: seq<Event>): nat {
    if trace == [] then 0 else Reasons(trace[..|trace| - 1]) + if trace[|trace| - 1].Cleared? then 1 else 0
  }

  lemma ClearingsAppend(ops: seq<SL.Op>, op: SL.Op)
    ensures Clearings(ops + [op]) == Clearings(ops) + if op.Clear? then 1 else 0
  {
    assert (ops + [op])[..|ops|] == ops;
  }

  /** What the registry and the key store are asked, in order. */
  datatype Ask = OfRegistry(registryOp: RegistryOp) | OfKeys(keysOp: KeysOp)

  function AskOf(e: Event): seq<Ask> {
    match e
    case RegistryCall(_, op, _) => [OfRegistry(op)]
    case KeysCall(_, op, _) => [OfKeys(op)]
    case _ => []
  }

  function Asks(trace: seq<Event>): seq<Ask> {
    if trace == [] then [] else Asks(trace[..|trace| - 1]) + AskOf(trace[|trace| - 1])
  }

  lemma TraceOkAppend(rd: Reader, trace: seq<Event>, e: Event)
    requires TraceOk(rd, trace) && EventOk(rd, trace, e)
    ensures TraceOk(rd, trace + [e])
    ensures Asks(trace + [e]) == Asks(trace) + AskOf(e)
    ensures Reasons(trace + [e]) == Reasons(trace) + if e.Cleared? then 1 else 0
  {
    assert (trace + [e])[..|trace|] == trace;
  }

  datatype Readme = Readme(sha: string, bytes: Option<string>)

  /** The one sentence a refused form carries. */
  datatype Sentence =
    | NoSentence | BadTokenForm | TokenWithheld | TokenBroken | BadVisibility
    | Mistyped | DeletionRefused | DeletionManaged | NoDeletion | DeletionBusy
    | BadName | BadOwner | NameTaken | OwnerAtLimit | CreationRefused
    | NothingPasted | NotYourKey | AlreadyYours | AlreadyTaken | InvalidKey
    | KeysNotEnabled | KeyNotAdded | KeyNotRemoved

  /** The directory under its owners; `next` is where it goes on. */
  datatype Directory = Directory(owners: seq<Li.Group>, count: nat, canFilter: bool, next: string)

  datatype Screen =
    | NotFoundScreen
    | NotFoundInScreen(repo: Repo)
    | UnavailableScreen
    | BrokenScreen
    | IssuerFaultScreen
    | NoCreationScreen
    | SignInScreen(refused: bool, authError: bool)
    | OverviewScreen(repo: Repo, ref: string, shown: Shown, branches: seq<string>, tags: seq<string>,
                     empty: bool, entries: seq<Entry>, last: Option<string>, readme: Option<Readme>)
    | RefsScreen(repo: Repo, branches: seq<string>, tags: seq<string>, cut: bool)
    | LogScreen(repo: Repo, commits: seq<string>, next: string)
    | TreeScreen(repo: Repo, noCommits: bool, entries: seq<Entry>, next: string)
    | BlobScreen(repo: Repo, entry: Entry, commit: string, tooLarge: bool, binary: bool, bytes: string)
    | RawTooLargeScreen(repo: Repo)
    | CommitScreen(repo: Repo, sha: string, parents: seq<string>, diff: Option<(string, bool)>)
    | CompareScreen(repo: Repo, diff: Option<(string, bool)>)
    | HomeScreen(directory: Option<Directory>, recent: seq<S.Opened>, authError: bool, deleted: string)
    | TokensScreen(listed: Option<seq<Repo>>, recent: seq<S.Opened>, scoped: Option<Repo>,
        records: Option<seq<string>>, refusal: Sentence)
    | TokenScreen(repo: Repo, value: string)
    | VisibilityScreen(repo: Repo, isPublic: bool, refusal: Sentence)
    | DeleteScreen(repo: Repo, typed: string, refusal: Sentence)
    | NewScreen(labels: seq<string>, owner: string, name: string, refusal: Sentence)
    | KeysScreen(ids: Option<seq<string>>, confirm: Option<(string, string)>, removing: Option<string>,
        paste: string, refusal: Sentence)

  /** What the overview says about who may read the repository. */
  datatype Shown = Blank | Unknown | Says(isPublic: bool, offersChange: bool)

  datatype Response =
    | Page(status: nat, signedIn: bool, screen: Screen)
    | Redirect(status: nat, target: string)
    | Bytes(content: string)
    | Plain(status: nat)

  /** What a reader's browser gets: the answer and the cookie operations behind it. */
  datatype Outcome = Outcome(response: Response, cookies: seq<SL.Op>)

  // ---- the answer of the overview about visibility ----

  function ShownOf(v: V.Answer): Shown {
    Says(v.IsPublic(), v.canChange)
  }

  /** What the overview says, from the cache when it holds an answer and from the
      registry's result otherwise. */
  function VisibilityShown(platform: Token, cached: Option<V.Answer>, result: RegistryResult): Shown {
    if platform == NoToken then Blank
    else if cached.Some? then ShownOf(cached.value)
    else if result.NoRegistry? || NotThere(result.answer) then Blank
    else if result.answer.Good? && result.answer.body.VisibilityBody? then ShownOf(result.answer.body.answer)
    else Unknown
  }

  /** What the overview leaves in the cache: an answer just given, and nothing else. */
  function CacheAfterShown(rd: Reader, now: nat, cache: map<string, V.Entry>, id: Bytes,
           result: RegistryResult): map<string, V.Entry> {
    if rd.platform != NoToken && V.Lookup(cache, now, rd.sub, id).None?
       && result.Answered? && result.answer.Good? && result.answer.body.VisibilityBody?
    then V.Stored(cache, now, rd.sub, id, result.answer.body.answer)
    else cache
  }

  /** The registry is asked only when the cache has no answer. */
  function AskedToShow(rd: Reader, now: nat, cache: map<string, V.Entry>, id: Bytes, hasRegistry: bool): seq<Ask> {
    if rd.platform != NoToken && V.Lookup(cache, now, rd.sub, id).None? && hasRegistry
    then [OfRegistry(ReadVisibility(id))] else []
  }

  // ---- one exchange ----

  class Exchange {
    const loaded: Loaded
    const reader: Reader
    const cookie: string
    const now: nat
    const hasRegistry: bool
    const origo: nat -> Answer
    const registry: nat -> PlatformAnswer
    const keys: nat -> PlatformAnswer

    var asked: nat
    var registryAsked: nat
    var keysAsked: nat
    var trace: seq<Event>
    var cookies: seq<SL.Op>
    var cache: map<string, V.Entry>
    var response: Option<Response>

    constructor (loaded: Loaded, cookie: string, now: nat, hasRegistry: bool, cache: map<string, V.Entry>,
                 origo: nat -> Answer, registry: nat -> PlatformAnswer, keys: nat -> PlatformAnswer)
      ensures Idle() && this.loaded == loaded && this.cookie == cookie && this.now == now
      ensures this.hasRegistry == hasRegistry && this.cache == cache
      ensures this.origo == origo && this.registry == registry && this.keys == keys
    {
      this.loaded, this.cookie, this.now, this.hasRegistry := loaded, cookie, now, hasRegistry;
      this.reader := ReadSession(loaded);
      this.origo, this.registry, this.keys := origo, registry, keys;
      this.cache, this.response := cache, None;
      this.asked, this.registryAsked, this.keysAsked := 0, 0, 0;
      this.trace, this.cookies := [], [];
    }

    /** A request nothing has been done for. */
    ghost predicate Idle()
      reads this
    {
      reader == ReadSession(loaded) && asked == 0 && registryAsked == 0 && keysAsked == 0
      && response == None && trace == [] && cookies == []
    }

    /** A request whose session has been read, and nothing more. */
    ghost predicate Begun()
      reads this
    {
      Valid() && asked == 0 && registryAsked == 0 && keysAsked == 0 && response == None
      && trace == (if loaded.LoadFailed? then [Lost] else []) && Asks(trace) == [] && cookies == Start(loaded)
    }

    /** The session is read once; one that could not be loaded is cleared here. */
    method Begin()
      requires Idle()
      modifies `trace, `cookies
      ensures Begun()
    {
      if loaded.LoadFailed? {
        trace, cookies := [Lost], [SL.Clear];
        assert trace[..0] == [] && cookies[..0] == [];
      }
    }

    /** What the browser gets; every handler answers. */
    ghost function Result(): Outcome
      reads this
    {
      Outcome(response.GetOr(Plain(0)), cookies)
    }

    /** Every event is in order, and every clearing of the session has its reason. */
    ghost predicate Valid()
      reads this
    {
      reader == ReadSession(loaded) && TraceOk(reader, trace)
      && Clearings(cookies) <= Reasons(trace) + if loaded.LoadFailed? then 1 else 0
    }

    // ---- calls ----

    /** A handler says which token it sends; only the one minted for Origo may be. */
    method CallOrigo(tok: Token, kind: Kind) returns (a: Answer)
      requires Valid() && EventOk(reader, trace, OrigoCall(tok, kind, origo(asked)))
      modifies `trace, `asked
      ensures Valid()
      ensures a == origo(old(asked)) && asked == old(asked) + 1
      ensures trace == old(trace) + [OrigoCall(tok, kind, a)] && Asks(trace) == old(Asks(trace))
    {
      a := origo(asked);
      asked := asked + 1;
      TraceOkAppend(reader, trace, OrigoCall(tok, kind, a));
      trace := trace + [OrigoCall(tok, kind, a)];
    }

    /** An installation with no registry is asked nothing. */
    method CallRegistry(tok: Token, op: RegistryOp) returns (r: RegistryResult)
      requires Valid() && EventOk(reader, trace, RegistryCall(tok, op, registry(registryAsked)))
      modifies `trace, `registryAsked
      ensures Valid()
      ensures !hasRegistry ==> r == NoRegistry && trace == old(trace) && registryAsked == old(registryAsked)
      ensures hasRegistry ==>
        r == RegistryResultOf(op, registry(old(registryAsked))) && registryAsked == old(registryAsked) + 1 &&
        trace == old(trace) + [RegistryCall(tok, op, registry(old(registryAsked)))] &&
        Asks(trace) == old(Asks(trace)) + [OfRegistry(op)]
    {
      if !hasRegistry {
        return NoRegistry;
      }
      var a := registry(registryAsked);
      registryAsked := registryAsked + 1;
      TraceOkAppend(reader, trace, RegistryCall(tok, op, a));
      trace := trace + [RegistryCall(tok, op, a)];
      r := RegistryResultOf(op, a);
    }

    method CallKeys(tok: Token, op: KeysOp) returns (a: PlatformAnswer)
      requires Valid() && EventOk(reader, trace, KeysCall(tok, op, keys(keysAsked)))
      modifies `trace, `keysAsked
      ensures Valid()
      ensures a == keys(old(keysAsked)) && keysAsked == old(keysAsked) + 1
      ensures trace == old(trace) + [KeysCall(tok, op, a)]
      ensures Asks(trace) == old(Asks(trace)) + [OfKeys(op)]
    {
      a := keys(keysAsked);
      keysAsked := keysAsked + 1;
      TraceOkAppend(reader, trace, KeysCall(tok, op, a));
      trace := trace + [KeysCall(tok, op, a)];
    }

    // ---- effects ----

    method Clear()
      requires Valid() && trace != [] && RefusedCredential(trace[|trace| - 1])
      modifies `trace, `cookies
      ensures Valid() && trace == old(trace) + [Cleared] && cookies == old(cookies) + [SL.Clear]
      ensures Asks(trace) == old(Asks(trace))
    {
      TraceOkAppend(reader, trace, Cleared);
      ClearingsAppend(cookies, SL.Clear);
      trace := trace + [Cleared];
      cookies := cookies + [SL.Clear];
    }

    method Remember(id: Bytes, name: string)
      requires Valid()
      modifies `cookies
      ensures Valid() && cookies == old(cookies) + RememberOps(cookie, id, name)
    {
      if S.PlausibleID(id) {
        ClearingsAppend(cookies, SL.Write(S.Remembered(S.RecentOf(cookie), id, name)));
        cookies := cookies + [SL.Write(S.Remembered(S.RecentOf(cookie), id, name))];
      }
    }

    method Forget(id: Bytes)
      requires Valid()
      modifies `cookies
      ensures Valid() && cookies == old(cookies) + [SL.Write(S.Others(S.RecentOf(cookie), id))]
    {
      ClearingsAppend(cookies, SL.Write(S.Others(S.RecentOf(cookie), id)));
      cookies := cookies + [SL.Write(S.Others(S.RecentOf(cookie), id))];
    }

    method Render(status: nat, screen: Screen)
      modifies `response
      ensures response == Some(Page(status, reader.token != NoToken, screen))
    {
      response := Some(Page(status, reader.token != NoToken, screen));
    }

    /** The sign-in page names nobody, and says a credential was refused only when
        the request carried one. */
    method SignIn(status: nat, authError: bool)
      modifies `response
      ensures response == Some(SignInPage(reader, status, authError))
    {
      response := Some(Page(status, false, SignInScreen(reader.origo != NoToken, authError)));
    }

    // ---- what every screen shares ----

    method ReadFailed(a: Answer, kind: Kind)
      requires Valid() && !Ok(a, kind)
      requires trace != [] && trace[|trace| - 1] == OrigoCall(reader.origo, kind, a)
      modifies `trace, `cookies, `response
      ensures Valid()
      ensures Result() == Failed(reader, old(cookies), Classify(a, kind)) && response.Some?
      ensures trace == old(trace) || trace == old(trace) + [Cleared]
      ensures Asks(trace) == old(Asks(trace))
    {
      if Unauthenticated(a) {
        if reader.origo != NoToken {
          Clear();
        }
        SignIn(401, reader.fault);
      } else if Absent(a) {
        Render(404, NotFoundScreen);
      } else if Unavailable(a) {
        Render(502, UnavailableScreen);
      } else {
        Render(502, BrokenScreen);
      }
    }

    method ReadFailedIn(repo: Repo, a: Answer, kind: Kind)
      requires Valid() && !Ok(a, kind)
      requires trace != [] && trace[|trace| - 1] == OrigoCall(reader.origo, kind, a)
      modifies `trace, `cookies, `response
      ensures Valid()
      ensures Result() == FailedIn(reader, repo, old(cookies), Classify(a, kind)) && response.Some?
      ensures trace == old(trace) || trace == old(trace) + [Cleared]
      ensures Asks(trace) == old(Asks(trace))
    {
      if !Absent(a) {
        ReadFailed(a, kind);
        return;
      }
      Render(404, NotFoundInScreen(repo));
    }

    method OpenRepo() returns (found: Option<Repo>)
      requires Valid() && response == None
      modifies `trace, `asked, `cookies, `response
      ensures Valid() && asked == old(asked) + 1 && Asks(trace) == old(Asks(trace))
      ensures |trace| > |old(trace)|
      ensures trace[..|old(trace)| + 1] == old(trace) + [OrigoCall(reader.origo, ARepo, origo(old(asked)))]
      ensures match Classify(origo(old(asked)), ARepo) {
        case Got(p) =>
          found == Some(p.repo) && response == None &&
          trace == old(trace) + [OrigoCall(reader.origo, ARepo, origo(old(asked)))] &&
          cookies == old(cookies) + RememberOps(cookie, p.repo.id, p.repo.Name())
        case reply => found == None && response.Some? &&
          Result() == Failed(reader, old(cookies), reply)
      }
    {
      hide TraceOk, Asks, Clearings, Reasons, ReadSession, Failed, RememberOps;
      var a := CallOrigo(reader.origo, ARepo);
      if !Ok(a, ARepo) {
        ReadFailed(a, ARepo);
        return None;
      }
      var repo := a.payload.repo;
      Remember(repo.id, repo.Name());
      found := Some(repo);
    }

    /** Two failures are told apart: no session to mint from, and a live session
        the issuer would not mint for. */
    method RequirePlatform() returns (ok: bool)
      modifies `response
      ensures ok <==> reader.platform != NoToken
      ensures ok ==> response == old(response)
      ensures !ok ==> response == Some(NoPlatform(reader))
    {
      if reader.platform != NoToken {
        return true;
      }
      if reader.platformFault {
        Render(502, IssuerFaultScreen);
      } else {
        SignIn(200, reader.fault);
      }
      ok := false;
    }

    /** What the overview says about visibility, and what it leaves in the cache. */
    method VisibilityOf(repo: Repo) returns (shown: Shown)
      requires Valid()
      modifies `trace, `registryAsked, `cache
      ensures Valid()
      ensures shown == VisibilityShown(reader.platform, V.Lookup(old(cache), now, reader.sub, repo.id),
                                       VisibilityResult(repo.id, old(registryAsked)))
      ensures cache == CacheAfterShown(reader, now, old(cache), repo.id, VisibilityResult(repo.id, old(registryAsked)))
      ensures Asks(trace) == old(Asks(trace)) + AskedToShow(reader, now, old(cache), repo.id, hasRegistry)
    {
      hide TraceOk, Asks, Clearings, Reasons, ReadSession, V.Stored, V.Lookup, V.Key;
      if reader.platform == NoToken {
        return Blank;
      }
      var key := V.Key(reader.sub, repo.id);
      var cached := V.Lookup(cache, now, reader.sub, repo.id);
      if cached.Some? {
        return ShownOf(cached.value);
      }
      var r := CallRegistry(reader.platform, ReadVisibility(repo.id));
      if r.Answered? && r.answer.Good? && r.answer.body.VisibilityBody? {
        var v := r.answer.body.answer;
        V.StoredMeans(cache, now, reader.sub, repo.id, v);
        if key.Some? {
          cache := cache[key.value := V.Entry(v, now)];
        }
        return ShownOf(v);
      }
      if r.NoRegistry? || NotThere(r.answer) {
        return Blank;
      }
      shown := Unknown;
    }

    function VisibilityResult(id: Bytes, n: nat): RegistryResult {
      if hasRegistry then RegistryResultOf(ReadVisibility(id), registry(n)) else NoRegistry
    }
  }

  // ---- answers by class ----

  /** What a screen is allowed to know of an answer: a refusal and an absence are one. */
  datatype Reply = Got(payload: Payload) | Unsigned | Gone | TooBig | Down | Odd

  function Classify(a: Answer, k: Kind): (r: Reply)
    ensures r.Got? <==> Ok(a, k)
    ensures r.Got? ==> r == Got(a.payload) && Fits(r.payload, k)
    ensures r == Unsigned <==> Unauthenticated(a)
    ensures r == Gone <==> Absent(a)
    ensures r == TooBig <==> TooLarge(a)
    ensures r == Down <==> Unavailable(a)
  {
    if Ok(a, k) then Got(a.payload)
    else if Unauthenticated(a) then Unsigned
    else if Absent(a) then Gone
    else if TooLarge(a) then TooBig
    else if Unavailable(a) then Down
    else Odd
  }

  function Start(loaded: Loaded): seq<SL.Op> {
    if loaded.LoadFailed? then [SL.Clear] else []
  }

  function RememberOps(cookie: string, id: Bytes, name: string): seq<SL.Op> {
    if S.PlausibleID(id) then [SL.Write(S.Remembered(S.RecentOf(cookie), id, name))] else []
  }

  function SignInPage(rd: Reader, status: nat, authError: bool): Response {
    Page(status, false, SignInScreen(rd.origo != NoToken, authError))
  }

  /** The address of a repository. */
  function NameURL(owner: Bytes, slug: Bytes): string {
    "/" + Escape(owner, Segment) + "/" + Escape(slug, Segment)
  }

  /** The answer to a screen of the platform that has no token for it. */
  function NoPlatform(rd: Reader): Response {
    if rd.platformFault then Page(502, rd.token != NoToken, IssuerFaultScreen) else SignInPage(rd, 200, rd.fault)
  }

  /** A failed read, from the class of its answer alone. */
  function Failed(rd: Reader, cookies: seq<SL.Op>, r: Reply): Outcome {
    match r
    case Unsigned => Outcome(SignInPage(rd, 401, rd.fault), cookies + if rd.origo != NoToken then [SL.Clear] else [])
    case Gone => Outcome(Page(404, rd.token != NoToken, NotFoundScreen), cookies)
    case Down => Outcome(Page(502, rd.token != NoToken, UnavailableScreen), cookies)
    case _ => Outcome(Page(502, rd.token != NoToken, BrokenScreen), cookies)
  }

  /** The same inside a repository the reader has been shown. */
  function FailedIn(rd: Reader, repo: Repo, cookies: seq<SL.Op>, r: Reply): Outcome {
    if r.Gone? then Outcome(Page(404, rd.token != NoToken, NotFoundInScreen(repo)), cookies)
    else Failed(rd, cookies, r)
  }
}
