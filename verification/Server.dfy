/** The routes: every request this interface answers with a screen of its own, and what
    holds of whatever any of them leaves behind. */
module Server {
  import opened Wrappers
  import opened Text
  import opened Url
  import opened Protocol
  import SL = SessionLaws
  import R = Reading
  import W = Writing
  import A = Accounts
  import V = Visibility
  import RL = ReadingLaws
  import WL = WritingLaws
  import AL = AccountsLaws

  /** A screen of one repository that asks nobody but Origo, with what its handler
      reads from the address. */
  datatype ReadRoute =
    | Refs
    | Log
    | Commit
    | Patch
    | Compare(both: bool)
    | Tree
    | Blob(path: string)
    | Raw(path: string)
    | ByID(rest: string)

  /** A screen that changes something, or asks before it. */
  datatype ChangeRoute =
    | New(space: string)
    | NewPost(csrf: bool, named: Option<(string, string)>, id: Bytes)
    | Visibility
    | VisibilityPost(csrf: bool, form: Option<string>)
    | Delete
    | DeletePost(csrf: bool, form: Option<string>)
    | Keys
    | KeysPost(csrf: bool, key: string, confirmed: bool)
    | KeyRemove(keyID: string)
    | KeyRemovePost(csrf: bool, keyID: string)

  datatype Request =
    | Home(authError: bool, query: R.HomeQuery)
    | SignIn(to: string)
    | SignOut(csrf: bool, to: string)
    | LogoutNotify(destination: string)
    | Tokens(scoped: string)
    | TokensPost(csrf: bool, scoped: string, formOk: bool)
    | Overview(owner: Bytes, slug: Bytes, ref: string)
    | Reads(read: ReadRoute)
    | Changes(change: ChangeRoute)
  {
    /** The reader asked to leave, or the issuer said they did. */
    predicate Leaves() { SignOut? || LogoutNotify? }
  }

  /** The token of a call is the one minted for the service that is called, and the
      session token is sent nowhere. */
  predicate AtHome(rd: Reader, e: Event) {
    match e
    case OrigoCall(t, _, _) => t == rd.origo && t in {NoToken, For(Origo)}
    case RegistryCall(t, _, _) => t == rd.platform == For(Platform)
    case KeysCall(t, _, _) => t == rd.platform == For(Platform)
    case _ => true
  }

  /** The clearing of a session is the answer to a refusal just before it. */
  predicate Explained(trace: seq<Event>, i: nat)
    requires i < |trace|
  {
    trace[i].Cleared? ==> i > 0 && RefusedCredential(trace[i - 1])
  }

  /** What each route answers, by its own handler. */
  function AnswerOf(w: W.World, now: nat, cache: map<string, V.Entry>, r: Request): Outcome {
    var l, cookie, o := w.loaded, w.cookie, w.origo;
    match r
    case Home(authError, query) => R.HomeOutcome(l, cookie, authError, query, o)
    case SignIn(to) => SignInAnswer(l, to)
    case SignOut(csrf, to) => Outcome(if csrf then Redirect(303, to) else Plain(403), if csrf then [SL.Clear] else [])
    case LogoutNotify(destination) => NoticeAnswer(destination in ["", "iframe", "frame"])
    case Tokens(scoped) => R.TokensOutcome(l, cookie, scoped, o)
    case TokensPost(csrf, scoped, formOk) => R.TokensPostOutcome(l, cookie, csrf, scoped, formOk, o)
    case Overview(owner, slug, ref) => OverviewAnswer(w, now, cache, slug, owner, ref)
    case Reads(read) => ReadAnswer(l, cookie, o, read)
    case Changes(change) => ChangeAnswer(w, change)
  }

  function ReadAnswer(l: Loaded, cookie: string, o: R.Answers, r: ReadRoute): Outcome {
    match r
    case Refs => R.RefsOutcome(l, cookie, o)
    case Log => R.LogOutcome(l, cookie, o)
    case Commit => R.CommitOutcome(l, cookie, o)
    case Patch => R.PatchOutcome(l, cookie, o)
    case Compare(both) => R.CompareOutcome(l, cookie, both, o)
    case Tree => R.TreeOutcome(l, cookie, o)
    case Blob(path) => R.BlobOutcome(l, cookie, path, o)
    case Raw(path) => R.RawOutcome(l, cookie, path, o)
    case ByID(rest) => R.ByIDOutcome(l, rest, o)
  }

  function SignInAnswer(l: Loaded, to: string): Outcome {
    var rd := ReadSession(l);
    Outcome(if rd.origo != NoToken then Redirect(302, to) else SignInPage(rd, 200, rd.fault), Start(l))
  }

  function NoticeAnswer(framed: bool): Outcome {
    Outcome(Plain(if framed then 200 else 400), if framed then [SL.Clear] else [])
  }

  function OverviewAnswer(w: W.World, now: nat, cache: map<string, V.Entry>, slug: Bytes, owner: Bytes,
                          ref: string): Outcome {
    if R.CloneAddress(slug) then Outcome(Redirect(301, NameURL(owner, slug[..|slug| - |R.CLONE|])), [])
    else R.OverviewOutcome(w.loaded, w.cookie, ref, now, cache, w.hasRegistry, w.registry(0), w.origo)
  }

  function ChangeAnswer(w: W.World, r: ChangeRoute): Outcome {
    match r
    case New(space) => A.NewRun(w, space).outcome
    case NewPost(csrf, named, id) => A.NewPostRun(w, csrf, named, id).outcome
    case Visibility => W.VisibilityRun(w).outcome
    case VisibilityPost(csrf, form) => W.VisibilityPostRun(w, csrf, form).outcome
    case Delete => W.DeleteRun(w).outcome
    case DeletePost(csrf, form) => W.DeletePostRun(w, csrf, form).outcome
    case Keys => A.KeysRun(w, "").outcome
    case KeysPost(csrf, key, confirmed) => A.KeysPostRun(w, csrf, key, confirmed).outcome
    case KeyRemove(keyID) => A.KeysRun(w, keyID).outcome
    case KeyRemovePost(csrf, keyID) => A.KeyRemovePostRun(w, csrf, keyID).outcome
  }

  /** Every route, for every session, cookie, form and sequence of answers: each call
      carries the token of its service and no other; the session is cleared only right
      after a call whose own credential was refused; and a response that clears it
      without the reader having left answers a session that could not be loaded, or
      holds such a refusal. */
  method Serve(x: Exchange, r: Request)
    requires x.Idle()
    modifies x
    ensures x.response.Some?
    ensures x.Result() == AnswerOf(W.Found(x), x.now, old(x.cache), r)
    ensures forall e <- x.trace :: AtHome(x.reader, e)
    ensures forall i :: 0 <= i < |x.trace| ==> Explained(x.trace, i)
    ensures SL.Clear in x.cookies && !r.Leaves() ==>
      x.loaded.LoadFailed? || exists e :: e in x.trace && RefusedCredential(e)
  {
    hide TraceOk, Clearings, Reasons, ReadSession, AtHome, Explained, RefusedCredential, AnswerOf;
    Dispatch(x, r);
    if r.Leaves() {
      LeavingIsQuiet(x.trace);
    } else {
      TraceMeans(x.reader, x.loaded, x.trace);
      ClearingsMean(x.loaded, x.cookies, x.trace);
    }
  }

  method Dispatch(x: Exchange, r: Request)
    requires x.Idle()
    modifies x
    ensures x.response.Some?
    ensures !r.Leaves() ==> x.Valid()
    ensures r.Leaves() ==> x.trace == [] || x.trace == [SignedOut]
    ensures x.Result() == AnswerOf(W.Found(x), x.now, old(x.cache), r)
  {
    hide TraceOk, Asks, Clearings, Reasons, ReadSession, SignInPage, R.OverviewOutcome, R.CloneAddress, ChangeAnswer,
         R.HomeOutcome, R.TokensOutcome, R.TokensPostOutcome, ReadAnswer;
    match r
    case Home(authError, query) => R.HandleHome(x, authError, query);
    case SignIn(to) => A.HandleSignIn(x, to);
    case SignOut(csrf, to) => A.HandleSignOut(x, csrf, to);
    case LogoutNotify(destination) => A.LogoutNotify(x, destination);
    case Tokens(scoped) => R.HandleTokens(x, scoped);
    case TokensPost(csrf, scoped, formOk) => R.HandleTokensPost(x, csrf, scoped, formOk);
    case Overview(owner, slug, ref) => R.HandleOverview(x, owner, slug, ref);
    case Reads(read) => DispatchRead(x, read);
    case Changes(change) => DispatchChange(x, change);
  }

  /** The screens of one repository. */
  method DispatchRead(x: Exchange, r: ReadRoute)
    requires x.Idle()
    modifies x
    ensures x.response.Some? && x.Valid()
    ensures x.Result() == ReadAnswer(x.loaded, x.cookie, x.origo, r)
  {
    hide TraceOk, Asks, Clearings, Reasons, ReadSession, R.RefsOutcome, R.LogOutcome, R.CommitOutcome, R.PatchOutcome,
         R.CompareOutcome, R.TreeOutcome, R.BlobOutcome, R.RawOutcome, R.ByIDOutcome;
    match r
    case Refs => R.HandleRefs(x);
    case Log => R.HandleLog(x);
    case Commit => R.HandleCommit(x);
    case Patch => R.HandlePatch(x);
    case Compare(both) => R.HandleCompare(x, both);
    case Tree => R.HandleTree(x);
    case Blob(path) => R.HandleBlob(x, path);
    case Raw(path) => R.HandleRaw(x, path);
    case ByID(rest) => R.HandleByID(x, rest);
  }

  /** The screens that change something, and those that ask first. */
  method DispatchChange(x: Exchange, r: ChangeRoute)
    requires x.Idle()
    modifies x
    ensures x.response.Some? && x.Valid()
    ensures x.Result() == ChangeAnswer(W.Found(x), r)
  {
    hide TraceOk, Asks, Clearings, Reasons, ReadSession, A.NewRun, A.NewPostRun, W.VisibilityRun, W.VisibilityPostRun,
         W.DeleteRun, W.DeletePostRun, A.KeysRun, A.KeysPostRun, A.KeyRemovePostRun;
    match r
    case New(space) => A.HandleNew(x, space);
    case NewPost(csrf, named, id) => A.HandleNewPost(x, csrf, named, id);
    case Visibility => W.HandleVisibility(x);
    case VisibilityPost(csrf, form) => W.HandleVisibilityPost(x, csrf, form);
    case Delete => W.HandleDelete(x);
    case DeletePost(csrf, form) => W.HandleDeletePost(x, csrf, form);
    case Keys => A.HandleKeys(x, "");
    case KeysPost(csrf, key, confirmed) => A.HandleKeysPost(x, csrf, key, confirmed);
    case KeyRemove(keyID) => A.HandleKeys(x, keyID);
    case KeyRemovePost(csrf, keyID) => A.HandleKeyRemovePost(x, csrf, keyID);
  }

  lemma LeavingIsQuiet(trace: seq<Event>)
    requires trace == [] || trace == [SignedOut]
    ensures forall rd, e :: e in trace ==> AtHome(rd, e)
    ensures forall i :: 0 <= i < |trace| ==> Explained(trace, i)
  {
  }

  /** What the invariant of a trace means, event by event. */
  lemma TraceMeans(rd: Reader, l: Loaded, trace: seq<Event>)
    requires rd == ReadSession(l) && TraceOk(rd, trace)
    ensures forall e <- trace :: AtHome(rd, e)
    ensures forall i :: 0 <= i < |trace| ==> Explained(trace, i)
  {
    forall i | 0 <= i < |trace| ensures AtHome(rd, trace[i]) && Explained(trace, i) {
      TraceOkAt(rd, trace, i);
      hide TraceOk;
    }
  }

  lemma {:induction false} ClearedSomewhere(ops: seq<SL.Op>)
    requires SL.Clear in ops
    ensures Clearings(ops) > 0
    decreases |ops|
  {
    if !ops[|ops| - 1].Clear? {
      ClearedSomewhere(ops[..|ops| - 1]);
    }
  }

  lemma {:induction false} ReasonSomewhere(trace: seq<Event>) returns (i: nat)
    requires Reasons(trace) > 0
    ensures i < |trace| && trace[i].Cleared?
    decreases |trace|
  {
    i := |trace| - 1;
    if !trace[i].Cleared? {
      i := ReasonSomewhere(trace[..|trace| - 1]);
    }
  }

  lemma ClearingsMean(l: Loaded, ops: seq<SL.Op>, trace: seq<Event>)
    requires Clearings(ops) <= Reasons(trace) + if l.LoadFailed? then 1 else 0
    requires forall i :: 0 <= i < |trace| ==> Explained(trace, i)
    ensures SL.Clear in ops ==> l.LoadFailed? || exists e :: e in trace && RefusedCredential(e)
  {
    hide Clearings, Reasons, RefusedCredential;
    if SL.Clear in ops && !l.LoadFailed? {
      ClearedSomewhere(ops);
      var i := ReasonSomewhere(trace);
      assert Explained(trace, i) && trace[i - 1] in trace;
    }
  }

  // ---- every route has its own screen ----

  predicate OwnRead(r: ReadRoute, s: Screen) {
    match r
    case Refs => s.RefsScreen?
    case Log => s.LogScreen?
    case Commit => s.CommitScreen?
    case Patch => false
    case Compare(_) => s.CompareScreen?
    case Tree => s.TreeScreen?
    case Blob(_) => s.BlobScreen?
    case Raw(_) => s.RawTooLargeScreen?
    case ByID(_) => false
  }

  predicate OwnChange(r: ChangeRoute, s: Screen) {
    match r
    case New(_) => s.NewScreen?
    case NewPost(_, _, _) => false
    case Visibility => s.VisibilityScreen?
    case VisibilityPost(_, _) => false
    case Delete => s.DeleteScreen?
    case DeletePost(_, _) => false
    case Keys => s.KeysScreen? && s.removing == None
    case KeysPost(_, _, _) => s.KeysScreen? && s.confirm.Some?
    case KeyRemove(id) => s.KeysScreen? && s.removing == if id == "" then None else Some(id)
    case KeyRemovePost(_, _) => false
  }

  predicate Own(r: Request, s: Screen) {
    match r
    case Home(_, _) => s.HomeScreen?
    case SignIn(_) => false
    case SignOut(_, _) => false
    case LogoutNotify(_) => false
    case Tokens(_) => s.TokensScreen?
    case TokensPost(_, _, _) => s.TokenScreen?
    case Overview(_, _, _) => s.OverviewScreen?
    case Reads(read) => OwnRead(read, s)
    case Changes(change) => OwnChange(change, s)
  }

  /** A page that answers 200 is the route's own screen, or asks the reader to sign in. */
  predicate WellAnswered(own: Screen -> bool, response: Response) {
    response.Page? && response.status == 200 ==> own(response.screen) || response.screen.SignInScreen?
  }

  lemma OwnScreens(w: W.World, now: nat, cache: map<string, V.Entry>, r: Request)
    ensures WellAnswered(s => Own(r, s), AnswerOf(w, now, cache, r).response)
  {
    var l, cookie, o := w.loaded, w.cookie, w.origo;
    hide R.HomeOutcome, R.TokensOutcome, R.TokensPostOutcome, ReadAnswer, ChangeAnswer, R.OverviewOutcome,
         RL.DirectoryShown, RL.TokensDrawn, RL.MintFails;
    match r
    case Home(authError, query) => RL.HomeScreenMeans(l, cookie, authError, query, o);
    case SignIn(to) =>
    case SignOut(csrf, to) =>
    case LogoutNotify(destination) =>
    case Tokens(scoped) => TokensOwn(l, cookie, scoped, o);
    case TokensPost(csrf, scoped, formOk) => MintOwn(l, cookie, csrf, scoped, formOk, o);
    case Overview(owner, slug, ref) => OverviewOwn(w, now, cache, ref);
    case Reads(read) => ReadOwn(l, cookie, o, read);
    case Changes(change) => ChangeOwn(w, change);
  }

  lemma TokensOwn(l: Loaded, cookie: string, scoped: string, o: R.Answers)
    ensures WellAnswered((s: Screen) => s.TokensScreen?, R.TokensOutcome(l, cookie, scoped, o).response)
  {
    RL.TokensScreenMeans(l, cookie, scoped, o);
    hide R.TokensOutcome;
  }

  lemma MintOwn(l: Loaded, cookie: string, csrf: bool, scoped: string, formOk: bool, o: R.Answers)
    ensures WellAnswered((s: Screen) => s.TokenScreen?,
                         R.TokensPostOutcome(l, cookie, csrf, scoped, formOk, o).response)
  {
    RL.TokensPostMeans(l, cookie, csrf, scoped, formOk, o);
    hide R.TokensPostOutcome;
  }

  lemma OverviewOwn(w: W.World, now: nat, cache: map<string, V.Entry>, ref: string)
    ensures WellAnswered((s: Screen) => s.OverviewScreen?,
      R.OverviewOutcome(w.loaded, w.cookie, ref, now, cache, w.hasRegistry, w.registry(0), w.origo).response)
  {
    RL.OverviewScreenMeans(w.loaded, w.cookie, ref, now, cache, w.hasRegistry, w.registry(0), w.origo);
    hide R.OverviewOutcome, RL.OverviewCalls, RL.Decided, RL.Reached, RL.Opened;
  }

  lemma ReadOwn(l: Loaded, cookie: string, o: R.Answers, r: ReadRoute)
    ensures WellAnswered(s => OwnRead(r, s), ReadAnswer(l, cookie, o, r).response)
  {
    hide R.RefsOutcome, R.LogOutcome, R.CommitOutcome, R.PatchOutcome, R.CompareOutcome, R.TreeOutcome, R.BlobOutcome,
         R.RawOutcome, R.ByIDOutcome, RL.Decided, RL.Reached, RL.Opened, RL.Unfound, RL.FailsAs, RL.InOrder, RL.Names;
    match r
    case Refs => RL.RefsScreenMeans(l, cookie, o);
    case Log => RL.LogScreenMeans(l, cookie, o);
    case Commit => RL.CommitScreenMeans(l, cookie, o);
    case Patch => RL.PatchScreenMeans(l, cookie, o);
    case Compare(both) => RL.CompareScreenMeans(l, cookie, both, o);
    case Tree => TreeOwn(l, cookie, o);
    case Blob(path) => BlobOwn(l, cookie, path, o);
    case Raw(path) => RawOwn(l, cookie, path, o);
    case ByID(rest) => RL.ByIDMeans(l, rest, o);
  }

  lemma TreeOwn(l: Loaded, cookie: string, o: R.Answers)
    ensures WellAnswered((s: Screen) => s.TreeScreen?, R.TreeOutcome(l, cookie, o).response)
  {
    if Ok(o(0), ARepo) { RL.TreeScreenMeans(l, cookie, o); } else { RL.TreeNeedsRepo(l, cookie, o); }
    hide R.TreeOutcome, RL.Decided, RL.Reached, RL.Opened, RL.FailsAs;
  }

  lemma BlobOwn(l: Loaded, cookie: string, path: string, o: R.Answers)
    ensures WellAnswered((s: Screen) => s.BlobScreen?, R.BlobOutcome(l, cookie, path, o).response)
  {
    RL.BlobScreenMeans(l, cookie, path, o);
    hide R.BlobOutcome, RL.Opened, RL.FailsAs, RL.Names;
  }

  lemma RawOwn(l: Loaded, cookie: string, path: string, o: R.Answers)
    ensures WellAnswered((s: Screen) => s.RawTooLargeScreen?, R.RawOutcome(l, cookie, path, o).response)
  {
    RL.RawScreenMeans(l, cookie, path, o);
    hide R.RawOutcome, RL.Opened, RL.FailsAs, RL.Names;
  }

  lemma ChangeOwn(w: W.World, r: ChangeRoute)
    ensures WellAnswered(s => OwnChange(r, s), ChangeAnswer(w, r).response)
  {
    hide A.NewRun, A.NewPostRun, W.VisibilityRun, W.VisibilityPostRun, W.DeleteRun, W.DeletePostRun, A.KeysRun,
         A.KeysPostRun, A.KeyRemovePostRun;
    match r
    case New(space) => NewOwn(w, space, true, None, "");
    case NewPost(csrf, named, id) => NewOwn(w, "", csrf, named, id);
    case Visibility => RepositoryOwn(w, true, None);
    case VisibilityPost(csrf, form) => RepositoryOwn(w, csrf, form);
    case Delete => RepositoryOwn(w, true, None);
    case DeletePost(csrf, form) => RepositoryOwn(w, csrf, form);
    case Keys => KeysOwn(w, "");
    case KeysPost(csrf, key, confirmed) => KeyWritesOwn(w, csrf, key, confirmed, "");
    case KeyRemove(keyID) => KeysOwn(w, keyID);
    case KeyRemovePost(csrf, keyID) => KeyWritesOwn(w, csrf, "", true, keyID);
  }

  lemma NewOwn(w: W.World, space: string, csrf: bool, named: Option<(string, string)>, id: Bytes)
    ensures WellAnswered((s: Screen) => s.NewScreen?, A.NewRun(w, space).outcome.response)
    ensures WellAnswered(s => false, A.NewPostRun(w, csrf, named, id).outcome.response)
  {
    AL.NewMeans(w, space);
    AL.NewPostMeans(w, csrf, named, id);
    hide A.NewRun, A.NewPostRun, RL.Opened, RL.Before, A.NameFits, TrimSpace, NameURL;
  }

  lemma RepositoryOwn(w: W.World, csrf: bool, form: Option<string>)
    ensures WellAnswered((s: Screen) => s.VisibilityScreen?, W.VisibilityRun(w).outcome.response)
    ensures WellAnswered(s => false, W.VisibilityPostRun(w, csrf, form).outcome.response)
    ensures WellAnswered((s: Screen) => s.DeleteScreen?, W.DeleteRun(w).outcome.response)
    ensures WellAnswered(s => false, W.DeletePostRun(w, csrf, form).outcome.response)
  {
    KeptOutIsNoScreen(w);
    WL.ScreensMean(w);
    ChangeIsNoScreen(w, csrf, form);
    DeletionIsNoScreen(w, csrf, form);
    hide W.VisibilityRun, W.VisibilityPostRun, W.DeleteRun, W.DeletePostRun, RL.Opened, WL.KeptOut, WL.MayChange;
  }

  lemma KeptOutIsNoScreen(w: W.World)
    ensures forall out :: WL.KeptOut(w, out) ==> WellAnswered(s => false, out.response)
  {
    hide RL.Opened, RL.Before;
  }

  lemma ChangeIsNoScreen(w: W.World, csrf: bool, form: Option<string>)
    ensures WellAnswered(s => false, W.VisibilityPostRun(w, csrf, form).outcome.response)
  {
    WL.ChangeMeans(w, csrf, form);
    hide W.VisibilityPostRun, RL.Opened, RL.Before, NameURL;
  }

  lemma DeletionIsNoScreen(w: W.World, csrf: bool, form: Option<string>)
    ensures WellAnswered(s => false, W.DeletePostRun(w, csrf, form).outcome.response)
  {
    KeptOutIsNoScreen(w);
    WL.DeletionMeans(w, csrf, form);
    hide W.DeletePostRun, RL.Opened, TrimSpace, WL.KeptOut, WL.MayChange;
  }

  lemma KeysOwn(w: W.World, id: string)
    ensures WellAnswered((s: Screen) => s.KeysScreen? && s.removing == (if id == "" then None else Some(id)),
                         A.KeysRun(w, id).outcome.response)
  {
    AL.KeysMean(w, id);
    hide A.KeysRun, RL.Before;
  }

  lemma KeyWritesOwn(w: W.World, csrf: bool, key: string, confirmed: bool, id: string)
    ensures WellAnswered((s: Screen) => s.KeysScreen? && s.confirm.Some?,
                         A.KeysPostRun(w, csrf, key, confirmed).outcome.response)
    ensures WellAnswered(s => false, A.KeyRemovePostRun(w, csrf, id).outcome.response)
  {
    AL.KeysPostMeans(w, csrf, key, confirmed);
    AL.KeyRemovePostMeans(w, csrf, id);
    hide A.KeysPostRun, A.KeyRemovePostRun, RL.Before, TrimSpace;
  }
}
