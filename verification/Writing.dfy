/** The two screens that change a repository: its visibility, and its deletion. Each
    is proved against what it answers and what it asks the registry, in order. */
module Writing {
  import opened Wrappers
  import opened Text
  import opened Url
  import opened Protocol
  import R = Reading
  import S = Session
  import SL = SessionLaws
  import V = Visibility

  const ORIGO_REFUSED := "origo_refused"
  const REGISTERED := "repository_registered"
  const ORIGO_UNAVAILABLE := "origo_unavailable"

  /** What a request finds: the session, the list cookie, and every answer. */
  datatype World = World(loaded: Loaded, cookie: string, hasRegistry: bool,
                         origo: nat -> Answer, registry: nat -> PlatformAnswer, keys: nat -> PlatformAnswer)
  {
    function Reads(): Reader { ReadSession(loaded) }

    function Answers(op: RegistryOp, n: nat): RegistryResult {
      if hasRegistry then RegistryResultOf(op, registry(n)) else NoRegistry
    }

    /** An installation with no registry is asked nothing. */
    function Asking(op: RegistryOp): seq<Ask> {
      if hasRegistry then [OfRegistry(op)] else []
    }

    function Shows(status: nat, screen: Screen, cookies: seq<SL.Op>): Outcome {
      Outcome(Page(status, Reads().token != NoToken, screen), cookies)
    }
  }

  /** What a request leaves: its answer, and what it asked of the platform. */
  datatype Run = Run(outcome: Outcome, asks: seq<Ask>)

  ghost function Found(x: Exchange): World {
    World(x.loaded, x.cookie, x.hasRegistry, x.origo, x.registry, x.keys)
  }

  ghost function Left(x: Exchange): Run
    reads x
  {
    Run(x.Result(), Asks(x.trace))
  }

  predicate Succeeded(r: RegistryResult) {
    r.Answered? && r.answer.Good?
  }

  predicate Readable(r: RegistryResult) {
    Succeeded(r) && r.answer.body.VisibilityBody?
  }

  predicate IsDenied(r: RegistryResult) {
    r.Answered? && Denied(r.answer)
  }

  function SignedOutBy(w: World, ck: seq<SL.Op>): Outcome {
    Outcome(SignInPage(w.Reads(), 401, w.Reads().fault), ck + [SL.Clear])
  }

  const EXPIRED := Run(Outcome(Plain(403), []), [])

  // ---- who may change a repository ----

  /** A refusal of the registry: the credential ends the session, and an absence,
      a refusal and a missing registry are one answer. */
  function VisibilityFailure(w: World, ck: seq<SL.Op>, r: RegistryResult): Outcome {
    if IsDenied(r) then SignedOutBy(w, ck)
    else if r.NoRegistry? || NotThere(r.answer) || Withheld(r.answer) then w.Shows(404, NotFoundScreen, ck)
    else w.Shows(502, UnavailableScreen, ck)
  }

  datatype Gate = Halted(run: Run) | Admitted(repo: Repo, cookies: seq<SL.Op>, current: V.Answer)

  function Admission(w: World, repo: Repo, ck: seq<SL.Op>): Gate {
    if w.Reads().platform == NoToken then Halted(Run(Outcome(NoPlatform(w.Reads()), ck), []))
    else
      var r := w.Answers(ReadVisibility(repo.id), 0);
      if !Readable(r) then Halted(Run(VisibilityFailure(w, ck, r), w.Asking(ReadVisibility(repo.id))))
      else if !r.answer.body.answer.canChange
      then Halted(Run(w.Shows(404, NotFoundScreen, ck), w.Asking(ReadVisibility(repo.id))))
      else Admitted(repo, ck, r.answer.body.answer)
  }

  /** Whether this reader administers the repository the address names. */
  function Administration(w: World): Gate {
    match R.Open(w.loaded, w.cookie, w.origo)
    case Stopped(out) => Halted(Run(out, []))
    case At(repo, ck) => Admission(w, repo, ck)
  }

  // ---- visibility ----

  function VisibilityRun(w: World): Run {
    match Administration(w)
    case Halted(run) => run
    case Admitted(repo, ck, v) =>
      Run(w.Shows(200, VisibilityScreen(repo, v.IsPublic(), NoSentence), ck), [OfRegistry(ReadVisibility(repo.id))])
  }

  predicate Target(form: Option<string>) {
    form == Some(V.PUBLIC) || form == Some(V.PRIVATE)
  }

  /** What the form does once the repository is known. */
  function Choice(w: World, repo: Repo, ck: seq<SL.Op>, form: Option<string>): Run {
    if w.Reads().platform == NoToken then Run(Outcome(NoPlatform(w.Reads()), ck), [])
    else if !Target(form) then Run(w.Shows(400, VisibilityScreen(repo, false, BadVisibility), ck), [])
    else
      var r := w.Answers(SetVisibility(repo.id, form.value), 0);
      Run(if Succeeded(r) then Outcome(Redirect(303, repo.Address()), ck) else VisibilityFailure(w, ck, r),
          w.Asking(SetVisibility(repo.id, form.value)))
  }

  predicate Flips(w: World, repo: Repo, form: Option<string>) {
    w.Reads().platform != NoToken && Target(form) && Succeeded(w.Answers(SetVisibility(repo.id, form.value), 0))
  }

  function VisibilityPostRun(w: World, csrf: bool, form: Option<string>): Run {
    if !csrf then EXPIRED
    else
      match R.Open(w.loaded, w.cookie, w.origo)
      case Stopped(out) => Run(out, [])
      case At(repo, ck) => Choice(w, repo, ck, form)
  }

  /** The change this request makes, when it makes one. */
  function Flip(w: World, csrf: bool, form: Option<string>): Option<(Repo, string)> {
    match R.Open(w.loaded, w.cookie, w.origo)
    case Stopped(_) => None
    case At(repo, _) => if csrf && Flips(w, repo, form) then Some((repo, form.value)) else None
  }

  /** Written through on success, and left alone otherwise. */
  function FlippedCache(w: World, now: nat, cache: map<string, V.Entry>,
                        flip: Option<(Repo, string)>): map<string, V.Entry> {
    if flip.None? then cache
    else V.Stored(cache, now, w.Reads().sub, flip.value.0.id, V.Answer(flip.value.1, true))
  }

  // ---- deletion ----

  /** The repository a confirmed deletion is about: the form is this session's, the
      reader administers it, and its name is typed back. */
  function Confirmed(w: World, csrf: bool, form: Option<string>): Option<Repo> {
    match Administration(w)
    case Halted(_) => None
    case Admitted(repo, _, _) =>
      if csrf && Retyped(repo, form) then Some(repo) else None
  }

  /** What the registry answered the deletion. */
  function Removal(w: World, repo: Repo): RegistryResult {
    w.Answers(Remove(repo.id), 1)
  }

  function DeleteRefusal(w: World, repo: Repo, typed: string, ck: seq<SL.Op>, r: RegistryResult): Outcome {
    var code := if r.Answered? then CodeOf(r.answer) else "";
    if code == ORIGO_REFUSED then w.Shows(409, DeleteScreen(repo, typed, DeletionRefused), ck)
    else if code == REGISTERED then w.Shows(409, DeleteScreen(repo, typed, DeletionManaged), ck)
    else if code == ORIGO_UNAVAILABLE then w.Shows(409, DeleteScreen(repo, typed, NoDeletion), ck)
    else if r.Answered? && Conflicts(r.answer) then w.Shows(409, DeleteScreen(repo, typed, DeletionBusy), ck)
    else VisibilityFailure(w, ck, r)
  }

  function Deletion(w: World, repo: Repo, ck: seq<SL.Op>, typed: string): Run {
    var r := Removal(w, repo);
    Run(if Succeeded(r)
        then Outcome(Redirect(303, "/?deleted=" + Escape(repo.Name(), Query)),
                     ck + [SL.Write(S.Others(S.RecentOf(w.cookie), repo.id))])
        else DeleteRefusal(w, repo, typed, ck, r),
        [OfRegistry(ReadVisibility(repo.id)), OfRegistry(Remove(repo.id))])
  }

  function DeleteRun(w: World): Run {
    match Administration(w)
    case Halted(run) => run
    case Admitted(repo, ck, _) =>
      Run(w.Shows(200, DeleteScreen(repo, "", NoSentence), ck), [OfRegistry(ReadVisibility(repo.id))])
  }

  function DeletePostRun(w: World, csrf: bool, form: Option<string>): Run {
    if !csrf then EXPIRED
    else
      match Administration(w)
      case Halted(run) => run
      case Admitted(repo, ck, _) => Submission(w, repo, ck, form)
  }

  predicate Retyped(repo: Repo, form: Option<string>) {
    form.Some? && TrimSpace(form.value) == repo.Name()
  }

  /** The form of a reader who administers the repository. */
  function Submission(w: World, repo: Repo, ck: seq<SL.Op>, form: Option<string>): Run {
    var typed := if form.None? then "" else TrimSpace(form.value);
    if !Retyped(repo, form)
    then Run(w.Shows(400, DeleteScreen(repo, typed, Mistyped), ck), [OfRegistry(ReadVisibility(repo.id))])
    else Deletion(w, repo, ck, typed)
  }

  function DeletedCache(w: World, cache: map<string, V.Entry>, repo: Option<Repo>): map<string, V.Entry> {
    if repo.Some? && Succeeded(Removal(w, repo.value)) then V.Dropped(cache, w.Reads().sub, repo.value.id) else cache
  }

  // ---- the screens as the source writes them ----

  method VisibilityFailed(x: Exchange, r: RegistryResult)
    requires x.Valid() && x.reader.platform != NoToken && !Succeeded(r)
    requires IsDenied(r) ==> x.trace != [] && RefusedCredential(x.trace[|x.trace| - 1])
    modifies x`trace, x`cookies, x`response
    ensures x.Valid() && x.response.Some?
    ensures Left(x) == Run(VisibilityFailure(Found(x), old(x.cookies), r), old(Asks(x.trace)))
  {
    hide TraceOk, Asks, Clearings, Reasons, ReadSession;
    if IsDenied(r) {
      x.Clear();
      x.SignIn(401, x.reader.fault);
    } else if r.NoRegistry? || NotThere(r.answer) || Withheld(r.answer) {
      x.Render(404, NotFoundScreen);
    } else {
      x.Render(502, UnavailableScreen);
    }
  }

  /** Asks the registry, and answers the request when the reader may not go on. */
  method Administers(x: Exchange, repo: Repo) returns (current: Option<V.Answer>)
    requires x.Valid() && x.response == None && Asks(x.trace) == [] && x.registryAsked == 0
    modifies x`trace, x`registryAsked, x`cookies, x`response
    ensures x.Valid()
    ensures match Admission(Found(x), repo, old(x.cookies)) {
      case Halted(run) => current == None && x.response.Some? && Left(x) == run
      case Admitted(allowed, ck, v) =>
        allowed == repo && ck == old(x.cookies) && current == Some(v) && x.response == None &&
            x.reader.platform != NoToken && x.registryAsked == 1 &&
        x.hasRegistry && x.cookies == old(x.cookies) && Asks(x.trace) == [OfRegistry(ReadVisibility(repo.id))]
    }
  {
    hide TraceOk, Asks, Clearings, Reasons, ReadSession, VisibilityFailure;
    current := None;
    var ok := x.RequirePlatform();
    if !ok {
      return;
    }
    var r := x.CallRegistry(x.reader.platform, ReadVisibility(repo.id));
    if !Succeeded(r) {
      VisibilityFailed(x, r);
      return;
    }
    if !r.answer.body.answer.canChange {
      x.Render(404, NotFoundScreen);
      return;
    }
    current := Some(r.answer.body.answer);
  }

  /** Resolves the repository, then asks whether the reader administers it. */
  method OpenAdministered(x: Exchange) returns (repo: Option<Repo>, current: Option<V.Answer>)
    requires x.Idle()
    modifies x`trace, x`cookies, x`asked, x`registryAsked, x`response
    ensures x.Valid()
    ensures match Administration(Found(x)) {
      case Halted(run) => current == None && x.response.Some? && Left(x) == run
      case Admitted(r, ck, v) =>
        repo == Some(r) && current == Some(v) && x.response == None && x.reader.platform != NoToken && x.hasRegistry &&
        x.registryAsked == 1 && x.cookies == ck && Asks(x.trace) == [OfRegistry(ReadVisibility(r.id))]
    }
  {
    hide TraceOk, Asks, Clearings, Reasons, ReadSession, Admission, Failed, RememberOps, Start, Classify;
    x.Begin();
    current := None;
    repo := x.OpenRepo();
    if repo.None? {
      return;
    }
    current := Administers(x, repo.value);
  }

  method HandleVisibility(x: Exchange)
    requires x.Idle()
    modifies x
    ensures x.Valid() && x.response.Some? && x.cache == old(x.cache)
    ensures Left(x) == VisibilityRun(Found(x))
  {
    hide TraceOk, Asks, Clearings, Reasons, ReadSession, Administration;
    var repo, current := OpenAdministered(x);
    if current.None? {
      return;
    }
    x.Render(200, VisibilityScreen(repo.value, current.value.IsPublic(), NoSentence));
  }

  /** `form` is the choice sent, when the form could be read. */
  method HandleVisibilityPost(x: Exchange, csrf: bool, form: Option<string>)
    requires x.Idle()
    modifies x
    ensures x.Valid() && x.response.Some?
    ensures Left(x) == VisibilityPostRun(Found(x), csrf, form)
    ensures x.cache == FlippedCache(Found(x), x.now, old(x.cache), Flip(Found(x), csrf, form))
  {
    assert Asks([]) == [];
    hide TraceOk, Asks, Clearings, Reasons, ReadSession, Choice, Flips, V.Stored, R.Open;
    if !csrf {
      x.response := Some(Plain(403));
      return;
    }
    hide VisibilityPostRun, FlippedCache, Flip;
    ChangeVisibility(x, form);
  }

  method ChangeVisibility(x: Exchange, form: Option<string>)
    requires x.Idle()
    modifies x
    ensures x.Valid() && x.response.Some?
    ensures Left(x) == VisibilityPostRun(Found(x), true, form)
    ensures x.cache == FlippedCache(Found(x), x.now, old(x.cache), Flip(Found(x), true, form))
  {
    hide TraceOk, Asks, Clearings, Reasons, ReadSession, Failed, RememberOps, Start, Classify, Choice, Flips, V.Stored;
    x.Begin();
    var repo := x.OpenRepo();
    if repo.None? {
      return;
    }
    ApplyChoice(x, repo.value, form);
  }

  method ApplyChoice(x: Exchange, repo: Repo, form: Option<string>)
    requires x.Valid() && x.response == None && Asks(x.trace) == [] && x.registryAsked == 0
    modifies x`trace, x`registryAsked, x`cookies, x`response, x`cache
    ensures x.Valid() && x.response.Some?
    ensures Left(x) == Choice(Found(x), repo, old(x.cookies), form)
    ensures x.cache == FlippedCache(Found(x), x.now, old(x.cache), if Flips(Found(x), repo, form) then Some((repo,
            form.value)) else None)
  {
    hide TraceOk, Asks, Clearings, Reasons, ReadSession, VisibilityFailure, RegistryResultOf, V.Stored;
    var ok := x.RequirePlatform();
    if !ok {
      return;
    }
    if form.None? {
      x.Render(400, VisibilityScreen(repo, false, BadVisibility));
      return;
    }
    if form.value != V.PUBLIC && form.value != V.PRIVATE {
      x.Render(400, VisibilityScreen(repo, form.value == V.PRIVATE, BadVisibility));
      return;
    }
    SetAndReturn(x, repo, form.value);
  }

  method SetAndReturn(x: Exchange, repo: Repo, target: string)
    requires x.Valid() && x.response == None && Asks(x.trace) == [] && x.registryAsked == 0 &&
             x.reader.platform != NoToken
    modifies x`trace, x`registryAsked, x`cookies, x`response, x`cache
    ensures x.Valid() && x.response.Some?
    ensures var r := Found(x).Answers(SetVisibility(repo.id, target), 0);
      Left(x) == Run(if Succeeded(r) then Outcome(Redirect(303, repo.Address()), old(x.cookies))
                     else VisibilityFailure(Found(x), old(x.cookies), r), Found(x).Asking(SetVisibility(repo.id,
                         target))) &&
      x.cache == if Succeeded(r) then V.Stored(old(x.cache), x.now, x.reader.sub, repo.id, V.Answer(target,
          true)) else old(x.cache)
  {
    hide TraceOk, Asks, Clearings, Reasons, ReadSession, VisibilityFailure;
    var r := x.CallRegistry(x.reader.platform, SetVisibility(repo.id, target));
    if !Succeeded(r) {
      VisibilityFailed(x, r);
      return;
    }
    var key := V.Key(x.reader.sub, repo.id);
    if key.Some? {
      x.cache := x.cache[key.value := V.Entry(V.Answer(target, true), x.now)];
    }
    x.response := Some(Redirect(303, repo.Address()));
  }

  method HandleDelete(x: Exchange)
    requires x.Idle()
    modifies x
    ensures x.Valid() && x.response.Some? && x.cache == old(x.cache)
    ensures Left(x) == DeleteRun(Found(x))
  {
    hide TraceOk, Asks, Clearings, Reasons, ReadSession, Administration;
    var repo, current := OpenAdministered(x);
    if current.None? {
      return;
    }
    x.Render(200, DeleteScreen(repo.value, "", NoSentence));
  }

  /** `form` is the name typed back, when the form could be read. */
  method HandleDeletePost(x: Exchange, csrf: bool, form: Option<string>)
    requires x.Idle()
    modifies x
    ensures x.Valid() && x.response.Some?
    ensures Left(x) == DeletePostRun(Found(x), csrf, form)
    ensures x.cache == DeletedCache(Found(x), old(x.cache), Confirmed(Found(x), csrf, form))
  {
    assert Asks([]) == [];
    hide TraceOk, Clearings, Reasons, ReadSession, Administration, Deletion, TrimSpace, Asks;
    if !csrf {
      x.response := Some(Plain(403));
      return;
    }
    var repo, current := OpenAdministered(x);
    if current.None? {
      return;
    }
    hide *;
    CheckAndDelete(x, repo.value, form);
  }

  method CheckAndDelete(x: Exchange, repo: Repo, form: Option<string>)
    requires x.Valid() && x.response == None && x.reader.platform != NoToken && x.registryAsked == 1 && x.hasRegistry
    requires Asks(x.trace) == [OfRegistry(ReadVisibility(repo.id))]
    modifies x`trace, x`registryAsked, x`cookies, x`response, x`cache
    ensures x.Valid() && x.response.Some?
    ensures Left(x) == Submission(Found(x), repo, old(x.cookies), form)
    ensures x.cache ==
            DeletedCache(Found(x), old(x.cache), if Retyped(repo, form) then Some(repo) else None)
  {
    hide TraceOk, Clearings, Reasons, ReadSession, Deletion, TrimSpace, Asks;
    if form.None? {
      x.Render(400, DeleteScreen(repo, "", Mistyped));
      return;
    }
    var typed := TrimSpace(form.value);
    if typed != repo.Name() {
      x.Render(400, DeleteScreen(repo, typed, Mistyped));
      return;
    }
    DeleteConfirmed(x, repo, typed);
  }

  /** The one call that deletes, and what follows it. */
  method DeleteConfirmed(x: Exchange, repo: Repo, typed: string)
    requires x.Valid() && x.response == None && x.reader.platform != NoToken && x.registryAsked == 1 && x.hasRegistry
    requires Asks(x.trace) == [OfRegistry(ReadVisibility(repo.id))]
    modifies x`trace, x`registryAsked, x`cookies, x`response, x`cache
    ensures x.Valid() && x.response.Some?
    ensures Left(x) == Deletion(Found(x), repo, old(x.cookies), typed)
    ensures x.cache == DeletedCache(Found(x), old(x.cache), Some(repo))
  {
    hide TraceOk, Asks, Clearings, Reasons, ReadSession, DeleteRefusal, S.RecentOf, S.Others;
    var r := x.CallRegistry(x.reader.platform, Remove(repo.id));
    if !Succeeded(r) {
      DeleteRefused(x, repo, typed, r);
      return;
    }
    x.Forget(repo.id);
    var key := V.Key(x.reader.sub, repo.id);
    if key.Some? {
      x.cache := x.cache - {key.value};
    }
    x.response := Some(Redirect(303, "/?deleted=" + Escape(repo.Name(), Query)));
  }

  method DeleteRefused(x: Exchange, repo: Repo, typed: string, r: RegistryResult)
    requires x.Valid() && x.reader.platform != NoToken && !Succeeded(r)
    requires IsDenied(r) ==> x.trace != [] && RefusedCredential(x.trace[|x.trace| - 1])
    modifies x`trace, x`cookies, x`response
    ensures x.Valid() && x.response.Some?
    ensures Left(x) == Run(DeleteRefusal(Found(x), repo, typed, old(x.cookies), r), old(Asks(x.trace)))
  {
    hide TraceOk, Asks, Clearings, Reasons, ReadSession, VisibilityFailure;
    var code := if r.Answered? then CodeOf(r.answer) else "";
    if code == ORIGO_REFUSED {
      x.Render(409, DeleteScreen(repo, typed, DeletionRefused));
    } else if code == REGISTERED {
      x.Render(409, DeleteScreen(repo, typed, DeletionManaged));
    } else if code == ORIGO_UNAVAILABLE {
      x.Render(409, DeleteScreen(repo, typed, NoDeletion));
    } else if r.Answered? && Conflicts(r.answer) {
      x.Render(409, DeleteScreen(repo, typed, DeletionBusy));
    } else {
      VisibilityFailed(x, r);
    }
  }
}
