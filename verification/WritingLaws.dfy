/** What the writing screens promise together: a guarded deletion, a change that is
    seen at once, and one answer for everything withheld. */
module WritingLaws {
  import opened Wrappers
  import opened Text
  import opened Url
  import opened Protocol
  import opened Writing
  import R = Reading
  import RL = ReadingLaws
  import S = Session
  import SL = SessionLaws
  import B = Browser
  import C = Cookies
  import Sq = Sequences
  import V = Visibility

  // ---- deletion ----

  /** What has to be so before the registry is asked to delete: this session's own
      form, a repository that resolves, a platform token, a registry that says the
      reader may change it, and its name typed back. */
  predicate MayDelete(w: World, csrf: bool, form: Option<string>, repo: Repo) {
    var first := w.registry(0);
    csrf && Ok(w.origo(0), ARepo) && w.origo(0).payload.repo == repo
    && w.loaded.Live? && w.loaded.platformMinted && w.hasRegistry
    && first.Good? && first.body.VisibilityBody? && first.body.answer.canChange
    && form.Some? && TrimSpace(form.value) == repo.Name()
  }

  lemma ConfirmedExactly(w: World, csrf: bool, form: Option<string>)
    ensures forall repo: Repo :: MayDelete(w, csrf, form, repo) <==> Confirmed(w, csrf, form) == Some(repo)
  {
    hide TrimSpace, RememberOps, Start, Failed, VisibilityFailure;
  }

  /** The deletion is asked for exactly when it may be, last, once, of the repository
      the first question was about. */
  lemma RemovalIsGuarded(w: World, csrf: bool, form: Option<string>, id: Bytes)
    ensures var asks := DeletePostRun(w, csrf, form).asks;
      (OfRegistry(Remove(id)) in asks <==> exists repo: Repo :: repo.id == id && MayDelete(w, csrf, form, repo)) &&
      (OfRegistry(Remove(id)) in asks ==> asks == [OfRegistry(ReadVisibility(id)), OfRegistry(Remove(id))])
  {
    ConfirmedExactly(w, csrf, form);
    AdmissionAsks(w);
    hide MayDelete, TrimSpace, Administration, DeleteRefusal;
  }

  lemma AdmissionAsks(w: World)
    ensures match Administration(w) {
      case Halted(run) => forall id :: OfRegistry(Remove(id)) !in run.asks
      case Admitted(_, _, _) => true
    }
  {
    hide RememberOps, Start, Failed, VisibilityFailure;
  }

  /** The answer redirects exactly when a permitted deletion succeeded. */
  lemma RedirectsIffDeleted(w: World, csrf: bool, form: Option<string>)
    ensures DeletePostRun(w, csrf, form).outcome.response.Redirect? <==>
            Accepted(w.registry(1)) && exists repo: Repo :: MayDelete(w, csrf, form, repo)
  {
    ConfirmedExactly(w, csrf, form);
    AdmissionAnswers(w);
    hide MayDelete, TrimSpace, Administration, Escape, S.Others, S.RecentOf;
    if Confirmed(w, csrf, form).Some? {
      NoRedirect(w, Confirmed(w, csrf, form).value, w.Answers(Remove(Confirmed(w, csrf, form).value.id), 1));
    }
    hide DeleteRefusal;
  }

  lemma NoRedirect(w: World, repo: Repo, r: RegistryResult)
    ensures forall typed, ck :: !DeleteRefusal(w, repo, typed, ck, r).response.Redirect?
  {
  }

  lemma AdmissionAnswers(w: World)
    ensures match Administration(w) {
      case Halted(run) => !run.outcome.response.Redirect?
      case Admitted(_, _, _) => w.hasRegistry
    }
  {
    hide RememberOps, Start;
  }

  /** After a deletion the response carries one list cookie, and the browser keeps the
      list it had without the repository, every other entry in its place; and the cache
      holds nothing about the repository for this account. */
  lemma DeletedIsForgotten(w: World, csrf: bool, form: Option<string>, repo: Repo, names: S.Names, lines: seq<string>,
                           cache: map<string, V.Entry>, later: nat)
    requires MayDelete(w, csrf, form, repo) && Accepted(w.registry(1))
    requires S.Only(lines, names.Recent() + "=") == []
    ensures var ops := DeletePostRun(w, csrf, form).outcome.cookies;
      var list := S.RecentOf(C.Jar(names.Recent(), w.cookie, SL.AfterAll(names, lines, ops)));
      |S.Only(SL.AfterAll(names, lines, ops), names.Recent() + "=")| == 1 &&
      Sq.Selected(S.RecentOf(w.cookie), list, S.OtherThan(repo.id)) && forall o <- list :: o.id != repo.id
    ensures V.Lookup(DeletedCache(w, cache, Confirmed(w, csrf, form)), later, w.Reads().sub, repo.id) == None
  {
    ConfirmedExactly(w, csrf, form);
    DeletedCookies(w, csrf, form, repo);
    DroppedFromCache(w, cache, repo, later);
    hide *;
    var kept := S.Others(S.RecentOf(w.cookie), repo.id);
    var ops := DeletePostRun(w, csrf, form).outcome.cookies;
    SL.OthersIn(S.RecentOf(w.cookie), repo.id);
    SL.BrowseReads(w.cookie, SL.Drop(repo.id));
    BrowseDrops(w.cookie, repo.id);
    S.OthersSelect(S.RecentOf(w.cookie), repo.id);
    SL.OneRecentLine(names, lines, ops);
    B.LastOperationIsKept(names, w.cookie, lines, ops);
  }

  lemma BrowseDrops(value: string, id: string)
    requires IsBytes(id)
    ensures SL.Browse(value, SL.Drop(id)) == S.Format(S.Others(S.RecentOf(value), id))
  {
    hide S.Format, S.Others, S.RecentOf;
  }

  lemma DroppedFromCache(w: World, cache: map<string, V.Entry>, repo: Repo, later: nat)
    requires w.hasRegistry && Accepted(w.registry(1))
    ensures V.Lookup(DeletedCache(w, cache, Some(repo)), later, w.Reads().sub, repo.id) == None
  {
    hide ReadSession;
  }

  lemma DeletedCookies(w: World, csrf: bool, form: Option<string>, repo: Repo)
    requires MayDelete(w, csrf, form, repo) && Accepted(w.registry(1))
    ensures var ops := DeletePostRun(w, csrf, form).outcome.cookies;
      ops == RememberOps(w.cookie, repo.id, repo.Name()) + [SL.Write(S.Others(S.RecentOf(w.cookie), repo.id))]
  {
    hide TrimSpace, Escape, S.Others, S.RecentOf, RememberOps;
  }

  /** The list write that opening a repository makes. */
  function Front(w: World, repo: Repo): SL.Op {
    SL.Write(S.Remembered(S.RecentOf(w.cookie), repo.id, repo.Name()))
  }

  /** The last thing done to the list cookie is putting the repository in front of
      it, or clearing it for a credential the registry refused. */
  predicate StaysListed(w: World, repo: Repo, ops: seq<SL.Op>) {
    ops != [] && (ops[|ops| - 1] == Front(w, repo)
                  || (ops[|ops| - 1] == SL.Clear && (Denied(w.registry(0)) || Denied(w.registry(1)))))
  }

  lemma AdmissionLists(w: World, repo: Repo)
    requires Ok(w.origo(0), ARepo) && w.origo(0).payload.repo == repo && S.PlausibleID(repo.id)
    ensures match Administration(w) {
      case Halted(run) => StaysListed(w, repo, run.outcome.cookies)
      case Admitted(r, ck, _) => r == repo && ck != [] && ck[|ck| - 1] == Front(w, repo)
    }
  {
    hide S.RecentOf, S.PlausibleID, S.Remembered, Start, Failed, ReadSession;
  }

  lemma RefusalLists(w: World, repo: Repo, typed: string, ck: seq<SL.Op>)
    requires ck != [] && ck[|ck| - 1] == Front(w, repo)
    ensures StaysListed(w, repo, DeleteRefusal(w, repo, typed, ck, Removal(w, repo)).cookies)
  {
    hide Front, ReadSession;
  }

  /** A submission that was not carried out leaves the repository at the front of the
      list, unless the session was cleared for a refused credential. */
  lemma NotDeletedStaysListed(w: World, form: Option<string>, repo: Repo)
    requires Ok(w.origo(0), ARepo) && w.origo(0).payload.repo == repo && S.PlausibleID(repo.id)
    ensures var out := DeletePostRun(w, true, form).outcome;
      !out.response.Redirect? ==> StaysListed(w, repo, out.cookies)
    ensures S.Remembered(S.RecentOf(w.cookie), repo.id, repo.Name()) != []
    ensures S.Remembered(S.RecentOf(w.cookie), repo.id, repo.Name())[0] == S.Opened(repo.id, S.KeptName(repo.Name()))
  {
    AdmissionLists(w, repo);
    FrontOfList(w.cookie, repo);
    hide S.RecentOf, S.PlausibleID, S.Remembered, S.Others, TrimSpace, Administration, Escape, DeleteRefusal,
         Classify, ReadSession, S.KeptName;
    if Administration(w).Admitted? {
      FrontStaysListed(w, repo, Administration(w).cookies);
      if form.Some? {
        RefusalLists(w, repo, TrimSpace(form.value), Administration(w).cookies);
      }
    }
    hide StaysListed, Front;
  }

  lemma FrontStaysListed(w: World, repo: Repo, ops: seq<SL.Op>)
    requires ops != [] && ops[|ops| - 1] == Front(w, repo)
    ensures StaysListed(w, repo, ops)
  {
  }

  /** A deletion refused for its credential signs the person out exactly when the registry
      names none of the three codes that are looked at first; with one of them the person
      stays on the screen, signed in, and keeps what they typed. */
  lemma DeniedDeletion(w: World, repo: Repo, typed: string, ck: seq<SL.Op>, r: RegistryResult)
    requires IsDenied(r)
    ensures var coded := CodeOf(r.answer) in [ORIGO_REFUSED, REGISTERED, ORIGO_UNAVAILABLE];
      var out := DeleteRefusal(w, repo, typed, ck, r);
      (out == SignedOutBy(w, ck) <==> !coded) &&
      (coded ==> out.cookies == ck && out.response.Page? && out.response.status == 409 &&
                 out.response.screen.DeleteScreen? && out.response.screen.typed == typed)
  {
  }

  /** Such a refusal: a 401 with a code leaves the session in place. */
  lemma CodedRefusalKeepsSession(w: World, form: Option<string>, repo: Repo)
    requires MayDelete(w, true, form, repo) && w.registry(1) == Bad(401, ORIGO_REFUSED)
    ensures var out := DeletePostRun(w, true, form).outcome;
      out.response == Page(409, true, DeleteScreen(repo, repo.Name(), DeletionRefused)) && SL.Clear !in out.cookies
  {
    hide TrimSpace, S.RecentOf, S.Remembered;
  }

  lemma FrontOfList(cookie: string, repo: Repo)
    ensures |S.Remembered(S.RecentOf(cookie), repo.id, repo.Name())| > 0
    ensures S.Remembered(S.RecentOf(cookie), repo.id, repo.Name())[0] == S.Opened(repo.id, S.KeptName(repo.Name()))
  {
    hide S.RecentOf, S.Others, S.KeptName;
  }

  /** The addresses a redirect goes to say one repository: two segments that decode
      to its owner and its slug, and a query value that decodes to its name. */
  lemma RedirectsName(repo: Repo)
    ensures var owner, slug := Escape(repo.owner, Segment), Escape(repo.slug, Segment);
      Split(repo.Address(), '/') == ["", owner, slug] &&
      Unescape(owner, Segment) == Some(repo.owner) && Unescape(slug, Segment) == Some(repo.slug)
    ensures Unescape(Escape(repo.Name(), Query), Query) == Some(repo.Name())
  {
    var owner, slug := Escape(repo.owner, Segment), Escape(repo.slug, Segment);
    EscapeFree(repo.owner, Segment);
    EscapeFree(repo.slug, Segment);
    UnescapeEscape(repo.owner, Segment, Segment);
    UnescapeEscape(repo.slug, Segment, Segment);
    UnescapeEscape(repo.Name(), Query, Query);
    hide Escape, Unescape;
    TwoSegments(owner, slug);
  }

  /** The list repeats the name of a deleted repository exactly when its owner and its
      slug are each shaped like one. */
  lemma HomeNamesTheDeleted(repo: Repo)
    ensures R.DeletedName(repo.Name()) ==
            if R.NamePart(repo.owner) && R.NamePart(repo.slug) then repo.Name() else ""
  {
    var name := repo.Name();
    assert name == repo.owner + ['/'] + repo.slug;
    if '/' !in repo.owner {
      CutConcat(repo.owner, '/', repo.slug);
    } else {
      var cut := Cut(name, '/');
      assert name[|repo.owner|] == '/';
      hide Cut;
      assert |cut.0| < |repo.owner| by {
        var i :| 0 <= i < |repo.owner| && repo.owner[i] == '/';
        assert name[i] == '/';
        assert forall k :: 0 <= k < |cut.0| ==> name[k] == cut.0[k];
      }
      assert cut.1[|repo.owner| - |cut.0| - 1] == name[|repo.owner|] == '/';
      SlashIsNoPart(cut.1);
      SlashIsNoPart(repo.owner);
    }
  }

  lemma SlashIsNoPart(s: string)
    requires '/' in s
    ensures !R.NamePart(s)
  {
    assert !S.PlausibleChar('/');
  }

  lemma TwoSegments(a: string, b: string)
    requires Free(a, '/') && Free(b, '/')
    ensures Split("/" + a + "/" + b, '/') == ["", a, b]
  {
    hide Split;
    SplitFree("", '/');
    SplitFree(a, '/');
    SplitFree(b, '/');
    SplitConcat(a, b, '/');
    SplitConcat("", a + "/" + b, '/');
    assert "/" + a + "/" + b == "" + ['/'] + (a + "/" + b);
  }

  // ---- visibility ----

  /** The reader who made a change sees it on the overview at once, whatever the
      registry would now say, until the answer's time is up. */
  lemma FlipShowsAtOnce(w: World, csrf: bool, form: Option<string>, now: nat, later: nat, cache: map<string, V.Entry>,
                        result: RegistryResult)
    requires Flip(w, csrf, form).Some? && w.Reads().sub != "" && now <= later < now + V.TTL
    ensures var flip := Flip(w, csrf, form).value;
      VisibilityPostRun(w, csrf, form).outcome.response == Redirect(303, flip.0.Address()) &&
      VisibilityShown(w.Reads().platform, V.Lookup(FlippedCache(w, now, cache, Some(flip)), later, w.Reads().sub,
          flip.0.id), result)
        == Says(flip.1 == V.PUBLIC, true)
  {
    hide R.Open, RegistryResultOf, NameURL;
  }

  /** Nobody else's entry is touched, and a reader with no subject stores nothing. */
  lemma FlipIsOnesOwn(w: World, now: nat, cache: map<string, V.Entry>, flip: Option<(Repo, string)>, sub: string,
        id: string, later: nat)
    requires V.NulFree(sub) && V.NulFree(w.Reads().sub)
    requires flip.None? || w.Reads().sub == "" || sub != w.Reads().sub || id != flip.value.0.id
    ensures V.Lookup(FlippedCache(w, now, cache, flip), later, sub, id) == V.Lookup(cache, later, sub, id)
  {
    if flip.Some? && w.Reads().sub != "" && sub != "" && V.Key(sub, id) == V.Key(w.Reads().sub, flip.value.0.id) {
      V.KeyIsInjective(sub, id, w.Reads().sub, flip.value.0.id);
    }
  }

  /** A registry that fails is never read as "public" or "private": the overview says
      one of them exactly when an answer is in hand, and then that answer. */
  lemma OnlyAnswersAreShown(platform: Token, cached: Option<V.Answer>, result: RegistryResult)
    ensures VisibilityShown(platform, cached, result).Says? <==>
      platform != NoToken && (cached.Some? || Readable(result))
    ensures VisibilityShown(platform, cached, result).Says? ==>
      VisibilityShown(platform, cached, result) ==
        var v := if cached.Some? then cached.value else result.answer.body.answer;
        Says(v.visibility == "public", v.canChange)
    ensures VisibilityShown(platform, cached, result) == Unknown <==>
      platform != NoToken && cached.None? && result.Answered? && !NotThere(result.answer) && !Readable(result)
  {
  }

  /** The redirect is the success of the write and nothing else: any success, whatever
      its body. */
  lemma RedirectsIffFlipped(w: World, csrf: bool, form: Option<string>)
    ensures VisibilityPostRun(w, csrf, form).outcome.response.Redirect? <==> Flip(w, csrf, form).Some?
    ensures Flip(w, csrf, form).Some? <==>
      csrf && Ok(w.origo(0), ARepo) && Target(form) && w.loaded.Live? && w.loaded.platformMinted
      && w.hasRegistry && Accepted(w.registry(0))
    ensures Flip(w, csrf, form).Some? ==>
      csrf && Target(form) && w.hasRegistry && Accepted(w.registry(0)) && w.Reads().platform == For(Platform) &&
      Flip(w, csrf, form).value == (w.origo(0).payload.repo, form.value)
  {
    hide RememberOps, Start, NameURL;
  }

  /** A submission shows the screen exactly when the choice cannot be read, to any reader
      with a platform token: nothing is asked, so it is shown to those the screen itself
      is hidden from, and drawn as private whatever the repository is. */
  lemma ChoiceShown(w: World, csrf: bool, form: Option<string>)
    ensures ShowsVisibility(VisibilityPostRun(w, csrf, form)) <==>
      csrf && Ok(w.origo(0), ARepo) && w.loaded.Live? && w.loaded.platformMinted && !Target(form)
    ensures ShowsVisibility(VisibilityPostRun(w, csrf, form)) ==>
      VisibilityPostRun(w, csrf, form).asks == [] &&
      VisibilityPostRun(w, csrf, form).outcome.response ==
        Page(400, true, VisibilityScreen(w.origo(0).payload.repo, false, BadVisibility))
  {
    hide RememberOps, Start, NameURL, Target;
  }

  predicate ShowsVisibility(run: Run) {
    run.outcome.response.Page? && run.outcome.response.screen.VisibilityScreen?
  }

  /** The screen asked for is shown exactly to an administrator, drawn as the registry says. */
  lemma ScreenShown(w: World)
    ensures ShowsVisibility(VisibilityRun(w)) <==> Administration(w).Admitted?
    ensures ShowsVisibility(VisibilityRun(w)) ==>
      VisibilityRun(w).outcome.response.screen.isPublic == Administration(w).current.IsPublic()
  {
    hide RememberOps, Start;
  }

  /** So there is a reader the screen is hidden from and a submission that shows it. */
  lemma HiddenYetShown(w: World)
    requires Ok(w.origo(0), ARepo) && w.loaded.Live? && w.loaded.platformMinted
    requires w.hasRegistry && Hidden(w.registry(0))
    ensures !ShowsVisibility(VisibilityRun(w)) && ShowsVisibility(VisibilityPostRun(w, true, None))
  {
    hide RememberOps, Start;
  }

  // ---- two cookies in one answer ----

  /** A credential refused after the repository was opened: the list has been written
      and is then cleared, so the answer carries two lines for it. */
  lemma ClearedAfterRemembered(sub: string, platform: bool, cookie: string, o: R.Answers, names: S.Names,
        lines: seq<string>)
    requires Ok(o(0), ARepo) && S.PlausibleID(o(0).payload.repo.id) && o(1) == Refused(401)
    requires S.Only(lines, names.Recent() + "=") == []
    ensures var out := R.LogOutcome(Live(sub, true, platform), cookie, o);
      out.response.Page? && out.response.status == 401 &&
      var own := S.Only(SL.AfterAll(names, lines, out.cookies), names.Recent() + "=");
      |own| == 2 && own[1] == names.RecentLine([])
  {
    hide S.Remembered, S.RecentOf, S.PlausibleID, S.Only, SL.AfterAll, S.Names.RecentLine, S.Names.Recent;
    var repo := o(0).payload.repo;
    var first := SL.Write(S.Remembered(S.RecentOf(cookie), repo.id, repo.Name()));
    var ops := R.LogOutcome(Live(sub, true, platform), cookie, o).cookies;
    assert ops == [first, SL.Clear];
    assert ops[..1] == [first];
    hide R.LogOutcome;
    SL.ResponseCookies(names, lines, ops);
  }

  // ---- one answer for everything withheld ----

  /** A registry answer that shows a reader nothing: absent, refused, or not theirs. */
  predicate Hidden(a: PlatformAnswer) {
    Withheld(a) || NotThere(a) || (a.Good? && a.body.VisibilityBody? && !a.body.answer.canChange)
  }

  /** Two requests by one reader that differ only in how they are turned away. */
  ghost predicate SameButWithheld(w1: World, w2: World) {
    w1.loaded == w2.loaded && w1.cookie == w2.cookie && w1.hasRegistry == w2.hasRegistry
    && R.AlikeRuns(w1.origo, w2.origo)
    && (w1.registry(0) == w2.registry(0) || (Hidden(w1.registry(0)) && Hidden(w2.registry(0))))
    && w1.registry(1) == w2.registry(1)
  }

  lemma SameGate(w1: World, w2: World)
    requires SameButWithheld(w1, w2)
    ensures Administration(w1) == Administration(w2)
  {
    SameOpening(w1, w2);
    hide R.Open, Classify, Failed, ReadSession, R.AlikeRuns, NoPlatform, SignInPage;
  }

  /** Nobody learns from these screens whether a repository is absent, refused, or
      merely not theirs to change. */
  lemma WithheldLooksAbsent(w1: World, w2: World, csrf: bool, form: Option<string>)
    requires SameButWithheld(w1, w2)
    ensures VisibilityRun(w1) == VisibilityRun(w2)
    ensures DeleteRun(w1) == DeleteRun(w2)
    ensures DeletePostRun(w1, csrf, form) == DeletePostRun(w2, csrf, form)
  {
    SameGate(w1, w2);
    forall repo, ck, typed ensures Deletion(w1, repo, ck, typed) == Deletion(w2, repo, ck, typed) {
      SameDeletion(w1, w2, repo, ck, typed);
    }
    hide Administration, Deletion, Classify, ReadSession, R.AlikeRuns, TrimSpace, Hidden;
  }

  /** The submission of a change answers alike for a repository that is absent and one the
      reader may not change. */
  lemma WithheldLooksAbsentOnChange(w1: World, w2: World, csrf: bool, form: Option<string>)
    requires w1.loaded == w2.loaded && w1.cookie == w2.cookie && w1.hasRegistry == w2.hasRegistry
    requires R.AlikeRuns(w1.origo, w2.origo)
    requires w1.registry(0) == w2.registry(0) || (Barred(w1.registry(0)) && Barred(w2.registry(0)))
    ensures VisibilityPostRun(w1, csrf, form) == VisibilityPostRun(w2, csrf, form)
  {
    SameOpening(w1, w2);
    hide R.Open, Classify, ReadSession, R.AlikeRuns, NoPlatform, SignInPage, NameURL, Target;
  }

  predicate Barred(a: PlatformAnswer) {
    Withheld(a) || NotThere(a)
  }

  lemma SameOpening(w1: World, w2: World)
    requires w1.loaded == w2.loaded && w1.cookie == w2.cookie && R.AlikeRuns(w1.origo, w2.origo)
    ensures R.Open(w1.loaded, w1.cookie, w1.origo) == R.Open(w2.loaded, w2.cookie, w2.origo)
  {
    R.AlikeClasses(w1.origo, w2.origo);
    hide Classify, Failed, RememberOps, Start, ReadSession, R.AlikeRuns, Fits;
  }

  lemma SameDeletion(w1: World, w2: World, repo: Repo, ck: seq<SL.Op>, typed: string)
    requires SameButWithheld(w1, w2)
    ensures Deletion(w1, repo, ck, typed) == Deletion(w2, repo, ck, typed)
  {
    hide ReadSession, R.AlikeRuns, Escape, S.Others, S.RecentOf, Hidden, SignInPage, CodeOf;
  }

  // ---- every answer of the two screens, said of the answers they were given ----

  /** A token minted for the platform was there to send. */
  predicate Minted(l: Loaded) { l.Live? && l.platformMinted }

  /** Without one: a live session the issuer would not mint for, or no session. */
  function NotMinted(l: Loaded): Response {
    if l.Live? then Page(502, true, IssuerFaultScreen) else Page(200, false, SignInScreen(false, false))
  }

  /** A refused platform credential ends the session. */
  function Ended(l: Loaded, ck: seq<SL.Op>): Outcome {
    Outcome(Page(401, false, SignInScreen(RL.Sent(l), l.Live? && !l.origoMinted)), ck + [SL.Clear])
  }

  /** A refusal of the registry: 401 ends the session; 403, 404 and no registry are one
      absence; and anything else is an outage. */
  predicate TurnedAway(w: World, a: PlatformAnswer, ck: seq<SL.Op>, out: Outcome) {
    if !w.hasRegistry || (a.Bad? && a.status in {403, 404}) then out == Outcome(Page(404, true, NotFoundScreen), ck)
    else if a.Bad? && a.status == 401 then out == Ended(w.loaded, ck)
    else out == Outcome(Page(502, true, UnavailableScreen), ck)
  }

  lemma FailureMeans(w: World, ck: seq<SL.Op>, op: RegistryOp, n: nat)
    requires Minted(w.loaded) && !Succeeded(w.Answers(op, n))
    ensures TurnedAway(w, w.registry(n), ck, VisibilityFailure(w, ck, w.Answers(op, n)))
  {
  }

  /** The reader may change the repository the address names, as the registry says. */
  predicate MayChange(w: World) {
    var first := w.registry(0);
    Ok(w.origo(0), ARepo) && Minted(w.loaded) && w.hasRegistry
    && first.Good? && first.body.VisibilityBody? && first.body.answer.canChange
  }

  /** And when not, the first thing amiss decides. */
  predicate KeptOut(w: World, out: Outcome) {
    if !Ok(w.origo(0), ARepo) then RL.FailsAs(w.loaded, None, w.origo(0), RL.Before(w.loaded), out)
    else
      var ck := RL.Opened(w.loaded, w.cookie, w.origo(0).payload.repo);
      if !Minted(w.loaded) then out == Outcome(NotMinted(w.loaded), ck)
      else if w.hasRegistry && w.registry(0).Good? && w.registry(0).body.VisibilityBody?
      then out == Outcome(Page(404, true, NotFoundScreen), ck)
      else TurnedAway(w, w.registry(0), ck, out)
  }

  lemma GateMeans(w: World)
    ensures match Administration(w) {
      case Halted(run) =>
        !MayChange(w) && KeptOut(w, run.outcome) &&
        run.asks == if Ok(w.origo(0), ARepo) && Minted(w.loaded) && w.hasRegistry
                    then [OfRegistry(ReadVisibility(w.origo(0).payload.repo.id))] else []
      case Admitted(repo, ck, v) =>
        MayChange(w) && repo == w.origo(0).payload.repo && ck == RL.Opened(w.loaded, w.cookie, repo) &&
        v == w.registry(0).body.answer
    }
  {
    RL.OpenMeans(w.loaded, w.cookie, w.origo);
    hide R.Open, Classify, RL.FailsAs, RL.Opened;
    if Minted(w.loaded) && Ok(w.origo(0), ARepo) {
      var repo := w.origo(0).payload.repo;
      if !Succeeded(w.Answers(ReadVisibility(repo.id), 0)) {
        FailureMeans(w, RL.Opened(w.loaded, w.cookie, repo), ReadVisibility(repo.id), 0);
      }
    }
    hide VisibilityFailure, TurnedAway;
  }

  /** Both screens, as they are asked for. */
  lemma ScreensMean(w: World)
    ensures var out1, out2 := VisibilityRun(w).outcome, DeleteRun(w).outcome;
      if !MayChange(w) then KeptOut(w, out1) && KeptOut(w, out2)
      else
        var repo := w.origo(0).payload.repo;
        var ck := RL.Opened(w.loaded, w.cookie, repo);
        var shown := w.registry(0).body.answer.visibility == "public";
        out1 == Outcome(Page(200, true, VisibilityScreen(repo, shown, NoSentence)), ck) &&
        out2 == Outcome(Page(200, true, DeleteScreen(repo, "", NoSentence)), ck)
    ensures VisibilityRun(w).asks == DeleteRun(w).asks ==
      if Ok(w.origo(0), ARepo) && Minted(w.loaded) && w.hasRegistry
      then [OfRegistry(ReadVisibility(w.origo(0).payload.repo.id))] else []
  {
    GateMeans(w);
    hide Administration, KeptOut, RL.Opened;
  }

  /** A submitted change: what it comes to, in the order things are looked at. */
  lemma ChangeMeans(w: World, csrf: bool, form: Option<string>)
    ensures var out := VisibilityPostRun(w, csrf, form).outcome;
      if !csrf then out == Outcome(Plain(403), [])
      else if !Ok(w.origo(0), ARepo) then RL.FailsAs(w.loaded, None, w.origo(0), RL.Before(w.loaded), out)
      else
        var repo := w.origo(0).payload.repo;
        var ck := RL.Opened(w.loaded, w.cookie, repo);
        if !Minted(w.loaded) then out == Outcome(NotMinted(w.loaded), ck)
        else if form != Some("public") && form != Some("private") then
          out == Outcome(Page(400, true, VisibilityScreen(repo, false, BadVisibility)), ck)
        else if w.hasRegistry && Accepted(w.registry(0)) then out == Outcome(Redirect(303, repo.Address()), ck)
        else TurnedAway(w, w.registry(0), ck, out)
    ensures VisibilityPostRun(w, csrf, form).asks ==
      if csrf && Ok(w.origo(0), ARepo) && Minted(w.loaded) && w.hasRegistry && form in {Some("public"), Some("private")}
      then [OfRegistry(SetVisibility(w.origo(0).payload.repo.id, form.value))] else []
  {
    RL.OpenMeans(w.loaded, w.cookie, w.origo);
    hide R.Open, Classify, RL.FailsAs, RL.Opened, NameURL;
    if Minted(w.loaded) && Ok(w.origo(0), ARepo) && Target(form) {
      var op := SetVisibility(w.origo(0).payload.repo.id, form.value);
      if !Succeeded(w.Answers(op, 0)) {
        FailureMeans(w, RL.Opened(w.loaded, w.cookie, w.origo(0).payload.repo), op, 0);
      }
    }
    hide VisibilityFailure, TurnedAway;
  }

  /** The refusal of a deletion: three codes and a conflict show the form again with
      what was typed and its sentence. */
  predicate DeletionTurnedAway(w: World, repo: Repo, typed: string, a: PlatformAnswer, ck: seq<SL.Op>, out: Outcome) {
    var code := if a.Bad? then a.code else "";
    var again := (s: Sentence) => Outcome(Page(409, true, DeleteScreen(repo, typed, s)), ck);
    if code == "origo_refused" then out == again(DeletionRefused)
    else if code == "repository_registered" then out == again(DeletionManaged)
    else if code == "origo_unavailable" then out == again(NoDeletion)
    else if a.Bad? && a.status == 409 then out == again(DeletionBusy)
    else TurnedAway(w, a, ck, out)
  }

  /** The redirect after a deletion names what was deleted. */
  predicate GoesHome(repo: Repo, response: Response) {
    var start := "/?deleted=";
    response.Redirect? && response.status == 303 && start <= response.target &&
    Unescape(response.target[|start|..], Query) == Some(repo.owner + "/" + repo.slug)
  }

  lemma DeletionMeans(w: World, csrf: bool, form: Option<string>)
    ensures var out := DeletePostRun(w, csrf, form).outcome;
      if !csrf then out == Outcome(Plain(403), [])
      else if !MayChange(w) then KeptOut(w, out)
      else
        var repo := w.origo(0).payload.repo;
        var ck := RL.Opened(w.loaded, w.cookie, repo);
        var typed := if form.None? then "" else TrimSpace(form.value);
        if form.None? || typed != repo.owner + "/" + repo.slug then
          out == Outcome(Page(400, true, DeleteScreen(repo, typed, Mistyped)), ck)
        else if Accepted(w.registry(1)) then
          GoesHome(repo, out.response) && out.cookies == ck + [SL.Write(S.Others(S.RecentOf(w.cookie), repo.id))]
        else DeletionTurnedAway(w, repo, typed, w.registry(1), ck, out)
  {
    GateMeans(w);
    hide Administration, KeptOut, RL.Opened, TrimSpace;
    if MayChange(w) {
      var repo := w.origo(0).payload.repo;
      AnsweredDeletion(w, repo, RL.Opened(w.loaded, w.cookie, repo), repo.Name());
    }
    hide Deletion, DeletionTurnedAway, GoesHome;
  }

  lemma AnsweredDeletion(w: World, repo: Repo, ck: seq<SL.Op>, typed: string)
    requires Minted(w.loaded) && w.hasRegistry
    ensures var out := Deletion(w, repo, ck, typed).outcome;
      if Accepted(w.registry(1)) then
        GoesHome(repo, out.response) && out.cookies == ck + [SL.Write(S.Others(S.RecentOf(w.cookie), repo.id))]
      else DeletionTurnedAway(w, repo, typed, w.registry(1), ck, out)
  {
    var op := Remove(repo.id);
    if Succeeded(w.Answers(op, 1)) {
      UnescapeEscape(repo.Name(), Query, Query);
      hide Escape, Unescape, S.Others, S.RecentOf;
      var target := "/?deleted=" + Escape(repo.Name(), Query);
      assert target[|"/?deleted="|..] == Escape(repo.Name(), Query);
    } else {
      FailureMeans(w, ck, op, 1);
      hide VisibilityFailure, TurnedAway, Escape, Unescape, S.Others, S.RecentOf;
    }
  }
}
