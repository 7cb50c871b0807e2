/** What the account screens promise together. */
module AccountsLaws {
  import opened Wrappers
  import opened Text
  import opened Url
  import opened Protocol
  import opened Writing
  import opened Accounts
  import S = Session
  import SL = SessionLaws
  import R = Reading
  import RL = ReadingLaws
  import WL = WritingLaws

  /** What has to be so before the registry is asked to create. */
  predicate MayCreate(w: World, csrf: bool, form: Option<(string, string)>) {
    csrf && w.hasRegistry && w.Reads().platform == For(Platform) && form.Some?
    && TrimSpace(form.value.0) != "" && NameFits(TrimSpace(form.value.1))
  }

  predicate IsCreate(a: Ask) {
    a.OfRegistry? && a.registryOp.Create?
  }

  /** A creation is asked for exactly when it may be, first and once, under the names
      typed; and whatever follows it only reads. */
  lemma CreationIsAskedOnce(w: World, csrf: bool, form: Option<(string, string)>, id: Bytes)
    ensures var asks := NewPostRun(w, csrf, form, id).asks;
      (asks != [] && IsCreate(asks[0]) <==> MayCreate(w, csrf, form)) &&
      (MayCreate(w, csrf, form) ==>
         asks[0] == OfRegistry(Create(id, TrimSpace(form.value.0), TrimSpace(form.value.1)))) &&
      forall i :: 0 < i < |asks| ==> asks[i] == OfRegistry(Namespaces)
  {
    assert TrimSpace("") == "";
    hide TrimSpace, NameFits, NewPage, NoPlatform, Retry, RememberOps, Start, SignedOutBy;
  }

  lemma CreationAnswers(w: World, id: Bytes, owner: string, name: string)
    ensures var run := Creation(w, id, owner, name);
      (run.outcome.response.Redirect? <==> w.hasRegistry && w.registry(0).Good? && w.registry(0).body.CreatedBody?) &&
      (run.outcome.response.Redirect? ==>
         run.outcome == Outcome(Redirect(303, w.registry(0).body.repo.Address()),
           Start(w.loaded) + RememberOps(w.cookie, w.registry(0).body.repo.id, w.registry(0).body.repo.Name())))
  {
    hide NoPlatform, RememberOps, Start, NameURL, Invalid, Withheld, Conflicts;
  }

  lemma NewPageStays(w: World)
    ensures forall owner, name, ck :: !NewPage(w, 400, owner, name, BadName, ck, 0).response.Redirect?
  {
    hide RegistryResultOf;
  }

  /** The answer redirects exactly when the registry created, to the name the registry
      gave, and the new repository is then in front of the list. */
  lemma RedirectsIffCreated(w: World, csrf: bool, form: Option<(string, string)>, id: Bytes)
    ensures var out := NewPostRun(w, csrf, form, id).outcome;
      (out.response.Redirect? <==>
        MayCreate(w, csrf, form) && w.registry(0).Good? && w.registry(0).body.CreatedBody?) &&
      (out.response.Redirect? ==>
        var made := w.registry(0).body.repo;
        out.response.target == made.Address() &&
        (S.PlausibleID(made.id) ==>
           out.cookies != [] &&
           out.cookies[|out.cookies| - 1] == SL.Write(S.Remembered(S.RecentOf(w.cookie), made.id, made.Name()))))
  {
    assert TrimSpace("") == "";
    if MayCreate(w, csrf, form) {
      CreationAnswers(w, id, TrimSpace(form.value.0), TrimSpace(form.value.1));
    }
    hide TrimSpace, NameFits, Start, NameURL, Creation, S.PlausibleID, S.Remembered, S.RecentOf, NewPage,
         RegistryResultOf;
    NewPageStays(w);
  }

  // ---- keys ----

  lemma StoringAsks(w: World, pasted: string)
    requires pasted != ""
    ensures var asks := AddRun(w, pasted, true).asks;
      asks != [] && asks[0] == OfKeys(AddKey(pasted)) && forall i :: 0 < i < |asks| ==> asks[i] == OfKeys(ListKeys)
  {
    hide KeysPage, KeySentence, Start;
  }

  /** The page that asks for a confirmation carries the very line that was parsed, and
      confirming it stores that line and no other. */
  lemma ConfirmedKeyIsTheParsedKey(w: World, key: string, later: World, shown: string, pasted: string)
    requires KeysPostRun(w, true, key, false).outcome.response.Page?
    requires var page := KeysPostRun(w, true, key, false).outcome.response.screen;
             page.KeysScreen? && page.confirm == Some((shown, pasted))
    requires later.Reads().platform == For(Platform)
    ensures var asks := KeysPostRun(w, true, key, false).asks;
      asks == [OfKeys(ParseKey(pasted)), OfKeys(ListKeys)] && KeyRead(w.keys(0)) && shown == w.keys(0).body.fingerprint
    ensures var asks := KeysPostRun(later, true, pasted, true).asks;
      asks != [] && asks[0] == OfKeys(AddKey(pasted)) && forall i :: 0 < i < |asks| ==> asks[i] == OfKeys(ListKeys)
  {
    TrimSpaceTwice(key);
    hide TrimSpace, KeySentence;
    assert pasted == TrimSpace(key) && pasted != "";
    StoringAsks(later, pasted);
  }

  /** A key is added only by a confirmation, and removed only from the page that named
      it: neither the list nor the question changes anything. */
  predicate Changes(a: Ask) {
    a.OfKeys? && (a.keysOp.AddKey? || a.keysOp.RemoveKey?)
  }

  lemma KeysChangeOnlyWhenTold(w: World, csrf: bool, key: string, confirmed: bool, id: string)
    ensures forall a <- KeysRun(w, id).asks :: !Changes(a)
    ensures forall a <- KeysPostRun(w, csrf, key, confirmed).asks ::
      Changes(a) ==> csrf && confirmed && a == OfKeys(AddKey(TrimSpace(key)))
    ensures forall a <- KeyRemovePostRun(w, csrf, id).asks :: Changes(a) ==> csrf && a == OfKeys(RemoveKey(id))
  {
    hide TrimSpace, NoPlatform, KeysPage, KeySentence, Start;
  }

  /** Every screen of the platform asks nothing without a platform token; and where a form
      is valid, a repository resolves and a registry is configured, each of them says which
      it was: a session the issuer would not mint for, or no session at all. */
  lemma NoTokenAsksNothing(w: World, csrf: bool, id: Bytes, owner: string, form: Option<string>,
                           named: Option<(string, string)>, key: string, confirmed: bool)
    requires w.Reads().platform == NoToken
    ensures forall run <- PlatformRuns(w, csrf, id, owner, form, named, key, confirmed) ::
      run.asks == [] &&
      (csrf && Ok(w.origo(0), ARepo) && w.hasRegistry ==> run.outcome.response == NoPlatform(w.Reads()))
    ensures NoPlatform(w.Reads()) ==
      if w.loaded.Live? then Page(502, true, IssuerFaultScreen) else Page(200, false, SignInScreen(false, false))
  {
    NoTokenOnRepository(w, csrf, form);
    NoTokenOnAccount(w, csrf, id, owner, named, key, confirmed);
    hide NoPlatform, ReadSession, VisibilityRun, VisibilityPostRun, DeleteRun, DeletePostRun, NewRun, NewPostRun,
         KeysRun, KeysPostRun, KeyRemovePostRun;
  }

  /** The nine screens of the registry and the key store. */
  function PlatformRuns(w: World, csrf: bool, id: Bytes, owner: string, form: Option<string>,
                        named: Option<(string, string)>, key: string, confirmed: bool): seq<Run>
  {
    [VisibilityRun(w), VisibilityPostRun(w, csrf, form), DeleteRun(w), DeletePostRun(w, csrf, form),
     NewRun(w, owner), NewPostRun(w, csrf, named, id),
     KeysRun(w, id), KeysPostRun(w, csrf, key, confirmed), KeyRemovePostRun(w, csrf, id)]
  }

  predicate Unminted(w: World, run: Run, reached: bool) {
    run.asks == [] && (reached ==> run.outcome.response == NoPlatform(w.Reads()))
  }

  lemma NoTokenOnRepository(w: World, csrf: bool, form: Option<string>)
    requires w.Reads().platform == NoToken
    ensures var found := Ok(w.origo(0), ARepo);
      Unminted(w, VisibilityRun(w), found) && Unminted(w, VisibilityPostRun(w, csrf, form), csrf && found) &&
      Unminted(w, DeleteRun(w), found) && Unminted(w, DeletePostRun(w, csrf, form), csrf && found)
  {
    hide TrimSpace, Start, RememberOps, Failed, Target, NoPlatform, ReadSession;
  }

  lemma NoTokenOnAccount(w: World, csrf: bool, id: Bytes, owner: string, named: Option<(string, string)>,
                         key: string, confirmed: bool)
    requires w.Reads().platform == NoToken
    ensures Unminted(w, NewRun(w, owner), w.hasRegistry) &&
      Unminted(w, NewPostRun(w, csrf, named, id), csrf && w.hasRegistry) &&
      Unminted(w, KeysRun(w, id), true) && Unminted(w, KeysPostRun(w, csrf, key, confirmed), csrf) &&
      Unminted(w, KeyRemovePostRun(w, csrf, id), csrf)
  {
    hide TrimSpace, Start, NameFits, NoPlatform, ReadSession;
  }

  /** A platform credential that is refused ends the session on every screen, and the
      sign-in page then says a credential was refused exactly when an Origo token had
      been minted too: the notice follows the other credential. */
  lemma RefusalNotice(w: World, ck: seq<SL.Op>)
    requires w.Reads().platform != NoToken
    ensures SignedOutBy(w, ck).cookies == ck + [SL.Clear]
    ensures var page := SignedOutBy(w, ck).response;
      page == Page(401, false, SignInScreen(w.loaded.origoMinted, !w.loaded.origoMinted))
  {
  }

  /** And a refused platform credential is answered so by every call but the deletion, which
      looks at the code of the refusal first. */
  lemma RefusedCredentialSignsOut(w: World, ck: seq<SL.Op>, r: RegistryResult, a: PlatformAnswer,
                                  repo: Repo, owner: string, name: string, pasted: string)
    requires IsDenied(r) && Denied(a)
    ensures VisibilityFailure(w, ck, r) == SignedOutBy(w, ck)
    ensures CreateRefusal(w, owner, name, ck, r) == Run(SignedOutBy(w, ck), [])
    ensures KeyRefusal(w, pasted, a) == RemovalAnswer(w, a) == Run(SignedOutBy(w, Start(w.loaded)), [])
    ensures forall status, n, refusal ::
      w.Answers(Namespaces, n) == r ==> NewPage(w, status, owner, name, refusal, ck, n) == SignedOutBy(w, ck)
    ensures forall status, n, confirm, removing, refusal ::
      w.keys(n) == a ==> KeysPage(w, status, confirm, removing, pasted, refusal, ck, n) == SignedOutBy(w, ck)
  {
    hide SignedOutBy;
  }

  // ---- what the forms show ----

  predicate ShowsForm(run: Run) {
    run.outcome.response.Page? && run.outcome.response.screen.NewScreen?
  }

  /** The names that may be created under, as the registry has just given them. */
  predicate SpacesGiven(w: World, n: nat, labels: seq<string>) {
    w.hasRegistry && w.registry(n) == Good(SpacesBody(labels))
  }

  /** The creation form is shown exactly to a reader with a platform token for whom the
      registry has just listed names, with those names, one of them chosen unless the
      reader asked for another. */
  lemma FormShown(w: World, owner: string)
    ensures ShowsForm(NewRun(w, owner)) <==>
      w.Reads().platform == For(Platform) && exists labels :: SpacesGiven(w, 0, labels)
    ensures ShowsForm(NewRun(w, owner)) ==>
      var page := NewRun(w, owner).outcome.response.screen;
      SpacesGiven(w, 0, page.labels) && page.refusal == NoSentence &&
      (owner != "" ==> page.owner == owner) && (owner == "" && page.labels != [] ==> page.owner == page.labels[0])
  {
    hide NoPlatform, Start;
    NoFormWithoutToken(w);
    if ShowsForm(NewRun(w, owner)) {
      assert SpacesGiven(w, 0, w.registry(0).body.labels);
    }
  }

  lemma NoFormWithoutToken(w: World)
    ensures NoPlatform(w.Reads()).Page? && !NoPlatform(w.Reads()).screen.NewScreen?
  {
  }

  /** A refused submission shows the form again only so: with the names the registry
      has given after the refusal, what was typed, and the sentence that says why. */
  lemma FormShownAgain(w: World, csrf: bool, form: Option<(string, string)>, id: Bytes)
    requires ShowsForm(NewPostRun(w, csrf, form, id))
    ensures csrf && w.Reads().platform == For(Platform)
    ensures var run := NewPostRun(w, csrf, form, id);
      var page := run.outcome.response.screen;
      run.asks != [] && run.asks[|run.asks| - 1] == OfRegistry(Namespaces) &&
      SpacesGiven(w, |run.asks| - 1, page.labels) &&
      page.refusal != NoSentence && run.outcome.response.status in [400, 403, 409] &&
      page.name == (if form.None? then "" else TrimSpace(form.value.1))
  {
    NoFormWithoutToken(w);
    hide NoPlatform, Start, TrimSpace, NameFits, RememberOps, NameURL;
  }

  /** A key screen shows the list as it stands after whatever was asked, and offers a
      confirmation only beside one. */
  predicate ListIsLast(w: World, run: Run) {
    run.outcome.response.Page? && run.outcome.response.screen.KeysScreen? ==>
      var page := run.outcome.response.screen;
      run.asks != [] && run.asks[|run.asks| - 1] == OfKeys(ListKeys) &&
      var a := w.keys(|run.asks| - 1);
      page.ids == (if Listed(a) then Some(a.body.ids) else None) &&
      (page.confirm.Some? ==> page.ids.Some?) &&
      (page.removing.Some? ==> page.ids.Some? && page.removing.value in page.ids.value)
  }

  lemma KeysAreCurrent(w: World, csrf: bool, key: string, confirmed: bool, id: string)
    ensures ListIsLast(w, KeysRun(w, id))
    ensures ListIsLast(w, KeysPostRun(w, csrf, key, confirmed))
    ensures ListIsLast(w, KeyRemovePostRun(w, csrf, id))
  {
    hide TrimSpace, Start, KeySentence;
  }

  // ---- every answer of these screens, said of the answers they were given ----

  /** The key screen over the list as the store answers it: a list, a sign-in for a
      refused credential, or the screen without the list. */
  predicate KeysDrawn(w: World, status: nat, confirm: Option<(string, string)>, paste: string, refusal: Sentence,
                      a: PlatformAnswer, out: Outcome) {
    var ck := RL.Before(w.loaded);
    if a.Good? && a.body.KeysBody? then
      out == Outcome(Page(status, true, KeysScreen(Some(a.body.ids), confirm, None, paste, refusal)), ck)
    else if a.Bad? && a.status == 401 then out == WL.Ended(w.loaded, ck)
    else
      var failed := if status == 200 then 502 else status;
      out == Outcome(Page(failed, true, KeysScreen(None, None, None, paste, refusal)), ck)
  }

  lemma KeysPageMeans(w: World, status: nat, confirm: Option<(string, string)>, paste: string, refusal: Sentence,
                      n: nat)
    requires WL.Minted(w.loaded)
    ensures KeysDrawn(w, status, confirm, paste, refusal, w.keys(n),
                      KeysPage(w, status, confirm, "", paste, refusal, Start(w.loaded), n))
  {
  }

  /** The list, and the page that asks before a removal: only a key on the list is
      asked about. */
  lemma KeysMean(w: World, removing: string)
    ensures var out, a := KeysRun(w, removing).outcome, w.keys(0);
      if !WL.Minted(w.loaded) then out == Outcome(WL.NotMinted(w.loaded), RL.Before(w.loaded))
      else if removing == "" || !(a.Good? && a.body.KeysBody?) then KeysDrawn(w, 200, None, "", NoSentence, a, out)
      else if removing in a.body.ids then
        out == Outcome(Page(200, true, KeysScreen(Some(a.body.ids), None, Some(removing), "", NoSentence)),
                       RL.Before(w.loaded))
      else KeysDrawn(w, 404, None, "", NotYourKey, a, out)
  {
  }

  /** A refused key: its code, or else its status, chooses the sentence, and the paste
      stands in the form. */
  predicate KeyTurnedAway(w: World, pasted: string, a: PlatformAnswer, again: PlatformAnswer, out: Outcome) {
    var code := if a.Bad? then a.code else "";
    if a.Bad? && a.status == 401 then out == WL.Ended(w.loaded, RL.Before(w.loaded))
    else if code == "key_already_added" then KeysDrawn(w, 409, None, pasted, AlreadyYours, again, out)
    else if code == "key_already_registered" then KeysDrawn(w, 409, None, pasted, AlreadyTaken, again, out)
    else if code == "invalid_public_key" then KeysDrawn(w, 400, None, pasted, InvalidKey, again, out)
    else if a.Bad? && a.status == 403 then KeysDrawn(w, 502, None, pasted, KeysNotEnabled, again, out)
    else KeysDrawn(w, 502, None, pasted, KeyNotAdded, again, out)
  }

  lemma KeyRefusalMeans(w: World, pasted: string)
    requires WL.Minted(w.loaded) && !KeyRead(w.keys(0))
    ensures KeyTurnedAway(w, pasted, w.keys(0), w.keys(1), KeyRefusal(w, pasted, w.keys(0)).outcome)
  {
    KeysPageMeans(w, KeySentence(w.keys(0)).0, None, pasted, KeySentence(w.keys(0)).1, 1);
    hide KeysPage, KeysDrawn;
  }

  lemma KeysStay(w: World)
    ensures forall status, confirm, paste, refusal, a, out ::
      KeysDrawn(w, status, confirm, paste, refusal, a, out) ==> out.response.Page?
    ensures forall pasted, a, again, out :: KeyTurnedAway(w, pasted, a, again, out) ==> out.response.Page?
  {
  }

  /** Both steps of the add. The answer goes on to the list exactly when the store took a
      confirmed key; a paste it could parse is shown to be confirmed; and whatever it
      would not take is said why, with the paste kept. */
  lemma KeysPostMeans(w: World, csrf: bool, key: string, confirmed: bool)
    ensures var out, pasted, a := KeysPostRun(w, csrf, key, confirmed).outcome, TrimSpace(key), w.keys(0);
      (out.response.Redirect? <==> csrf && WL.Minted(w.loaded) && confirmed && pasted != "" && KeyRead(a)) &&
      if !csrf then out == Outcome(Plain(403), [])
      else if !WL.Minted(w.loaded) then out == Outcome(WL.NotMinted(w.loaded), RL.Before(w.loaded))
      else if pasted == "" then KeysDrawn(w, 400, None, "", NothingPasted, a, out)
      else if !KeyRead(a) then KeyTurnedAway(w, pasted, a, w.keys(1), out)
      else if !confirmed then KeysDrawn(w, 200, Some((a.body.fingerprint, pasted)), "", NoSentence, w.keys(1), out)
      else out == Outcome(Redirect(303, "/keys"), RL.Before(w.loaded))
  {
    KeysStay(w);
    if WL.Minted(w.loaded) {
      var pasted := TrimSpace(key);
      KeysPageMeans(w, 400, None, "", NothingPasted, 0);
      if KeyRead(w.keys(0)) {
        KeysPageMeans(w, 200, Some((w.keys(0).body.fingerprint, pasted)), "", NoSentence, 1);
      } else {
        KeyRefusalMeans(w, pasted);
      }
    }
    hide KeysPage, KeysDrawn, KeyTurnedAway, KeyRefusal, TrimSpace;
  }

  /** A removal goes on to the list exactly when the store took it, with any success. */
  lemma KeyRemovePostMeans(w: World, csrf: bool, id: string)
    ensures var out, a := KeyRemovePostRun(w, csrf, id).outcome, w.keys(0);
      (out.response.Redirect? <==> csrf && WL.Minted(w.loaded) && Accepted(a)) &&
      if !csrf then out == Outcome(Plain(403), [])
      else if !WL.Minted(w.loaded) then out == Outcome(WL.NotMinted(w.loaded), RL.Before(w.loaded))
      else if Accepted(a) then out == Outcome(Redirect(303, "/keys"), RL.Before(w.loaded))
      else if a.Bad? && a.status == 401 then out == WL.Ended(w.loaded, RL.Before(w.loaded))
      else if a.Bad? && a.status == 404 then KeysDrawn(w, 404, None, "", NotYourKey, w.keys(1), out)
      else KeysDrawn(w, 502, None, "", KeyNotRemoved, w.keys(1), out)
  {
    KeysStay(w);
    if WL.Minted(w.loaded) {
      KeysPageMeans(w, 404, None, "", NotYourKey, 1);
      KeysPageMeans(w, 502, None, "", KeyNotRemoved, 1);
    }
    hide KeysPage, KeysDrawn, KeyTurnedAway;
  }

  /** The creation form over the names the registry answers. */
  predicate FormDrawn(w: World, status: nat, owner: string, name: string, refusal: Sentence, a: PlatformAnswer,
                      out: Outcome) {
    var ck := RL.Before(w.loaded);
    if a.Good? && a.body.SpacesBody? then
      var labels := a.body.labels;
      out == Outcome(Page(status, true,
        NewScreen(labels, if owner == "" && labels != [] then labels[0] else owner, name, refusal)), ck)
    else if a.Bad? && a.status == 401 then out == WL.Ended(w.loaded, ck)
    else if a.Bad? && a.status == 404 then out == Outcome(Page(404, true, NoCreationScreen), ck)
    else out == Outcome(Page(502, true, UnavailableScreen), ck)
  }

  lemma NewPageMeans(w: World, status: nat, owner: string, name: string, refusal: Sentence, n: nat)
    requires WL.Minted(w.loaded) && w.hasRegistry
    ensures FormDrawn(w, status, owner, name, refusal, w.registry(n),
                      NewPage(w, status, owner, name, refusal, Start(w.loaded), n))
  {
  }

  /** A creation the registry would not carry out: the form again under a sentence of
      its own for the refusals a person can act on, and a screen for the rest. */
  predicate CreationTurnedAway(w: World, owner: string, name: string, a: PlatformAnswer, out: Outcome) {
    var code := if a.Bad? then a.code else "";
    var ck, labels := RL.Before(w.loaded), w.registry(1);
    if a.Bad? && a.status == 404 then out == Outcome(Page(404, true, NoCreationScreen), ck)
    else if a.Bad? && a.status == 401 then out == WL.Ended(w.loaded, ck)
    else if code == "origo_refused" then FormDrawn(w, 409, owner, name, CreationRefused, labels, out)
    else if a.Bad? && a.status == 403 then FormDrawn(w, 403, owner, name, BadOwner, labels, out)
    else if code == "repository_limit" then FormDrawn(w, 409, owner, name, OwnerAtLimit, labels, out)
    else if a.Bad? && a.status == 409 then FormDrawn(w, 409, owner, name, NameTaken, labels, out)
    else if a.Bad? && a.status == 400 then FormDrawn(w, 400, owner, name, BadName, labels, out)
    else if code == "origo_unavailable" then out == Outcome(Page(404, true, NoCreationScreen), ck)
    else out == Outcome(Page(502, true, UnavailableScreen), ck)
  }

  lemma CreationRefusalMeans(w: World, id: Bytes, owner: string, name: string)
    requires WL.Minted(w.loaded) && w.hasRegistry && !(w.registry(0).Good? && w.registry(0).body.CreatedBody?)
    ensures CreationTurnedAway(w, owner, name, w.registry(0), Creation(w, id, owner, name).outcome)
  {
    forall status, refusal
      ensures FormDrawn(w, status, owner, name, refusal, w.registry(1),
                        NewPage(w, status, owner, name, refusal, Start(w.loaded), 1)) {
      NewPageMeans(w, status, owner, name, refusal, 1);
    }
    hide NewPage, FormDrawn, RememberOps;
  }

  /** A name that may be created is one the list and the home screen can repeat: a side of
      a repository's name that starts with a letter or a digit. */
  lemma NamesThatFit(name: string)
    ensures NameFits(name) <==> R.NamePart(name) && Alphanumeric(name[0])
    ensures NameFits(name) ==> S.PlausibleID(name)
  {
    hide S.PlausibleChar;
    assert forall i :: 0 <= i < |name| ==> name[i] in name;
  }

  /** A submitted creation, in the order things are looked at. */
  lemma NewPostMeans(w: World, csrf: bool, form: Option<(string, string)>, id: Bytes)
    ensures var out := NewPostRun(w, csrf, form, id).outcome;
      var owner := if form.None? then "" else TrimSpace(form.value.0);
      var name := if form.None? then "" else TrimSpace(form.value.1);
      if !csrf then out == Outcome(Plain(403), [])
      else if !w.hasRegistry then out == Outcome(Page(404, w.loaded.Live?, NoCreationScreen), RL.Before(w.loaded))
      else if !WL.Minted(w.loaded) then out == Outcome(WL.NotMinted(w.loaded), RL.Before(w.loaded))
      else if owner == "" || !NameFits(name) then FormDrawn(w, 400, owner, name, BadName, w.registry(0), out)
      else if w.registry(0).Good? && w.registry(0).body.CreatedBody? then
        var made := w.registry(0).body.repo;
        out == Outcome(Redirect(303, made.Address()), RL.Opened(w.loaded, w.cookie, made))
      else CreationTurnedAway(w, owner, name, w.registry(0), out)
  {
    var owner := if form.None? then "" else TrimSpace(form.value.0);
    var name := if form.None? then "" else TrimSpace(form.value.1);
    if WL.Minted(w.loaded) && w.hasRegistry {
      NewPageMeans(w, 400, owner, name, BadName, 0);
      CreationAnswers(w, id, owner, name);
      if !(w.registry(0).Good? && w.registry(0).body.CreatedBody?) {
        CreationRefusalMeans(w, id, owner, name);
      }
    }
    hide NewPage, FormDrawn, CreationTurnedAway, Creation, TrimSpace, NameFits, NameURL, S.PlausibleID, S.Remembered,
         S.RecentOf;
  }

  /** The form as it is asked for. */
  lemma NewMeans(w: World, owner: string)
    ensures var out := NewRun(w, owner).outcome;
      if !w.hasRegistry then out == Outcome(Page(404, w.loaded.Live?, NoCreationScreen), RL.Before(w.loaded))
      else if !WL.Minted(w.loaded) then out == Outcome(WL.NotMinted(w.loaded), RL.Before(w.loaded))
      else FormDrawn(w, 200, owner, "", NoSentence, w.registry(0), out)
  {
    if WL.Minted(w.loaded) && w.hasRegistry {
      NewPageMeans(w, 200, owner, "", NoSentence, 0);
    }
    hide NewPage, FormDrawn;
  }
}
