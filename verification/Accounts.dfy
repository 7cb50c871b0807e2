/** The screens of an account: creating a repository, the SSH keys, and signing in
    and out. */
module Accounts {
  import opened Wrappers
  import opened Text
  import opened Url
  import opened Protocol
  import opened Writing
  import S = Session
  import SL = SessionLaws

  const AT_THE_LIMIT := "repository_limit"
  const ALREADY_YOURS := "key_already_added"
  const ALREADY_TAKEN := "key_already_registered"
  const INVALID_KEY := "invalid_public_key"

  // ---- creating a repository ----

  /** A name: a letter or a digit, then up to 63 letters, digits, dots, underscores and dashes. */
  predicate NameFits(name: string) {
    0 < |name| <= 64 && Alphanumeric(name[0]) && forall c <- name :: S.PlausibleChar(c)
  }

  function NoCreation(w: World, ck: seq<SL.Op>): Outcome {
    w.Shows(404, NoCreationScreen, ck)
  }

  /** The form, with the names this person may create under. */
  function NewPage(w: World, status: nat, owner: string, name: string, refusal: Sentence, ck: seq<SL.Op>,
                   n: nat): Outcome {
    var r := w.Answers(Namespaces, n);
    if Succeeded(r) && r.answer.body.SpacesBody? then
      var labels := r.answer.body.labels;
      w.Shows(status, NewScreen(labels, if owner == "" && labels != [] then labels[0] else owner, name, refusal), ck)
    else if IsDenied(r) then SignedOutBy(w, ck)
    else if r.NoRegistry? then NoCreation(w, ck)
    else w.Shows(502, UnavailableScreen, ck)
  }

  function NewRun(w: World, owner: string): Run {
    var ck := Start(w.loaded);
    if !w.hasRegistry then Run(NoCreation(w, ck), [])
    else if w.Reads().platform == NoToken then Run(Outcome(NoPlatform(w.Reads()), ck), [])
    else Run(NewPage(w, 200, owner, "", NoSentence, ck, 0), [OfRegistry(Namespaces)])
  }

  /** What a refused creation answers: a status and a sentence when the form is
      shown again, and another screen otherwise. */
  function Retry(r: RegistryResult): Option<(nat, Sentence)> {
    if r.NoRegistry? then None
    else if CodeOf(r.answer) == ORIGO_REFUSED then Some((409, CreationRefused))
    else if Withheld(r.answer) then Some((403, BadOwner))
    else if CodeOf(r.answer) == AT_THE_LIMIT then Some((409, OwnerAtLimit))
    else if Conflicts(r.answer) then Some((409, NameTaken))
    else if Invalid(r.answer) then Some((400, BadName))
    else None
  }

  function CreateRefusal(w: World, owner: string, name: string, ck: seq<SL.Op>, r: RegistryResult): Run {
    if IsDenied(r) then Run(SignedOutBy(w, ck), [])
    else if Retry(r).Some? then
      Run(NewPage(w, Retry(r).value.0, owner, name, Retry(r).value.1, ck, 1), [OfRegistry(Namespaces)])
    else if r.NoRegistry? || CodeOf(r.answer) == ORIGO_UNAVAILABLE then Run(NoCreation(w, ck), [])
    else Run(w.Shows(502, UnavailableScreen, ck), [])
  }

  function Creation(w: World, id: Bytes, owner: string, name: string): Run {
    var ck := Start(w.loaded);
    var r := w.Answers(Create(id, owner, name), 0);
    if Succeeded(r) && r.answer.body.CreatedBody? then
      var repo := r.answer.body.repo;
      Run(Outcome(Redirect(303, repo.Address()), ck + RememberOps(w.cookie, repo.id, repo.Name())),
          [OfRegistry(Create(id, owner, name))])
    else
      var after := CreateRefusal(w, owner, name, ck, r);
      Run(after.outcome, [OfRegistry(Create(id, owner, name))] + after.asks)
  }

  /** The form as it is read: an owner and a name, when it can be read at all. */
  function NewPostRun(w: World, csrf: bool, form: Option<(string, string)>, id: Bytes): Run {
    var ck := Start(w.loaded);
    var owner := if form.None? then "" else TrimSpace(form.value.0);
    var name := if form.None? then "" else TrimSpace(form.value.1);
    if !csrf then EXPIRED
    else if !w.hasRegistry then Run(NoCreation(w, ck), [])
    else if w.Reads().platform == NoToken then Run(Outcome(NoPlatform(w.Reads()), ck), [])
    else if owner == "" || !NameFits(name)
    then Run(NewPage(w, 400, owner, name, BadName, ck, 0), [OfRegistry(Namespaces)])
    else Creation(w, id, owner, name)
  }

  // ---- keys ----

  predicate Listed(a: PlatformAnswer) { a.Good? && a.body.KeysBody? }
  predicate KeyRead(a: PlatformAnswer) { a.Good? && a.body.KeyBody? }

  /** The screen, with the list just read. */
  function KeysPage(w: World, status: nat, confirm: Option<(string, string)>, removing: string, paste: string,
                    refusal: Sentence, ck: seq<SL.Op>, n: nat): Outcome {
    var a := w.keys(n);
    if Listed(a) then
      if removing == "" then w.Shows(status, KeysScreen(Some(a.body.ids), confirm, None, paste, refusal), ck)
      else if removing in a.body.ids
      then w.Shows(status, KeysScreen(Some(a.body.ids), confirm, Some(removing), paste, refusal), ck)
      else w.Shows(404, KeysScreen(Some(a.body.ids), confirm, None, paste, NotYourKey), ck)
    else if Denied(a) then SignedOutBy(w, ck)
    else w.Shows(if status == 200 then 502 else status, KeysScreen(None, None, None, paste, refusal), ck)
  }

  /** `removing` is empty on the list itself. */
  function KeysRun(w: World, removing: string): Run {
    var ck := Start(w.loaded);
    if w.Reads().platform == NoToken then Run(Outcome(NoPlatform(w.Reads()), ck), [])
    else Run(KeysPage(w, 200, None, removing, "", NoSentence, ck, 0), [OfKeys(ListKeys)])
  }

  function KeySentence(a: PlatformAnswer): (nat, Sentence) {
    var code := CodeOf(a);
    if code == ALREADY_YOURS then (409, AlreadyYours)
    else if code == ALREADY_TAKEN then (409, AlreadyTaken)
    else if code == INVALID_KEY then (400, InvalidKey)
    else if Withheld(a) then (502, KeysNotEnabled)
    else (502, KeyNotAdded)
  }

  function KeyRefusal(w: World, pasted: string, a: PlatformAnswer): Run {
    var ck := Start(w.loaded);
    if Denied(a) then Run(SignedOutBy(w, ck), [])
    else Run(KeysPage(w, KeySentence(a).0, None, "", pasted, KeySentence(a).1, ck, 1), [OfKeys(ListKeys)])
  }

  function Before(op: KeysOp, after: Run): Run {
    Run(after.outcome, [OfKeys(op)] + after.asks)
  }

  function AddRun(w: World, pasted: string, confirmed: bool): Run {
    var ck := Start(w.loaded);
    if pasted == "" then Run(KeysPage(w, 400, None, "", "", NothingPasted, ck, 0), [OfKeys(ListKeys)])
    else if !confirmed then
      Before(ParseKey(pasted),
        if KeyRead(w.keys(0))
        then Run(KeysPage(w, 200, Some((w.keys(0).body.fingerprint, pasted)), "", "", NoSentence, ck, 1),
            [OfKeys(ListKeys)])
        else KeyRefusal(w, pasted, w.keys(0)))
    else
      Before(AddKey(pasted),
        if KeyRead(w.keys(0)) then Run(Outcome(Redirect(303, "/keys"), ck), []) else KeyRefusal(w, pasted, w.keys(0)))
  }

  /** Both steps of the add: a paste is parsed and shown, a confirmation stores it. */
  function KeysPostRun(w: World, csrf: bool, key: string, confirmed: bool): Run {
    if !csrf then EXPIRED
    else if w.Reads().platform == NoToken then Run(Outcome(NoPlatform(w.Reads()), Start(w.loaded)), [])
    else AddRun(w, TrimSpace(key), confirmed)
  }

  function RemovalAnswer(w: World, a: PlatformAnswer): Run {
    var ck := Start(w.loaded);
    if Accepted(a) then Run(Outcome(Redirect(303, "/keys"), ck), [])
    else if Denied(a) then Run(SignedOutBy(w, ck), [])
    else if NotThere(a) then Run(KeysPage(w, 404, None, "", "", NotYourKey, ck, 1), [OfKeys(ListKeys)])
    else Run(KeysPage(w, 502, None, "", "", KeyNotRemoved, ck, 1), [OfKeys(ListKeys)])
  }

  function KeyRemovePostRun(w: World, csrf: bool, id: string): Run {
    if !csrf then EXPIRED
    else if w.Reads().platform == NoToken then Run(Outcome(NoPlatform(w.Reads()), Start(w.loaded)), [])
    else Before(RemoveKey(id), RemovalAnswer(w, w.keys(0)))
  }

  // ---- the screens as the source writes them ----

  method RenderNew(x: Exchange, status: nat, owner: string, name: string, refusal: Sentence)
    requires x.Valid() && x.response == None && x.reader.platform != NoToken && x.hasRegistry
    modifies x`trace, x`registryAsked, x`cookies, x`response
    ensures x.Valid() && x.response.Some?
    ensures Left(x) == Run(NewPage(Found(x), status, owner, name, refusal, old(x.cookies), old(x.registryAsked)),
                           old(Asks(x.trace)) + [OfRegistry(Namespaces)])
  {
    hide TraceOk, Asks, Clearings, Reasons, ReadSession;
    var r := x.CallRegistry(x.reader.platform, Namespaces);
    assert Succeeded(r) ==> r.answer.body.SpacesBody?;
    assert IsDenied(r) ==> RefusedCredential(x.trace[|x.trace| - 1]);
    assert r == Found(x).Answers(Namespaces, old(x.registryAsked));
    hide RegistryResultOf, Fitted, NotThere, RefusedCredential, World.Answers, IsDenied, SignInPage;
    if Succeeded(r) {
      var labels := r.answer.body.labels;
      var chosen := owner;
      if chosen == "" && |labels| > 0 {
        chosen := labels[0];
      }
      x.Render(status, NewScreen(labels, chosen, name, refusal));
    } else if IsDenied(r) {
      x.Clear();
      x.SignIn(401, x.reader.fault);
    } else if r.NoRegistry? {
      x.Render(404, NoCreationScreen);
    } else {
      x.Render(502, UnavailableScreen);
    }
  }

  method HandleNew(x: Exchange, owner: string)
    requires x.Idle()
    modifies x
    ensures x.Valid() && x.response.Some? && x.cache == old(x.cache)
    ensures Left(x) == NewRun(Found(x), owner)
  {
    hide TraceOk, Asks, Clearings, Reasons, ReadSession, NewPage;
    x.Begin();
    if !x.hasRegistry {
      x.Render(404, NoCreationScreen);
      return;
    }
    var ok := x.RequirePlatform();
    if !ok {
      return;
    }
    RenderNew(x, 200, owner, "", NoSentence);
  }

  method CreateRefused(x: Exchange, owner: string, name: string, r: RegistryResult)
    requires x.Valid() && x.response == None && x.reader.platform != NoToken && x.hasRegistry && x.registryAsked == 1
    requires !Succeeded(r) && x.cookies == Start(x.loaded)
    requires IsDenied(r) ==> x.trace != [] && RefusedCredential(x.trace[|x.trace| - 1])
    modifies x`trace, x`registryAsked, x`cookies, x`response
    ensures x.Valid() && x.response.Some?
    ensures var after := CreateRefusal(Found(x), owner, name, Start(x.loaded), r);
            Left(x) == Run(after.outcome, old(Asks(x.trace)) + after.asks)
  {
    hide TraceOk, Asks, Clearings, Reasons, ReadSession, NewPage, Start;
    if IsDenied(r) {
      x.Clear();
      x.SignIn(401, x.reader.fault);
    } else if r.Answered? && CodeOf(r.answer) == ORIGO_REFUSED {
      RenderNew(x, 409, owner, name, CreationRefused);
    } else if r.Answered? && Withheld(r.answer) {
      RenderNew(x, 403, owner, name, BadOwner);
    } else if r.Answered? && CodeOf(r.answer) == AT_THE_LIMIT {
      RenderNew(x, 409, owner, name, OwnerAtLimit);
    } else if r.Answered? && Conflicts(r.answer) {
      RenderNew(x, 409, owner, name, NameTaken);
    } else if r.Answered? && Invalid(r.answer) {
      RenderNew(x, 400, owner, name, BadName);
    } else if r.NoRegistry? || CodeOf(r.answer) == ORIGO_UNAVAILABLE {
      x.Render(404, NoCreationScreen);
    } else {
      x.Render(502, UnavailableScreen);
    }
  }

  /** The registry is asked once, with an identifier made here. */
  method HandleNewPost(x: Exchange, csrf: bool, form: Option<(string, string)>, id: Bytes)
    requires x.Idle()
    modifies x
    ensures x.Valid() && x.response.Some? && x.cache == old(x.cache)
    ensures Left(x) == NewPostRun(Found(x), csrf, form, id)
  {
    assert Asks([]) == [];
    assert TrimSpace("") == "";
    hide TraceOk, Asks, Clearings, Reasons, ReadSession, NewPage, Start, Creation, TrimSpace, NameFits;
    if !csrf {
      x.response := Some(Plain(403));
      return;
    }
    x.Begin();
    if !x.hasRegistry {
      x.Render(404, NoCreationScreen);
      return;
    }
    var ok := x.RequirePlatform();
    if !ok {
      return;
    }
    if form.None? {
      RenderNew(x, 400, "", "", BadName);
      return;
    }
    CheckAndCreate(x, id, TrimSpace(form.value.0), TrimSpace(form.value.1));
  }

  method CheckAndCreate(x: Exchange, id: Bytes, owner: string, name: string)
    requires x.Begun() && x.reader.platform != NoToken && x.hasRegistry
    modifies x`trace, x`registryAsked, x`cookies, x`response
    ensures x.Valid() && x.response.Some?
    ensures Left(x) ==
            if owner == "" || !NameFits(name)
            then Run(NewPage(Found(x), 400, owner, name, BadName, Start(x.loaded), 0), [OfRegistry(Namespaces)])
            else Creation(Found(x), id, owner, name)
  {
    hide TraceOk, Asks, Clearings, Reasons, ReadSession, NewPage, Start, Creation, NameFits;
    if owner == "" || !NameFits(name) {
      RenderNew(x, 400, owner, name, BadName);
      return;
    }
    CreateAndGo(x, id, owner, name);
  }

  method CreateAndGo(x: Exchange, id: Bytes, owner: string, name: string)
    requires x.Begun() && x.reader.platform != NoToken && x.hasRegistry
    modifies x`trace, x`registryAsked, x`cookies, x`response
    ensures x.Valid() && x.response.Some?
    ensures Left(x) == Creation(Found(x), id, owner, name)
  {
    hide TraceOk, Asks, Clearings, Reasons, ReadSession, CreateRefusal, Start, RememberOps;
    var r := x.CallRegistry(x.reader.platform, Create(id, owner, name));
    if !Succeeded(r) {
      CreateRefused(x, owner, name, r);
      return;
    }
    var repo := r.answer.body.repo;
    x.Remember(repo.id, repo.Name());
    x.response := Some(Redirect(303, repo.Address()));
  }

  // The key a removal asks about, in the list just read.
  method PickRemoving(ids: seq<string>, removing: string) returns (found: bool)
    ensures found <==> removing in ids
  {
    for i := 0 to |ids|
      invariant removing !in ids[..i]
    {
      if ids[i] == removing {
        return true;
      }
    }
    found := false;
  }

  method RenderKeys(x: Exchange, status: nat, confirm: Option<(string, string)>, removing: string, paste: string,
                    refusal: Sentence)
    requires x.Valid() && x.response == None && x.reader.platform != NoToken
    modifies x`trace, x`keysAsked, x`cookies, x`response
    ensures x.Valid() && x.response.Some?
    ensures Left(x) ==
            Run(KeysPage(Found(x), status, confirm, removing, paste, refusal, old(x.cookies), old(x.keysAsked)),
                old(Asks(x.trace)) + [OfKeys(ListKeys)])
  {
    hide TraceOk, Asks, Clearings, Reasons, ReadSession;
    var a := x.CallKeys(x.reader.platform, ListKeys);
    if Listed(a) {
      var found := false;
      if removing != "" {
        found := PickRemoving(a.body.ids, removing);
        if !found {
          x.Render(404, KeysScreen(Some(a.body.ids), confirm, None, paste, NotYourKey));
          return;
        }
      }
      x.Render(status, KeysScreen(Some(a.body.ids), confirm, if found then Some(removing) else None, paste, refusal));
    } else if Denied(a) {
      x.Clear();
      x.SignIn(401, x.reader.fault);
    } else {
      x.Render(if status == 200 then 502 else status, KeysScreen(None, None, None, paste, refusal));
    }
  }

  /** The list, and the page that asks before a removal. */
  method HandleKeys(x: Exchange, removing: string)
    requires x.Idle()
    modifies x
    ensures x.Valid() && x.response.Some? && x.cache == old(x.cache)
    ensures Left(x) == KeysRun(Found(x), removing)
  {
    hide TraceOk, Asks, Clearings, Reasons, ReadSession, KeysPage;
    x.Begin();
    var ok := x.RequirePlatform();
    if !ok {
      return;
    }
    RenderKeys(x, 200, None, removing, "", NoSentence);
  }

  method RefuseKey(x: Exchange, pasted: string, a: PlatformAnswer)
    requires x.Valid() && x.response == None && x.reader.platform != NoToken && x.keysAsked == 1
    requires x.cookies == Start(x.loaded)
    requires Denied(a) ==> x.trace != [] && RefusedCredential(x.trace[|x.trace| - 1])
    modifies x`trace, x`keysAsked, x`cookies, x`response
    ensures x.Valid() && x.response.Some?
    ensures var after := KeyRefusal(Found(x), pasted, a);
            Left(x) == Run(after.outcome, old(Asks(x.trace)) + after.asks)
  {
    hide TraceOk, Asks, Clearings, Reasons, ReadSession, KeysPage, Start;
    if Denied(a) {
      x.Clear();
      x.SignIn(401, x.reader.fault);
      return;
    }
    var status, sentence := 400, InvalidKey;
    if CodeOf(a) == ALREADY_YOURS {
      status, sentence := 409, AlreadyYours;
    } else if CodeOf(a) == ALREADY_TAKEN {
      status, sentence := 409, AlreadyTaken;
    } else if CodeOf(a) == INVALID_KEY {
      sentence := InvalidKey;
    } else if Withheld(a) {
      status, sentence := 502, KeysNotEnabled;
    } else {
      status, sentence := 502, KeyNotAdded;
    }
    RenderKeys(x, status, None, "", pasted, sentence);
  }

  method HandleKeysPost(x: Exchange, csrf: bool, key: string, confirmed: bool)
    requires x.Idle()
    modifies x
    ensures x.Valid() && x.response.Some? && x.cache == old(x.cache)
    ensures Left(x) == KeysPostRun(Found(x), csrf, key, confirmed)
  {
    assert Asks([]) == [];
    hide TraceOk, Asks, Clearings, Reasons, ReadSession, KeysPage, Start, TrimSpace, KeyRefusal;
    if !csrf {
      x.response := Some(Plain(403));
      return;
    }
    x.Begin();
    var ok := x.RequirePlatform();
    if !ok {
      return;
    }
    var pasted := TrimSpace(key);
    if pasted == "" {
      RenderKeys(x, 400, None, "", "", NothingPasted);
      return;
    }
    if !confirmed {
      ShowParsed(x, pasted);
      return;
    }
    StoreKey(x, pasted);
  }

  method ShowParsed(x: Exchange, pasted: string)
    requires x.Begun() && x.reader.platform != NoToken && pasted != ""
    modifies x`trace, x`keysAsked, x`cookies, x`response
    ensures x.Valid() && x.response.Some?
    ensures Left(x) == AddRun(Found(x), pasted, false)
  {
    hide TraceOk, Asks, Clearings, Reasons, ReadSession, KeysPage, Start, KeyRefusal;
    var parsed := x.CallKeys(x.reader.platform, ParseKey(pasted));
    if !KeyRead(parsed) {
      RefuseKey(x, pasted, parsed);
      return;
    }
    RenderKeys(x, 200, Some((parsed.body.fingerprint, pasted)), "", "", NoSentence);
  }

  method StoreKey(x: Exchange, pasted: string)
    requires x.Begun() && x.reader.platform != NoToken && pasted != ""
    modifies x`trace, x`keysAsked, x`cookies, x`response
    ensures x.Valid() && x.response.Some?
    ensures Left(x) == AddRun(Found(x), pasted, true)
  {
    hide TraceOk, Asks, Clearings, Reasons, ReadSession, KeysPage, Start, KeyRefusal;
    var added := x.CallKeys(x.reader.platform, AddKey(pasted));
    if !KeyRead(added) {
      RefuseKey(x, pasted, added);
      return;
    }
    x.response := Some(Redirect(303, "/keys"));
  }

  method HandleKeyRemovePost(x: Exchange, csrf: bool, id: string)
    requires x.Idle()
    modifies x
    ensures x.Valid() && x.response.Some? && x.cache == old(x.cache)
    ensures Left(x) == KeyRemovePostRun(Found(x), csrf, id)
  {
    assert Asks([]) == [];
    hide TraceOk, Asks, Clearings, Reasons, ReadSession, KeysPage, Start;
    if !csrf {
      x.response := Some(Plain(403));
      return;
    }
    x.Begin();
    var ok := x.RequirePlatform();
    if !ok {
      return;
    }
    RemoveAndReturn(x, id);
  }

  method RemoveAndReturn(x: Exchange, id: string)
    requires x.Begun() && x.reader.platform != NoToken
    modifies x`trace, x`keysAsked, x`cookies, x`response
    ensures x.Valid() && x.response.Some?
    ensures Left(x) == Before(RemoveKey(id), RemovalAnswer(Found(x), x.keys(0)))
  {
    hide TraceOk, Asks, Clearings, Reasons, ReadSession, KeysPage, Start;
    var a := x.CallKeys(x.reader.platform, RemoveKey(id));
    if !Accepted(a) {
      if Denied(a) {
        x.Clear();
        x.SignIn(401, x.reader.fault);
        return;
      }
      if NotThere(a) {
        RenderKeys(x, 404, None, "", "", NotYourKey);
        return;
      }
      RenderKeys(x, 502, None, "", "", KeyNotRemoved);
      return;
    }
    x.response := Some(Redirect(303, "/keys"));
  }

  // ---- signing in and out ----

  /** The front door sends a reader with a token on, and reads nothing else. */
  method HandleSignIn(x: Exchange, to: string)
    requires x.Idle()
    modifies x
    ensures x.Valid() && x.response.Some? && x.cache == old(x.cache)
    ensures var front :=
              if x.reader.origo != NoToken then Redirect(302, to) else SignInPage(x.reader, 200, x.reader.fault);
            Left(x) == Run(Outcome(front, Start(x.loaded)), [])
  {
    hide TraceOk, Asks, Clearings, Reasons, ReadSession, Start;
    x.Begin();
    if x.reader.origo != NoToken {
      x.response := Some(Redirect(302, to));
      return;
    }
    x.SignIn(200, x.reader.fault);
  }

  /** Ends the session here, and goes on to `to`; nothing is read. */
  method HandleSignOut(x: Exchange, csrf: bool, to: string)
    requires x.Idle()
    modifies x
    ensures x.response == Some(if csrf then Redirect(303, to) else Plain(403)) && x.cache == old(x.cache)
    ensures x.cookies == (if csrf then [SL.Clear] else []) && x.trace == (if csrf then [SignedOut] else [])
  {
    if !csrf {
      x.response := Some(Plain(403));
      return;
    }
    x.trace, x.cookies := [SignedOut], [SL.Clear];
    x.response := Some(Redirect(303, to));
  }

  /** The issuer's own notice; a browser that says what it loads the address for
      is heard only when that is a frame. */
  method LogoutNotify(x: Exchange, destination: string)
    requires x.Idle()
    modifies x
    ensures var framed := destination in ["", "iframe", "frame"];
      x.response == Some(Plain(if framed then 200 else 400)) && x.cache == old(x.cache) &&
      x.cookies == (if framed then [SL.Clear] else []) && x.trace == (if framed then [SignedOut] else [])
  {
    if destination != "" && destination != "iframe" && destination != "frame" {
      x.response := Some(Plain(400));
      return;
    }
    x.trace, x.cookies := [SignedOut], [SL.Clear];
    x.response := Some(Plain(200));
  }
}
