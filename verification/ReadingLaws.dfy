/** What each reading screen answers, said of the answers it was given: their statuses
    and their payloads, and which of them failed first. */
module ReadingLaws {
  import opened Wrappers
  import opened Text
  import opened Url
  import opened Protocol
  import opened Reading
  import S = Session
  import SL = SessionLaws
  import V = Visibility
  import Li = Listing

  // ---- what a failed answer comes to ----

  /** A token minted for Origo was there to send. */
  predicate Sent(l: Loaded) { l.Live? && l.origoMinted }

  /** The list operations behind an answer before a repository is opened, and after. */
  function Before(l: Loaded): seq<SL.Op> {
    if l == LoadFailed then [SL.Clear] else []
  }

  function Opened(l: Loaded, cookie: string, repo: Repo): seq<SL.Op> {
    Before(l) +
    if S.PlausibleID(repo.id)
    then [SL.Write(S.Remembered(S.RecentOf(cookie), repo.id, repo.owner + "/" + repo.slug))]
    else []
  }

  function SignedOut(l: Loaded, status: nat): Response {
    Page(status, false, SignInScreen(Sent(l), l.Live? && !l.origoMinted))
  }

  /** 401 asks the reader to sign in, and ends the session a token was sent from; 403,
      404 and 410 are one absence; no answer, no status and the 500s are an outage;
      and anything else is a fault here. */
  predicate FailsAs(l: Loaded, within: Option<Repo>, a: Answer, ck: seq<SL.Op>, out: Outcome) {
    if a == Refused(401) then out == Outcome(SignedOut(l, 401), ck + if Sent(l) then [SL.Clear] else [])
    else if a.Refused? && a.status in {403, 404, 410} then
      out == Outcome(Page(404, l.Live?, if within.Some? then NotFoundInScreen(within.value) else NotFoundScreen), ck)
    else if a == Unreachable || (a.Refused? && (a.status == 0 || a.status >= 500)) then
      out == Outcome(Page(502, l.Live?, UnavailableScreen), ck)
    else out == Outcome(Page(502, l.Live?, BrokenScreen), ck)
  }

  /** The calls of a screen, in order; a call is made when those before it were answered. */
  datatype Calls = NoMore | Then(answer: Answer, kind: Kind, rest: Calls)

  predicate AllOk(calls: Calls) {
    calls.Then? ==> Ok(calls.answer, calls.kind) && AllOk(calls.rest)
  }

  /** The first call that failed decides the answer. */
  predicate FirstDecides(l: Loaded, within: Option<Repo>, calls: Calls, ck: seq<SL.Op>, out: Outcome) {
    calls.Then? ==>
      if Ok(calls.answer, calls.kind) then FirstDecides(l, within, calls.rest, ck, out)
      else FailsAs(l, within, calls.answer, ck, out)
  }

  /** The repository is read first and by itself; what is read after it fails inside it. */
  predicate Decided(l: Loaded, cookie: string, o: Answers, calls: Calls, out: Outcome) {
    (!Ok(o(0), ARepo) ==> FailsAs(l, None, o(0), Before(l), out)) &&
    (Ok(o(0), ARepo) ==>
       var repo := o(0).payload.repo;
       FirstDecides(l, Some(repo), calls, Opened(l, cookie, repo), out))
  }

  /** Everything the screen reads could be read. */
  predicate Reached(o: Answers, calls: Calls) {
    Ok(o(0), ARepo) && AllOk(calls)
  }

  predicate Succeeds(out: Outcome) {
    out.response.Bytes? || (out.response.Page? && out.response.status == 200)
  }

  /** The page of the repository opened, with the list's new front. */
  predicate Draws(l: Loaded, cookie: string, repo: Repo, screen: Screen, out: Outcome) {
    out == Outcome(Page(200, l.Live?, screen), Opened(l, cookie, repo))
  }

  lemma FailedMeans(l: Loaded, repo: Repo, a: Answer, k: Kind, ck: seq<SL.Op>)
    requires !Ok(a, k)
    ensures FailsAs(l, None, a, ck, Failed(ReadSession(l), ck, Classify(a, k)))
    ensures FailsAs(l, Some(repo), a, ck, Misses(l, repo, ck, Classify(a, k)))
    ensures !Succeeds(Failed(ReadSession(l), ck, Classify(a, k))) && !Succeeds(Misses(l, repo, ck, Classify(a, k)))
  {
    hide Classify;
  }

  lemma OpenMeans(l: Loaded, cookie: string, o: Answers)
    ensures match Open(l, cookie, o) {
      case Stopped(out) => !Ok(o(0), ARepo) && FailsAs(l, None, o(0), Before(l), out) && !Succeeds(out)
      case At(repo, ck) => Ok(o(0), ARepo) && repo == o(0).payload.repo && ck == Opened(l, cookie, repo)
    }
  {
    if !Ok(o(0), ARepo) {
      FailedMeans(l, Repo("", "", "", "", ""), o(0), ARepo, Start(l));
    }
    hide Classify, Failed, S.PlausibleID, S.Remembered, S.RecentOf, FailsAs, Succeeds;
  }

  lemma OneCall(l: Loaded, repo: Repo, a: Answer, k: Kind, rest: Calls, ck: seq<SL.Op>, out: Outcome)
    ensures AllOk(Then(a, k, rest)) <==> Ok(a, k) && AllOk(rest)
    ensures FirstDecides(l, Some(repo), Then(a, k, rest), ck, out) <==>
      if Ok(a, k) then FirstDecides(l, Some(repo), rest, ck, out) else FailsAs(l, Some(repo), a, ck, out)
    ensures !Ok(a, k) && out == Misses(l, repo, ck, Classify(a, k)) ==>
      FailsAs(l, Some(repo), a, ck, out) && !Succeeds(out)
    ensures AllOk(NoMore) && FirstDecides(l, Some(repo), NoMore, ck, out)
  {
    hide Classify, Ok, FailsAs, Misses, Succeeds;
    if !Ok(a, k) {
      FailedMeans(l, repo, a, k, ck);
    }
  }

  // ---- the screens of a repository ----

  /** The branches and the tags, each in order and as often as sent. */
  predicate InOrder(names: seq<string>, sent: seq<string>) {
    Li.Sorted(names) && multiset(names) == multiset(sent)
  }

  function RefCalls(o: Answers, rest: Calls): Calls {
    Then(o(1), TheRefs, Then(o(2), TheRefs, rest))
  }

  lemma RefsMean(o: Answers)
    ensures match RefsAt(o, 1) {
      case Missed(r) =>
        (!Ok(o(1), TheRefs) && r == Classify(o(1), TheRefs)) ||
        (Ok(o(1), TheRefs) && !Ok(o(2), TheRefs) && r == Classify(o(2), TheRefs))
      case Both(b, t, cut) =>
        Ok(o(1), TheRefs) && Ok(o(2), TheRefs) &&
        InOrder(b, o(1).payload.refs) && InOrder(t, o(2).payload.refs) && (b == [] <==> o(1).payload.refs == []) &&
        cut == (o(1).payload.cut || o(2).payload.cut)
    }
  {
    hide Classify, Li.Sorted, Li.SortNames;
    if Ok(o(1), TheRefs) && Ok(o(2), TheRefs) {
      Li.NamesAreSorted(o(1).payload.refs);
      Li.NamesAreSorted(o(2).payload.refs);
      assert |Li.SortNames(o(1).payload.refs)| == |multiset(o(1).payload.refs)|;
    }
  }

  /** References: both lists, whole or cut. */
  lemma RefsScreenMeans(l: Loaded, cookie: string, o: Answers)
    ensures var out, calls := RefsOutcome(l, cookie, o), RefCalls(o, NoMore);
      Decided(l, cookie, o, calls, out) && (Succeeds(out) <==> Reached(o, calls)) &&
      (Reached(o, calls) ==>
         Ok(o(1), TheRefs) && Ok(o(2), TheRefs) &&
         exists b, t :: InOrder(b, o(1).payload.refs) && InOrder(t, o(2).payload.refs) &&
           Draws(l, cookie, o(0).payload.repo,
             RefsScreen(o(0).payload.repo, b, t, o(1).payload.cut || o(2).payload.cut), out))
  {
    var out := RefsOutcome(l, cookie, o);
    OpenMeans(l, cookie, o);
    RefsMean(o);
    if Ok(o(0), ARepo) {
      var repo := o(0).payload.repo;
      OneCall(l, repo, o(1), TheRefs, Then(o(2), TheRefs, NoMore), Opened(l, cookie, repo), out);
      OneCall(l, repo, o(2), TheRefs, NoMore, Opened(l, cookie, repo), out);
    }
    hide Open, RefsAt, Classify, FailsAs, Misses, Opened, InOrder, Ok, AllOk, FirstDecides;
  }

  /** The log: one call, and its page of commits. */
  lemma LogScreenMeans(l: Loaded, cookie: string, o: Answers)
    ensures var out, calls := LogOutcome(l, cookie, o), Then(o(1), ALog, NoMore);
      Decided(l, cookie, o, calls, out) && (Succeeds(out) <==> Reached(o, calls)) &&
      (Reached(o, calls) ==>
         Ok(o(1), ALog) &&
         var repo := o(0).payload.repo;
         Draws(l, cookie, repo, LogScreen(repo, o(1).payload.commits, o(1).payload.next), out))
  {
    var out := LogOutcome(l, cookie, o);
    OpenMeans(l, cookie, o);
    if Ok(o(0), ARepo) {
      var repo := o(0).payload.repo;
      OneCall(l, repo, o(1), ALog, NoMore, Opened(l, cookie, repo), out);
    }
    hide Open, Classify, FailsAs, Misses, Opened, AllOk, FirstDecides;
  }

  // A directory is read with one call; in a repository with no head the references
  // say first whether there is anything to read.

  /** The answer the entries come in. */
  function TreeAnswer(o: Answers): Answer
    requires Ok(o(0), ARepo)
  {
    if o(0).payload.repo.head != "" then o(1) else o(3)
  }

  function TreeCalls(o: Answers): Calls
    requires Ok(o(0), ARepo)
  {
    if o(0).payload.repo.head != "" then Then(o(1), ATree, NoMore)
    else RefCalls(o, if NoBranches(o) then NoMore else Then(o(3), ATree, NoMore))
  }

  predicate NoBranches(o: Answers) {
    Ok(o(1), TheRefs) && o(1).payload.refs == []
  }

  /** A tree: its entries, or that nothing has been committed. */
  lemma TreeScreenMeans(l: Loaded, cookie: string, o: Answers)
    requires Ok(o(0), ARepo)
    ensures var out, calls, repo := TreeOutcome(l, cookie, o), TreeCalls(o), o(0).payload.repo;
      Decided(l, cookie, o, calls, out) && (Succeeds(out) <==> Reached(o, calls)) &&
      (Reached(o, calls) ==>
         if repo.head == "" && NoBranches(o) then Draws(l, cookie, repo, TreeScreen(repo, true, [], ""), out)
         else
           Ok(TreeAnswer(o), ATree) &&
           var p := TreeAnswer(o).payload;
           Draws(l, cookie, repo, TreeScreen(repo, false, p.entries, p.next), out))
  {
    var out, repo := TreeOutcome(l, cookie, o), o(0).payload.repo;
    var ck := Opened(l, cookie, repo);
    OpenMeans(l, cookie, o);
    RefsMean(o);
    var last := if repo.head == "" && NoBranches(o) then NoMore else Then(TreeAnswer(o), ATree, NoMore);
    OneCall(l, repo, o(1), TheRefs, Then(o(2), TheRefs, last), ck, out);
    OneCall(l, repo, o(2), TheRefs, last, ck, out);
    OneCall(l, repo, TreeAnswer(o), ATree, NoMore, ck, out);
    hide Open, RefsAt, Classify, FailsAs, Misses, Opened, InOrder, Ok, AllOk, FirstDecides;
  }

  /** And without the repository, what it says of that. */
  lemma TreeNeedsRepo(l: Loaded, cookie: string, o: Answers)
    requires !Ok(o(0), ARepo)
    ensures FailsAs(l, None, o(0), Before(l), TreeOutcome(l, cookie, o)) && !Succeeds(TreeOutcome(l, cookie, o))
  {
    OpenMeans(l, cookie, o);
    hide Open, FailsAs, Succeeds;
  }

  // ---- files ----

  predicate IsFile(e: Entry, path: string) { e.path == path && !e.isDir }

  /** The first entry of that path that is no directory. */
  ghost predicate FirstFile(entries: seq<Entry>, path: string, e: Entry) {
    exists i :: 0 <= i < |entries| && entries[i] == e && IsFile(e, path) && NoFile(entries[..i], path)
  }

  predicate NoFile(entries: seq<Entry>, path: string) {
    forall e <- entries :: !IsFile(e, path)
  }

  lemma {:induction false} FindEntryMeans(entries: seq<Entry>, path: string)
    ensures match FindEntry(entries, path) {
      case None => NoFile(entries, path)
      case Some(e) => FirstFile(entries, path, e)
    }
    decreases |entries|
  {
    if entries != [] {
      FindEntryMeans(entries[1..], path);
      if IsFile(entries[0], path) {
        assert entries[..0] == [];
      } else if FindEntry(entries[1..], path).Some? {
        var e := FindEntry(entries[1..], path).value;
        var i :| 0 <= i < |entries[1..]| && entries[1..][i] == e && NoFile(entries[1..][..i], path);
        assert entries[i + 1] == e && entries[..i + 1] == [entries[0]] + entries[1..][..i];
      } else {
        assert entries == [entries[0]] + entries[1..];
      }
    }
  }

  /** The file the screen is about, once everything before its bytes was read. */
  ghost predicate Names(o: Answers, path: string, e: Entry) {
    path != "" && Ok(o(0), ARepo) && Ok(o(1), ATree) && FirstFile(o(1).payload.entries, path, e)
  }

  /** Nothing of that name: a path that is empty is not looked for. */
  predicate NamesNothing(o: Answers, path: string) {
    Ok(o(0), ARepo) && (path == "" || (Ok(o(1), ATree) && NoFile(o(1).payload.entries, path)))
  }

  /** What comes before the bytes of a file: found, absent, or a call that failed. */
  predicate Unfound(l: Loaded, cookie: string, path: string, o: Answers, out: Outcome) {
    !Succeeds(out) &&
    (!Ok(o(0), ARepo) ==> FailsAs(l, None, o(0), Before(l), out)) &&
    (Ok(o(0), ARepo) ==>
       var repo := o(0).payload.repo;
       if NamesNothing(o, path) then out == Outcome(Page(404, l.Live?, NotFoundScreen), Opened(l, cookie, repo))
       else !Ok(o(1), ATree) && FailsAs(l, Some(repo), o(1), Opened(l, cookie, repo), out))
  }

  lemma FindMeans(l: Loaded, cookie: string, path: string, o: Answers)
    ensures match Find(l, cookie, path, o) {
      case FoundNot(out) => Unfound(l, cookie, path, o, out) && !exists e :: Names(o, path, e)
      case FoundAt(repo, e, commit, ck) =>
        Names(o, path, e) && repo == o(0).payload.repo && commit == o(1).payload.commit &&
        ck == Opened(l, cookie, repo)
    }
  {
    OpenMeans(l, cookie, o);
    if !Ok(o(0), ARepo) {
      hide Open, FailsAs, Succeeds, FirstFile;
    } else if path == "" {
      hide Open, FailsAs, FirstFile, Opened, NoFile;
    } else if !Ok(o(1), ATree) {
      FailedMeans(l, o(0).payload.repo, o(1), ATree, Opened(l, cookie, o(0).payload.repo));
      hide Open, Classify, FailsAs, Misses, Opened, FirstFile, Succeeds;
    } else {
      EntryMeans(l, cookie, path, o);
    }
  }

  lemma EntryMeans(l: Loaded, cookie: string, path: string, o: Answers)
    requires Ok(o(0), ARepo) && Ok(o(1), ATree) && path != ""
    ensures match Find(l, cookie, path, o) {
      case FoundNot(out) => Unfound(l, cookie, path, o, out) && !exists e :: Names(o, path, e)
      case FoundAt(repo, e, commit, ck) =>
        Names(o, path, e) && repo == o(0).payload.repo && commit == o(1).payload.commit &&
        ck == Opened(l, cookie, repo)
    }
  {
    OpenMeans(l, cookie, o);
    FindEntryMeans(o(1).payload.entries, path);
    NotBoth(o(1).payload.entries, path);
    hide Open, Classify, FailsAs, Misses, Opened, FindEntry, FirstFile, NoFile;
  }

  lemma NotBoth(entries: seq<Entry>, path: string)
    ensures NoFile(entries, path) ==> !exists e :: FirstFile(entries, path, e)
  {
  }

  const LARGEST: nat := 50 * 1024 * 1024

  /** What is shown of a file found: one past the limit is not fetched, one that Origo
      says is too large is shown the same, and bytes that are no text are not shown. */
  predicate FileShown(l: Loaded, cookie: string, o: Answers, e: Entry, out: Outcome)
    requires Ok(o(0), ARepo) && Ok(o(1), ATree)
  {
    var repo, commit := o(0).payload.repo, o(1).payload.commit;
    if e.size > LARGEST || o(2) == Refused(413) then
      Draws(l, cookie, repo, BlobScreen(repo, e, commit, true, false, ""), out)
    else if !Ok(o(2), ABlob) then
      FailsAs(l, Some(repo), o(2), Opened(l, cookie, repo), out) && !Succeeds(out)
    else if o(2).payload.textual then
      Draws(l, cookie, repo, BlobScreen(repo, e, commit, false, false, o(2).payload.bytes), out)
    else Draws(l, cookie, repo, BlobScreen(repo, e, commit, false, true, ""), out)
  }

  lemma BlobScreenMeans(l: Loaded, cookie: string, path: string, o: Answers)
    ensures var out := BlobOutcome(l, cookie, path, o);
      (exists e :: Names(o, path, e) && FileShown(l, cookie, o, e, out)) ||
      (!(exists e :: Names(o, path, e)) && Unfound(l, cookie, path, o, out))
  {
    FindMeans(l, cookie, path, o);
    if Ok(o(0), ARepo) && !Ok(o(2), ABlob) {
      FailedMeans(l, o(0).payload.repo, o(2), ABlob, Opened(l, cookie, o(0).payload.repo));
    }
    hide Find, Classify, FailsAs, Misses, Opened, Unfound, FirstFile;
    var found := Find(l, cookie, path, o);
    if found.FoundAt? {
      assert Names(o, path, found.entry) && FileShown(l, cookie, o, found.entry, BlobOutcome(l, cookie, path, o));
    }
  }

  /** The bytes themselves, whatever the listing says of the size. */
  predicate BytesServed(l: Loaded, cookie: string, o: Answers, out: Outcome)
    requires Ok(o(0), ARepo)
  {
    var repo := o(0).payload.repo;
    if o(2) == Refused(413) then Draws(l, cookie, repo, RawTooLargeScreen(repo), out)
    else if !Ok(o(2), ABlob) then FailsAs(l, Some(repo), o(2), Opened(l, cookie, repo), out) && !Succeeds(out)
    else out == Outcome(Response.Bytes(o(2).payload.bytes), Opened(l, cookie, repo))
  }

  lemma RawScreenMeans(l: Loaded, cookie: string, path: string, o: Answers)
    ensures var out := RawOutcome(l, cookie, path, o);
      ((exists e :: Names(o, path, e)) && BytesServed(l, cookie, o, out)) ||
      (!(exists e :: Names(o, path, e)) && Unfound(l, cookie, path, o, out))
  {
    FindMeans(l, cookie, path, o);
    if Ok(o(0), ARepo) && !Ok(o(2), ABlob) {
      FailedMeans(l, o(0).payload.repo, o(2), ABlob, Opened(l, cookie, o(0).payload.repo));
    }
    hide Find, Classify, FailsAs, Misses, Opened, Unfound, FirstFile;
  }

  // ---- commits and comparisons ----

  predicate HasParent(o: Answers) {
    Ok(o(1), ACommit) && o(1).payload.parents != []
  }

  function CommitCalls(o: Answers): Calls {
    Then(o(1), ACommit, if HasParent(o) then Then(o(2), ADiff, NoMore) else NoMore)
  }

  /** A commit, and what it changed when it has a parent. */
  lemma CommitScreenMeans(l: Loaded, cookie: string, o: Answers)
    ensures var out, calls := CommitOutcome(l, cookie, o), CommitCalls(o);
      Decided(l, cookie, o, calls, out) && (Succeeds(out) <==> Reached(o, calls)) &&
      (Reached(o, calls) ==>
         Ok(o(1), ACommit) && (HasParent(o) ==> Ok(o(2), ADiff)) &&
         var repo, c := o(0).payload.repo, o(1).payload;
         Draws(l, cookie, repo,
           CommitScreen(repo, c.sha, c.parents,
             if c.parents == [] then None else Some((o(2).payload.text, o(2).payload.cut))), out))
  {
    var out := CommitOutcome(l, cookie, o);
    OpenMeans(l, cookie, o);
    if Ok(o(0), ARepo) {
      CommitCallsMean(l, o, Opened(l, cookie, o(0).payload.repo), out);
    }
    hide Open, Classify, FailsAs, Misses, Opened, AllOk, FirstDecides, CommitCalls;
  }

  lemma CommitCallsMean(l: Loaded, o: Answers, ck: seq<SL.Op>, out: Outcome)
    requires Ok(o(0), ARepo)
    ensures var repo, calls := o(0).payload.repo, CommitCalls(o);
      (AllOk(calls) <==> Ok(o(1), ACommit) && (HasParent(o) ==> Ok(o(2), ADiff))) &&
      (AllOk(calls) ==> FirstDecides(l, Some(repo), calls, ck, out)) &&
      (!Ok(o(1), ACommit) && out == Misses(l, repo, ck, Classify(o(1), ACommit)) ==>
         FirstDecides(l, Some(repo), calls, ck, out) && !Succeeds(out)) &&
      (HasParent(o) && !Ok(o(2), ADiff) && out == Misses(l, repo, ck, Classify(o(2), ADiff)) ==>
         FirstDecides(l, Some(repo), calls, ck, out) && !Succeeds(out))
  {
    var repo := o(0).payload.repo;
    var last := if HasParent(o) then Then(o(2), ADiff, NoMore) else NoMore;
    OneCall(l, repo, o(1), ACommit, last, ck, out);
    OneCall(l, repo, o(2), ADiff, NoMore, ck, out);
    hide Classify, FailsAs, Misses, AllOk, FirstDecides, Succeeds;
  }

  /** The patch of a commit: the bytes of what it changed, and an absence for one
      with no parent. */
  lemma PatchScreenMeans(l: Loaded, cookie: string, o: Answers)
    ensures var out, calls := PatchOutcome(l, cookie, o), CommitCalls(o);
      Decided(l, cookie, o, calls, out) && (Succeeds(out) <==> Reached(o, calls) && HasParent(o)) &&
      (Reached(o, calls) ==>
         Ok(o(1), ACommit) && (HasParent(o) ==> Ok(o(2), ADiff)) &&
         out == Outcome(if !HasParent(o) then Page(404, l.Live?, NotFoundScreen)
                        else Response.Bytes(o(2).payload.text), Opened(l, cookie, o(0).payload.repo)))
  {
    var out := PatchOutcome(l, cookie, o);
    OpenMeans(l, cookie, o);
    if Ok(o(0), ARepo) {
      CommitCallsMean(l, o, Opened(l, cookie, o(0).payload.repo), out);
    }
    hide Open, Classify, FailsAs, Misses, Opened, AllOk, FirstDecides, CommitCalls;
  }

  /** A comparison asks nothing when a revision is not named. */
  lemma CompareScreenMeans(l: Loaded, cookie: string, named: bool, o: Answers)
    ensures var out, calls := CompareOutcome(l, cookie, named, o), if named then Then(o(1), ADiff, NoMore) else NoMore;
      Decided(l, cookie, o, calls, out) && (Succeeds(out) <==> Reached(o, calls)) &&
      (Reached(o, calls) ==>
         (named ==> Ok(o(1), ADiff)) &&
         var repo := o(0).payload.repo;
         Draws(l, cookie, repo,
           CompareScreen(repo, if named then Some((o(1).payload.text, o(1).payload.cut)) else None), out))
  {
    var out := CompareOutcome(l, cookie, named, o);
    OpenMeans(l, cookie, o);
    if Ok(o(0), ARepo) {
      var repo := o(0).payload.repo;
      OneCall(l, repo, o(1), ADiff, NoMore, Opened(l, cookie, repo), out);
    }
    hide Open, Classify, FailsAs, Misses, Opened, AllOk, FirstDecides;
  }

  /** An old address redirects to the name the repository has now, and opens nothing. */
  lemma ByIDMeans(l: Loaded, rest: string, o: Answers)
    ensures var out := ByIDOutcome(l, rest, o);
      (out.response.Redirect? <==> Ok(o(0), ARepo)) &&
      (Ok(o(0), ARepo) ==>
         var owner, slug := Escape(o(0).payload.repo.owner, Segment), Escape(o(0).payload.repo.slug, Segment);
         out == Outcome(Redirect(301, "/" + owner + "/" + slug + rest), Before(l))) &&
      (!Ok(o(0), ARepo) ==> FailsAs(l, None, o(0), Before(l), out) && !Succeeds(out))
  {
    if !Ok(o(0), ARepo) {
      FailedMeans(l, Repo("", "", "", "", ""), o(0), ARepo, Before(l));
    }
    hide Classify, Escape;
  }

  // ---- the home screen ----

  /** The rows of the directory as they were sent. */
  predicate RowsSent(rows: seq<Li.Repo>, repos: seq<Repo>) {
    |rows| == |repos| &&
    forall i :: 0 <= i < |rows| ==> rows[i] == Li.Repo(repos[i].id, repos[i].owner, repos[i].slug)
  }

  /** A row is on the screen exactly when it was sent and, where the filter applies,
      matches; and where every row matches, all of them are counted. */
  ghost predicate DirectoryShown(d: Directory, repos: seq<Repo>, next: string, q: HomeQuery) {
    var filters := next == "" && q.cursor == "";
    d.next == next && (d.canFilter <==> filters) &&
    exists rows :: RowsSent(rows, repos) &&
      Li.Listed(rows, r => filters ==> q.matches(r), d.owners, d.count) &&
      ((forall r <- rows :: q.matches(r)) ==> d.count == |repos|)
  }

  lemma DirectoryMeans(repos: seq<Repo>, next: string, q: HomeQuery)
    ensures DirectoryShown(DirectoryOf(repos, next, q), repos, next, q)
  {
    var rows, filters := RowsOf(repos), next == "" && q.cursor == "";
    var kept := if filters then Li.Filter(rows, q.matches) else rows;
    Li.ShownIsListed(rows, q.matches, filters);
    Li.SizesAddUp(kept);
    hide Li.Grouped, Li.Filter, Li.Sizes, Li.Listed;
    assert RowsSent(rows, repos);
  }

  /** The home screen: the directory when it could be read; a sign-in for a refused
      credential, which is an error only when one was sent; and otherwise the list of
      what was opened before, whatever the failure. */
  lemma HomeScreenMeans(l: Loaded, cookie: string, authError: bool, q: HomeQuery, o: Answers)
    ensures var out := HomeOutcome(l, cookie, authError, q, o);
      var fault := authError || (l.Live? && !l.origoMinted);
      if Ok(o(0), TheRepos) then
        exists d :: DirectoryShown(d, o(0).payload.repos, o(0).payload.next, q) &&
          out == Outcome(Page(200, l.Live?, HomeScreen(Some(d), [], fault, DeletedName(q.deleted))), Before(l))
      else if o(0) == Refused(401) then
        out == Outcome(Page(if Sent(l) then 401 else 200, false, SignInScreen(Sent(l), fault)),
                       Before(l) + if Sent(l) then [SL.Clear] else [])
      else
        out == Outcome(Page(200, l.Live?, HomeScreen(None, S.RecentOf(cookie), fault, DeletedName(q.deleted))),
                       Before(l))
  {
    if Ok(o(0), TheRepos) {
      DirectoryMeans(o(0).payload.repos, o(0).payload.next, q);
    }
    hide Classify, DirectoryShown, DirectoryOf, S.RecentOf, DeletedName;
  }

  // ---- the overview ----

  predicate ReadmeOf(e: Entry, kind: ReadmeKind) { !e.isDir && e.readme == kind }

  ghost predicate FirstOfKind(entries: seq<Entry>, kind: ReadmeKind, e: Entry) {
    exists i :: 0 <= i < |entries| && entries[i] == e && ReadmeOf(e, kind) && NoneOfKind(entries[..i], kind)
  }

  predicate NoneOfKind(entries: seq<Entry>, kind: ReadmeKind) {
    forall e <- entries :: !ReadmeOf(e, kind)
  }

  lemma {:induction false} FirstReadmeMeans(entries: seq<Entry>, kind: ReadmeKind)
    ensures match FirstReadme(entries, kind) {
      case None => NoneOfKind(entries, kind)
      case Some(e) => FirstOfKind(entries, kind, e)
    }
    decreases |entries|
  {
    if entries != [] {
      FirstReadmeMeans(entries[1..], kind);
      if ReadmeOf(entries[0], kind) {
        assert entries[..0] == [];
      } else if FirstReadme(entries[1..], kind).Some? {
        var e := FirstReadme(entries[1..], kind).value;
        var i :| 0 <= i < |entries[1..]| && entries[1..][i] == e && NoneOfKind(entries[1..][..i], kind);
        assert entries[i + 1] == e && entries[..i + 1] == [entries[0]] + entries[1..][..i];
      } else {
        assert entries == [entries[0]] + entries[1..];
      }
    }
  }

  /** A Markdown readme before any plain one, and of each kind the first; its name is
      shown always, and its bytes when it is small enough and could be read. */
  ghost predicate ReadmeDrawn(entries: seq<Entry>, a: Answer, shown: Option<Readme>) {
    if shown.None? then NoneOfKind(entries, MarkdownReadme) && NoneOfKind(entries, PlainReadme)
    else
      exists e: Entry :: shown.value.sha == e.sha &&
        (FirstOfKind(entries, MarkdownReadme, e) ||
         (NoneOfKind(entries, MarkdownReadme) && FirstOfKind(entries, PlainReadme, e))) &&
        shown.value.bytes == if e.size <= 512 * 1024 && Ok(a, ABlob) then Some(a.payload.bytes) else None
  }

  lemma ReadmeMeans(entries: seq<Entry>, a: Answer)
    ensures ReadmeDrawn(entries, a, ReadmeShown(entries, a))
  {
    FirstReadmeMeans(entries, MarkdownReadme);
    FirstReadmeMeans(entries, PlainReadme);
    hide FirstReadme, FirstOfKind, NoneOfKind, Classify;
    if FindReadme(entries).Some? {
      var e := FindReadme(entries).value;
      assert ReadmeShown(entries, a).value.sha == e.sha;
    }
  }

  /** A repository with no head and no branches holds nothing to list. */
  predicate Bare(o: Answers) {
    Ok(o(0), ARepo) && o(0).payload.repo.head == "" && NoBranches(o)
  }

  function OverviewCalls(o: Answers): Calls {
    RefCalls(o, if Bare(o) then NoMore else Then(o(3), ATree, Then(o(4), ALog, NoMore)))
  }

  ghost predicate OverviewDrawn(repo: Repo, ref: string, shown: Shown, o: Answers, screen: Screen) {
    screen.OverviewScreen? && screen.repo == repo && screen.shown == shown &&
    screen.ref == ref &&
    Ok(o(1), TheRefs) && InOrder(screen.branches, o(1).payload.refs) &&
    Ok(o(2), TheRefs) && InOrder(screen.tags, o(2).payload.refs) &&
    screen.empty == Bare(o) &&
    if Bare(o) then screen.entries == [] && screen.last == None && screen.readme == None
    else
      Ok(o(3), ATree) && screen.entries == o(3).payload.entries &&
      Ok(o(4), ALog) &&
      screen.last == (if o(4).payload.commits == [] then None else Some(o(4).payload.commits[0])) &&
      ReadmeDrawn(o(3).payload.entries, o(5), screen.readme)
  }

  /** The overview: the references, then the top directory and the last commit; its readme
      may fail and the page stands. */
  lemma OverviewScreenMeans(l: Loaded, cookie: string, ref: string, now: nat, cache: map<string, V.Entry>,
                            hasRegistry: bool, first: PlatformAnswer, o: Answers)
    ensures var out, calls := OverviewOutcome(l, cookie, ref, now, cache, hasRegistry, first, o), OverviewCalls(o);
      Decided(l, cookie, o, calls, out) && (Succeeds(out) <==> Reached(o, calls)) &&
      (Reached(o, calls) ==>
         var repo := o(0).payload.repo;
         var shown := VisibilityAt(l, repo, now, cache, hasRegistry, first);
         out.response.Page? && out.response.signedIn == l.Live? && out.cookies == Opened(l, cookie, repo) &&
         OverviewDrawn(repo, if ref == "" then repo.defaultBranch else ref, shown, o, out.response.screen))
  {
    OpenMeans(l, cookie, o);
    if Ok(o(0), ARepo) {
      var repo := o(0).payload.repo;
      var shown := VisibilityAt(l, repo, now, cache, hasRegistry, first);
      BodyMeans(l, repo, RefOf(repo, ref), shown, Opened(l, cookie, repo), o);
      hide OverviewBody;
    }
    hide Open, FailsAs, Opened, AllOk, FirstDecides, OverviewCalls, VisibilityAt, ReadmeDrawn, InOrder;
  }

  lemma BodyMeans(l: Loaded, repo: Repo, ref: string, shown: Shown, ck: seq<SL.Op>, o: Answers)
    requires Ok(o(0), ARepo) && o(0).payload.repo == repo
    ensures var out, calls := OverviewBody(l, repo, ref, shown, ck, o), OverviewCalls(o);
      FirstDecides(l, Some(repo), calls, ck, out) && (Succeeds(out) <==> AllOk(calls)) &&
      (AllOk(calls) ==>
         out.response.Page? && out.response.signedIn == l.Live? && out.cookies == ck &&
         OverviewDrawn(repo, ref, shown, o, out.response.screen))
  {
    var out := OverviewBody(l, repo, ref, shown, ck, o);
    OverviewCallsMean(l, repo, ck, out, o);
    if AllOk(OverviewCalls(o)) {
      BodyDraws(l, repo, ref, shown, ck, o);
    } else {
      RefsMean(o);
      hide RefsAt, Classify, FailsAs, Misses, InOrder, AllOk, FirstDecides, ReadmeShown, OverviewCalls, OverviewDrawn;
    }
  }

  lemma OverviewCallsMean(l: Loaded, repo: Repo, ck: seq<SL.Op>, out: Outcome, o: Answers)
    requires Ok(o(0), ARepo) && o(0).payload.repo == repo
    ensures var calls := OverviewCalls(o);
      (AllOk(calls) <==>
        Ok(o(1), TheRefs) && Ok(o(2), TheRefs) && (!Bare(o) ==> Ok(o(3), ATree) && Ok(o(4), ALog))) &&
      (AllOk(calls) ==> FirstDecides(l, Some(repo), calls, ck, out)) &&
      (FailsAt(l, repo, ck, out, o(1), TheRefs) ||
       (Ok(o(1), TheRefs) && FailsAt(l, repo, ck, out, o(2), TheRefs)) ||
       (Ok(o(1), TheRefs) && Ok(o(2), TheRefs) && !Bare(o) && FailsAt(l, repo, ck, out, o(3), ATree)) ||
       (Ok(o(1), TheRefs) && Ok(o(2), TheRefs) && !Bare(o) && Ok(o(3), ATree) && FailsAt(l, repo, ck, out, o(4), ALog))
       ==> FirstDecides(l, Some(repo), calls, ck, out) && !Succeeds(out))
  {
    var last := if Bare(o) then NoMore else Then(o(3), ATree, Then(o(4), ALog, NoMore));
    OneCall(l, repo, o(1), TheRefs, Then(o(2), TheRefs, last), ck, out);
    OneCall(l, repo, o(2), TheRefs, last, ck, out);
    OneCall(l, repo, o(3), ATree, Then(o(4), ALog, NoMore), ck, out);
    OneCall(l, repo, o(4), ALog, NoMore, ck, out);
    hide Classify, FailsAs, Misses, AllOk, FirstDecides, Bare, Succeeds, Ok;
  }

  predicate FailsAt(l: Loaded, repo: Repo, ck: seq<SL.Op>, out: Outcome, a: Answer, k: Kind) {
    !Ok(a, k) && out == Misses(l, repo, ck, Classify(a, k))
  }

  lemma BodyDraws(l: Loaded, repo: Repo, ref: string, shown: Shown, ck: seq<SL.Op>, o: Answers)
    requires Ok(o(0), ARepo) && o(0).payload.repo == repo
    requires Ok(o(1), TheRefs) && Ok(o(2), TheRefs) && (!Bare(o) ==> Ok(o(3), ATree) && Ok(o(4), ALog))
    ensures var out := OverviewBody(l, repo, ref, shown, ck, o);
      out.response.Page? && out.response.status == 200 && out.response.signedIn == l.Live? && out.cookies == ck &&
      OverviewDrawn(repo, ref, shown, o, out.response.screen)
  {
    RefsMean(o);
    if Ok(o(3), ATree) { ReadmeMeans(o(3).payload.entries, o(5)); }
    hide RefsAt, Classify, Misses, InOrder, ReadmeDrawn, ReadmeShown, Unauthenticated, Absent, TooLarge, Unavailable;
  }

  /** What the overview says of who may read the repository, answer by answer: nothing
      without a platform token or without a registry that knows it, what the answer in
      hand says, and otherwise that it is unknown. */
  lemma VisibilityDrawn(l: Loaded, repo: Repo, now: nat, cache: map<string, V.Entry>, hasRegistry: bool,
                        first: PlatformAnswer)
    ensures var shown := VisibilityAt(l, repo, now, cache, hasRegistry, first);
      if !l.Live? || !l.platformMinted then shown == Blank
      else
        match V.Lookup(cache, now, l.sub, repo.id)
        case Some(v) => shown == Says(v.visibility == "public", v.canChange)
        case None =>
          if !hasRegistry || (first.Bad? && first.status == 404) then shown == Blank
          else if first.Good? && first.body.VisibilityBody? then
            shown == Says(first.body.answer.visibility == "public", first.body.answer.canChange)
          else shown == Unknown
  {
    hide V.Lookup;
  }

  /** The registry is asked only by a reader with a platform token for whom the cache has
      no answer, and only an answer it gives is kept. */
  lemma OverviewAsks(l: Loaded, cookie: string, now: nat, cache: map<string, V.Entry>, hasRegistry: bool,
                     first: PlatformAnswer, o: Answers)
    ensures var leaves := OverviewLeaves(l, cookie, now, cache, hasRegistry, first, o);
      var asks := Ok(o(0), ARepo) && l.Live? && l.platformMinted && hasRegistry &&
        V.Lookup(cache, now, l.sub, o(0).payload.repo.id).None?;
      leaves.1 == (if asks then [OfRegistry(ReadVisibility(o(0).payload.repo.id))] else []) &&
      (!(asks && first.Good? && first.body.VisibilityBody?) ==> leaves.0 == cache)
  {
    OpenMeans(l, cookie, o);
    hide Open, V.Lookup, V.Stored, FailsAs, Opened;
  }

  /** An answer given to an overview is shown by those of the same account for the thirty
      seconds after it, and none of them asks. */
  lemma OverviewIsKept(l: Loaded, cookie: string, now: nat, cache: map<string, V.Entry>, first: PlatformAnswer,
                       o: Answers, later: nat, hasRegistry: bool, second: PlatformAnswer)
    requires Ok(o(0), ARepo) && l.Live? && l.platformMinted && l.sub != ""
    requires V.Lookup(cache, now, l.sub, o(0).payload.repo.id).None?
    requires first.Good? && first.body.VisibilityBody?
    requires now <= later < now + 30000
    ensures var repo, v := o(0).payload.repo, first.body.answer;
      var kept := OverviewLeaves(l, cookie, now, cache, true, first, o).0;
      V.Lookup(kept, later, l.sub, repo.id) == Some(v) &&
      OverviewLeaves(l, cookie, later, kept, hasRegistry, second, o) == (kept, []) &&
      VisibilityAt(l, repo, later, kept, hasRegistry, second) == Says(v.visibility == "public", v.canChange)
  {
    OpenMeans(l, cookie, o);
    hide Open, FailsAs, Opened;
    var kept := OverviewLeaves(l, cookie, now, cache, true, first, o).0;
    assert kept == V.Stored(cache, now, l.sub, o(0).payload.repo.id, first.body.answer);
  }

  // ---- the token screens ----

  /** The screen that lists tokens: a directory or else what was opened before, and the
      repository it is scoped to with its records, each when it could be read. Only a
      refused credential takes the screen away. */
  predicate TokensDrawn(l: Loaded, cookie: string, status: nat, scoped: string, refusal: Sentence,
                        o: Answers, i: nat, out: Outcome) {
    if o(i) == Refused(401) then
      out == Outcome(SignedOut(l, 401), Before(l) + if Sent(l) then [SL.Clear] else [])
    else
      out.cookies == Before(l) && out.response.Page? && out.response.status == status &&
      out.response.signedIn == l.Live? && out.response.screen.TokensScreen? &&
      var page := out.response.screen;
      page.listed == (if Ok(o(i), TheRepos) then Some(o(i).payload.repos) else None) &&
      page.recent == (if Ok(o(i), TheRepos) then [] else S.RecentOf(cookie)) &&
      page.refusal == refusal &&
      if scoped == "" || !Ok(o(i + 1), ARepo) then page.scoped == None && page.records == None
      else
        page.scoped == Some(o(i + 1).payload.repo) &&
        page.records == if Ok(o(i + 2), TheRecords) then Some(o(i + 2).payload.records) else None
  }

  lemma TokensPageMeans(l: Loaded, cookie: string, status: nat, scoped: string, refusal: Sentence, o: Answers, i: nat)
    ensures TokensDrawn(l, cookie, status, scoped, refusal, o, i,
                        TokensPage(l, cookie, status, scoped, refusal, Start(l), o, i))
  {
    hide Classify, S.RecentOf;
  }

  lemma TokensScreenMeans(l: Loaded, cookie: string, scoped: string, o: Answers)
    ensures var out := TokensOutcome(l, cookie, scoped, o);
      if !Sent(l) then out == Outcome(SignedOut(l, 200), Before(l))
      else TokensDrawn(l, cookie, 200, scoped, NoSentence, o, 0, out)
  {
    if Sent(l) { TokensPageMeans(l, cookie, 200, scoped, NoSentence, o, 0); }
    hide TokensPage, TokensDrawn;
  }

  /** How a mint is refused: by the status of the call that failed, with the screen read
      again after it where the reader may try again. */
  predicate MintFails(l: Loaded, cookie: string, scoped: string, a: Answer, o: Answers, i: nat, out: Outcome) {
    if a == Refused(401) then out == Outcome(SignedOut(l, 401), Before(l) + if Sent(l) then [SL.Clear] else [])
    else if a.Refused? && a.status in {403, 404, 410} then
      TokensDrawn(l, cookie, 404, scoped, TokenWithheld, o, i, out)
    else if a == Unreachable || (a.Refused? && (a.status == 0 || a.status >= 500)) then
      out == Outcome(Page(502, l.Live?, UnavailableScreen), Before(l))
    else TokensDrawn(l, cookie, 502, scoped, TokenBroken, o, i, out)
  }

  lemma RefusedMint(l: Loaded, cookie: string, scoped: string, a: Answer, k: Kind, o: Answers, i: nat)
    requires !Ok(a, k)
    ensures MintFails(l, cookie, scoped, a, o, i, MintRefusedOutcome(l, cookie, scoped, Classify(a, k), o, i))
  {
    TokensPageMeans(l, cookie, 404, scoped, TokenWithheld, o, i);
    TokensPageMeans(l, cookie, 502, scoped, TokenBroken, o, i);
    hide Classify, TokensPage, TokensDrawn;
  }

  predicate MintsToken(out: Outcome) {
    out.response.Page? && out.response.screen.TokenScreen?
  }

  /** A token is shown exactly when the form is this session's, names a repository and a
      scope, an Origo token was minted, and both the repository and the mint answered:
      and then the value minted. Otherwise the first thing amiss decides. */
  lemma TokensPostMeans(l: Loaded, cookie: string, csrf: bool, scoped: string, formOk: bool, o: Answers)
    ensures var out := TokensPostOutcome(l, cookie, csrf, scoped, formOk, o);
      (MintsToken(out) <==> csrf && Sent(l) && formOk && Ok(o(0), ARepo) && Ok(o(1), AMint)) &&
      if !csrf then out == Outcome(Plain(403), [])
      else if !Sent(l) then out == Outcome(SignedOut(l, 200), Before(l))
      else if !formOk then TokensDrawn(l, cookie, 400, scoped, BadTokenForm, o, 0, out)
      else if !Ok(o(0), ARepo) then MintFails(l, cookie, scoped, o(0), o, 1, out)
      else if !Ok(o(1), AMint) then MintFails(l, cookie, scoped, o(1), o, 2, out)
      else out == Outcome(Page(200, true, TokenScreen(o(0).payload.repo, o(1).payload.value)), Before(l))
  {
    TokensPageMeans(l, cookie, 400, scoped, BadTokenForm, o, 0);
    if !Ok(o(0), ARepo) { RefusedMint(l, cookie, scoped, o(0), ARepo, o, 1); }
    if !Ok(o(1), AMint) { RefusedMint(l, cookie, scoped, o(1), AMint, o, 2); }
    FailingShowsNoToken(l, cookie, scoped, o);
    hide Classify, TokensPage, TokensDrawn, MintFails, MintRefusedOutcome;
  }

  lemma FailingShowsNoToken(l: Loaded, cookie: string, scoped: string, o: Answers)
    ensures forall i, a, out :: MintFails(l, cookie, scoped, a, o, i, out) ==> !MintsToken(out)
    ensures forall i, s, r, out :: TokensDrawn(l, cookie, s, scoped, r, o, i, out) ==> !MintsToken(out)
  {
    hide S.RecentOf;
  }
}
