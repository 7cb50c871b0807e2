/** Many requests share one visibility cache. What the handlers leave in it, over every
    sequence of requests, are the caches of a run of the state machine, so what an
    overview says is bounded in age. */
module Sharing {
  import opened Wrappers
  import opened Url
  import opened Protocol
  import opened Writing
  import R = Reading
  import V = Visibility

  /** What the requests share: the clock, the registry's record, and the cache. */
  datatype Shared = Shared(now: nat, record: V.Registry, cache: map<string, V.Entry>)

  /** One thing that happens: time passes, somebody else changes the record, the cache
      forgets, or a request is answered. */
  datatype Move =
    | Wait(d: nat)
    | Elsewhere(record: V.Registry)
    | Forgets(keys: set<string>)
    | Overview(w: World)
    | Change(w: World, csrf: bool, form: Option<string>)
    | Deletion(w: World, csrf: bool, form: Option<string>)

  // ---- what a move does ----

  /** The deletion a request carries out, when it carries one out. */
  function Gone(w: World, csrf: bool, form: Option<string>): Option<Repo> {
    var repo := Confirmed(w, csrf, form);
    if repo.Some? && Succeeded(Removal(w, repo.value)) then repo else None
  }

  /** The cache is left by the handlers; the record follows the changes the registry took. */
  function After(s: Shared, m: Move): Shared {
    match m
    case Wait(d) => s.(now := s.now + d)
    case Elsewhere(record) => s.(record := record)
    case Forgets(keys) => s.(cache := s.cache - keys)
    case Overview(w) =>
      s.(cache := R.OverviewLeaves(w.loaded, w.cookie, s.now, s.cache, w.hasRegistry, w.registry(0), w.origo).0)
    case Change(w, csrf, form) =>
      var flip := Flip(w, csrf, form);
      s.(cache := FlippedCache(w, s.now, s.cache, flip),
         record := if flip.None? then s.record else V.Flipped(s.record, flip.value.0.id, flip.value.1))
    case Deletion(w, csrf, form) =>
      var gone := Gone(w, csrf, form);
      s.(cache := DeletedCache(w, s.cache, Confirmed(w, csrf, form)),
         record := if gone.None? then s.record else V.Deleted(s.record, gone.value.id))
  }

  /** The registry's answer about a repository, where it has one, is its record. */
  predicate Tells(s: Shared, sub: string, id: Bytes, a: PlatformAnswer) {
    a.Good? && a.body.VisibilityBody? ==> (sub, id) in s.record && s.record[(sub, id)] == a.body.answer
  }

  /** What an overview asks, which is nothing when the cache answers. */
  function Questions(s: Shared, w: World, id: Bytes): seq<Ask> {
    AskedToShow(w.Reads(), s.now, s.cache, id, w.hasRegistry)
  }

  predicate Subject(w: World) {
    w.Reads().sub == "" || V.NulFree(w.Reads().sub)
  }

  /** The registry answers from its record, and takes a change only from an administrator;
      any answer may be a failure instead. */
  predicate Truthful(s: Shared, m: Move) {
    match m
    case Wait(_) => true
    case Elsewhere(_) => true
    case Forgets(_) => true
    case Overview(w) =>
      Subject(w) &&
      (match R.Open(w.loaded, w.cookie, w.origo)
       case Stopped(_) => true
       case At(repo, _) =>
         Questions(s, w, repo.id) != [] ==> Tells(s, w.Reads().sub, repo.id, w.registry(0)))
    case Change(w, csrf, form) =>
      var flip := Flip(w, csrf, form);
      Subject(w) && (flip.Some? ==> V.Administers(s.record, w.Reads().sub, flip.value.0.id))
    case Deletion(w, csrf, form) =>
      var gone := Gone(w, csrf, form);
      Subject(w) && (gone.Some? ==> V.Administers(s.record, w.Reads().sub, gone.value.id))
  }

  /** A run of moves from an empty cache. */
  predicate Served(sts: seq<Shared>, moves: seq<Move>) {
    |sts| == |moves| + 1 && sts[0].cache == map[] &&
    forall i :: 0 <= i < |moves| ==> Truthful(sts[i], moves[i]) && sts[i + 1] == After(sts[i], moves[i])
  }

  // ---- a move as steps of the state machine ----

  function StateOf(s: Shared): V.State {
    V.State(s.now, s.record, s.cache, {})
  }

  /** The read an overview makes of one repository. */
  function ReadSteps(s: Shared, w: World, id: Bytes): seq<V.Step> {
    var rd := w.Reads();
    var result := w.Answers(ReadVisibility(id), 0);
    if rd.platform == NoToken || rd.sub == "" then []
    else if V.Lookup(s.cache, s.now, rd.sub, id).Some? then [V.Hit(rd.sub, id)]
    else if Readable(result)
    then [V.Ask(rd.sub, id), V.Store(V.Pending(rd.sub, id, result.answer.body.answer, s.now))]
    else []
  }

  /** A change by an account with no subject is one made elsewhere. */
  function Steps(s: Shared, m: Move): seq<V.Step> {
    match m
    case Wait(d) => [V.Tick(d)]
    case Elsewhere(record) => [V.Outside(record)]
    case Forgets(keys) => [V.Evict(keys)]
    case Overview(w) =>
      (match R.Open(w.loaded, w.cookie, w.origo)
       case Stopped(_) => []
       case At(repo, _) => ReadSteps(s, w, repo.id))
    case Change(w, csrf, form) =>
      var flip := Flip(w, csrf, form);
      var sub := w.Reads().sub;
      if flip.None? then []
      else
        var (repo, target) := flip.value;
        if sub == "" then [V.Outside(V.Flipped(s.record, repo.id, target))]
        else [V.Flip(sub, repo.id, target), V.Store(V.Pending(sub, repo.id, V.Answer(target, true), s.now))]
    case Deletion(w, csrf, form) =>
      var gone := Gone(w, csrf, form);
      var sub := w.Reads().sub;
      if gone.None? then []
      else if sub == "" then [V.Outside(V.Deleted(s.record, gone.value.id))]
      else [V.Delete(sub, gone.value.id), V.Invalidate(sub, gone.value.id)]
  }

  /** At most two steps, all enabled, the second a store when an answer is on its way. */
  predicate Walks(s: V.State, steps: seq<V.Step>, t: V.State) {
    if steps == [] then s == t
    else
      var mid := V.Apply(s, steps[0]);
      V.Enabled(s, steps[0], 0) &&
      if |steps| == 1 then mid == t
      else
        |steps| == 2 && V.Enabled(mid, steps[1], 0) && V.Apply(mid, steps[1]) == t
        && (mid.pending != {} ==> steps[1].Store?) && mid.now == t.now && mid.registry == t.registry
  }

  lemma ReadWalks(s: Shared, w: World, id: Bytes)
    requires Subject(w) && (Questions(s, w, id) != [] ==> Tells(s, w.Reads().sub, id, w.registry(0)))
    ensures var rd := w.Reads();
      var left := CacheAfterShown(rd, s.now, s.cache, id, w.Answers(ReadVisibility(id), 0));
      Walks(StateOf(s), ReadSteps(s, w, id), StateOf(s.(cache := left)))
  {
    hide V.NulFree, ReadSession, V.Flipped, V.Deleted;
    var rd := w.Reads();
    if Readable(w.Answers(ReadVisibility(id), 0)) && rd.platform != NoToken && rd.sub != ""
       && V.Lookup(s.cache, s.now, rd.sub, id).None? {
      StoreWalks(s, rd.sub, id, w.registry(0).body.answer);
    }
  }

  lemma StoreWalks(s: Shared, sub: string, id: string, v: V.Answer)
    requires V.Account(sub) && (sub, id) in s.record && s.record[(sub, id)] == v
    requires V.Lookup(s.cache, s.now, sub, id).None?
    ensures Walks(StateOf(s), [V.Ask(sub, id), V.Store(V.Pending(sub, id, v, s.now))],
                  StateOf(s.(cache := V.Stored(s.cache, s.now, sub, id, v))))
  {
    hide V.NulFree, V.Lookup, V.Flipped, V.Deleted;
  }

  lemma FlipWalks(s: Shared, sub: string, id: string, target: string)
    requires V.Account(sub) && V.Administers(s.record, sub, id) && (target == V.PUBLIC || target == V.PRIVATE)
    ensures var v := V.Answer(target, true);
      Walks(StateOf(s), [V.Flip(sub, id, target), V.Store(V.Pending(sub, id, v, s.now))],
            StateOf(s.(cache := V.Stored(s.cache, s.now, sub, id, v), record := V.Flipped(s.record, id, target))))
  {
    hide V.NulFree, V.Lookup, V.Flipped, V.Deleted;
  }

  lemma DropWalks(s: Shared, sub: string, id: string)
    requires V.Account(sub) && V.Administers(s.record, sub, id)
    ensures Walks(StateOf(s), [V.Delete(sub, id), V.Invalidate(sub, id)],
                  StateOf(s.(cache := V.Dropped(s.cache, sub, id), record := V.Deleted(s.record, id))))
  {
    hide V.NulFree, V.Lookup, V.Flipped, V.Deleted;
  }

  /** Every move is such a walk. */
  lemma MoveWalks(s: Shared, m: Move)
    requires Truthful(s, m)
    ensures Walks(StateOf(s), Steps(s, m), StateOf(After(s, m)))
  {
    hide R.Open, V.NulFree, ReadSession, Confirmed, Flip, V.Lookup, V.Flipped, V.Deleted, Removal;
    match m
    case Wait(_) =>
    case Elsewhere(_) =>
    case Forgets(_) =>
    case Overview(w) =>
      match R.Open(w.loaded, w.cookie, w.origo) {
        case Stopped(_) =>
        case At(repo, _) => ReadWalks(s, w, repo.id);
      }
    case Change(w, csrf, form) =>
      FlipTargets(w, csrf, form);
      if Flip(w, csrf, form).Some? && w.Reads().sub != "" {
        FlipWalks(s, w.Reads().sub, Flip(w, csrf, form).value.0.id, Flip(w, csrf, form).value.1);
      }
    case Deletion(w, csrf, form) =>
      if Gone(w, csrf, form).Some? && w.Reads().sub != "" {
        DropWalks(s, w.Reads().sub, Gone(w, csrf, form).value.id);
      }
  }

  lemma FlipTargets(w: World, csrf: bool, form: Option<string>)
    ensures Flip(w, csrf, form).Some? ==> Flip(w, csrf, form).value.1 in [V.PUBLIC, V.PRIVATE]
  {
    hide R.Open;
  }

  // ---- every run of moves is a run of the state machine ----

  /** Time and record, at every state of the run, are those some move left. */
  predicate Mirrors(states: seq<V.State>, sts: seq<Shared>) {
    forall j :: 0 <= j < |states| ==> Mirrored(states[j], sts)
  }

  predicate Mirrored(t: V.State, sts: seq<Shared>) {
    exists i :: 0 <= i < |sts| && sts[i].now == t.now && sts[i].record == t.registry
  }

  /** And what every move left is a state of the run. */
  predicate Covers(states: seq<V.State>, sts: seq<Shared>) {
    forall i :: 0 <= i < |sts| ==> StateOf(sts[i]) in states
  }

  lemma AtomicGoesOn(states: seq<V.State>, steps: seq<V.Step>, step: V.Step, t: V.State)
    requires |states| == |steps| + 1 && V.Atomic(states, steps)
    requires states[|steps|].pending != {} ==> step.Store?
    ensures V.Atomic(states + [t], steps + [step])
  {
  }

  lemma OneMore(states: seq<V.State>, steps: seq<V.Step>, step: V.Step) returns (all: seq<V.State>, run: seq<V.Step>)
    requires V.Run(states, steps, 0) && |states| == |steps| + 1 && V.Atomic(states, steps)
    requires V.Enabled(states[|steps|], step, 0) && (states[|steps|].pending != {} ==> step.Store?)
    ensures |all| == |run| + 1 && V.Run(all, run, 0) && V.Atomic(all, run)
    ensures run == steps + [step] && all == states + [V.Apply(states[|steps|], step)]
  {
    all, run := states + [V.Apply(states[|steps|], step)], steps + [step];
    V.RunGoesOn(states, steps, 0, step);
    AtomicGoesOn(states, steps, step, V.Apply(states[|steps|], step));
  }

  /** A run goes on with a walk. */
  lemma WalkGoesOn(states: seq<V.State>, steps: seq<V.Step>, more: seq<V.Step>, t: V.State)
    returns (all: seq<V.State>, run: seq<V.Step>)
    requires V.Run(states, steps, 0) && |states| == |steps| + 1 && V.Atomic(states, steps)
    requires states[|steps|].pending == {} && Walks(states[|steps|], more, t)
    ensures |all| == |run| + 1 && V.Run(all, run, 0) && V.Atomic(all, run)
    ensures states <= all && run == steps + more && all[|run|] == t
    ensures forall j :: |states| <= j < |all| ==> all[j].now == t.now && all[j].registry == t.registry
  {
    hide V.Run, V.Atomic, V.Enabled, V.Apply;
    all, run := states, steps;
    if |more| == 1 {
      assert more == [more[0]];
      all, run := OneMore(states, steps, more[0]);
    } else if |more| == 2 {
      assert more == [more[0]] + [more[1]];
      all, run := OneMore(states, steps, more[0]);
      assert steps + more == (steps + [more[0]]) + [more[1]];
      all, run := OneMore(all, run, more[1]);
    } else {
      assert steps + more == steps;
    }
  }

  /** The caches of every sequence of requests are those of an atomic run of the state
      machine with every step enabled. */
  lemma {:induction false} ServedRuns(sts: seq<Shared>, moves: seq<Move>)
    returns (states: seq<V.State>, steps: seq<V.Step>)
    requires Served(sts, moves)
    ensures |states| == |steps| + 1 && V.Run(states, steps, 0) && V.Atomic(states, steps)
    ensures |sts| == |moves| + 1 && states[|steps|] == StateOf(sts[|moves|])
    ensures Mirrors(states, sts) && Covers(states, sts)
    decreases |moves|
  {
    hide Truthful, After, Walks, Steps, V.Run, V.Atomic, StateOf, Mirrors, Covers;
    if moves == [] {
      states, steps := [StateOf(sts[0])], [];
      NothingServed(sts);
    } else {
      var n := |moves| - 1;
      ServedPrefix(sts, moves, n);
      hide Served;
      var before, done := ServedRuns(sts[..n + 1], moves[..n]);
      MoveWalks(sts[n], moves[n]);
      states, steps := ServedOnce(sts, moves, before, done);
    }
  }

  lemma NothingServed(sts: seq<Shared>)
    requires |sts| == 1 && sts[0].cache == map[]
    ensures var states := [StateOf(sts[0])];
      V.Run(states, [], 0) && V.Atomic(states, []) && Mirrors(states, sts) && Covers(states, sts)
  {
    assert sts[0].now == StateOf(sts[0]).now;
  }

  lemma ServedPrefix(sts: seq<Shared>, moves: seq<Move>, n: nat)
    requires Served(sts, moves) && n <= |moves|
    ensures |sts| == |moves| + 1 && Served(sts[..n + 1], moves[..n])
    ensures n < |moves| ==> Truthful(sts[n], moves[n]) && sts[n + 1] == After(sts[n], moves[n])
  {
    hide Truthful, After;
  }

  lemma ServedOnce(sts: seq<Shared>, moves: seq<Move>, before: seq<V.State>, done: seq<V.Step>)
    returns (states: seq<V.State>, steps: seq<V.Step>)
    requires |sts| == |moves| + 1 && |moves| > 0
    requires var n := |moves| - 1;
      Walks(StateOf(sts[n]), Steps(sts[n], moves[n]), StateOf(sts[n + 1])) &&
      |before| == |done| + 1 && V.Run(before, done, 0) && V.Atomic(before, done) &&
      before[|done|] == StateOf(sts[n]) && Mirrors(before, sts[..n + 1]) && Covers(before, sts[..n + 1])
    ensures |states| == |steps| + 1 && V.Run(states, steps, 0) && V.Atomic(states, steps)
    ensures states[|steps|] == StateOf(sts[|moves|])
    ensures Mirrors(states, sts) && Covers(states, sts)
  {
    hide V.Run, V.Atomic, Walks, Steps, Mirrors, Covers;
    var n := |moves| - 1;
    states, steps := WalkGoesOn(before, done, Steps(sts[n], moves[n]), StateOf(sts[n + 1]));
    MirrorsMore(before, states, sts);
    CoversMore(before, states, sts);
  }

  lemma MirrorsMore(before: seq<V.State>, states: seq<V.State>, sts: seq<Shared>)
    requires sts != [] && Mirrors(before, sts[..|sts| - 1]) && before <= states
    requires forall j :: |before| <= j < |states| ==>
      states[j].now == sts[|sts| - 1].now && states[j].registry == sts[|sts| - 1].record
    ensures Mirrors(states, sts)
  {
    forall j | 0 <= j < |states| ensures Mirrored(states[j], sts) {
      if j < |before| {
        assert states[j] == before[j];
        MirroredWider(before[j], sts);
      }
    }
    hide Mirrored;
  }

  lemma MirroredWider(t: V.State, sts: seq<Shared>)
    requires sts != [] && Mirrored(t, sts[..|sts| - 1])
    ensures Mirrored(t, sts)
  {
    var front := sts[..|sts| - 1];
    var i :| 0 <= i < |front| && front[i].now == t.now && front[i].record == t.registry;
    assert sts[i] == front[i];
  }

  lemma CoversMore(before: seq<V.State>, states: seq<V.State>, sts: seq<Shared>)
    requires sts != [] && Covers(before, sts[..|sts| - 1]) && before <= states
    requires StateOf(sts[|sts| - 1]) in states
    ensures Covers(states, sts)
  {
    hide StateOf;
    forall i | 0 <= i < |sts| ensures StateOf(sts[i]) in states {
      if i < |sts| - 1 {
        assert sts[..|sts| - 1][i] == sts[i];
        var j :| 0 <= j < |before| && before[j] == StateOf(sts[i]);
        assert states[j] == before[j];
      }
    }
  }

  // ---- what an overview says ----

  /** What an overview of this repository says about who may read it. */
  function Badge(s: Shared, w: World, repo: Repo): Shown {
    R.VisibilityAt(w.loaded, repo, s.now, s.cache, w.hasRegistry, w.registry(0))
  }

  /** The record said this to the account about the repository at some moment of the run,
      less than the lifetime before the move. */
  predicate GivenLately(sts: seq<Shared>, k: nat, sub: string, id: string, v: V.Answer)
    requires k < |sts|
  {
    exists i :: 0 <= i <= k && sts[k].now - V.TTL < sts[i].now <= sts[k].now
                && (sub, id) in sts[i].record && sts[i].record[(sub, id)] == v
  }

  lemma CachedIsLate(sts: seq<Shared>, moves: seq<Move>, k: nat, sub: string, id: string)
    requires Served(sts, moves) && k < |moves| && V.Account(sub)
    requires V.Lookup(sts[k].cache, sts[k].now, sub, id).Some?
    ensures GivenLately(sts, k, sub, id, V.Lookup(sts[k].cache, sts[k].now, sub, id).value)
  {
    hide Truthful, After, V.Run, V.Atomic, V.Lookup, V.Account, Mirrors, Covers;
    ServedPrefix(sts, moves, k);
    hide Served;
    var states, steps := ServedRuns(sts[..k + 1], moves[..k]);
    var prefix := sts[..k + 1];
    assert |prefix| == k + 1 && prefix[k] == sts[k];
    HitIsLate(prefix, states, steps, sub, id);
    hide StateOf;
    var v := V.Lookup(sts[k].cache, sts[k].now, sub, id).value;
    var i :| 0 <= i < |prefix| && sts[k].now - V.TTL < prefix[i].now <= sts[k].now &&
             (sub, id) in prefix[i].record && prefix[i].record[(sub, id)] == v;
    assert prefix[i] == sts[i];
  }

  lemma HitIsLate(sts: seq<Shared>, states: seq<V.State>, steps: seq<V.Step>, sub: string, id: string)
    requires sts != [] && |states| == |steps| + 1 && V.Run(states, steps, 0) && V.Atomic(states, steps)
    requires Mirrors(states, sts) && states[|steps|] == StateOf(sts[|sts| - 1]) && V.Account(sub)
    requires V.Lookup(sts[|sts| - 1].cache, sts[|sts| - 1].now, sub, id).Some?
    ensures var s := sts[|sts| - 1];
      exists i :: 0 <= i < |sts| && s.now - V.TTL < sts[i].now <= s.now && (sub, id) in sts[i].record
                  && sts[i].record[(sub, id)] == V.Lookup(s.cache, s.now, sub, id).value
  {
    var n := |steps|;
    hide V.Run, V.Atomic, V.Lookup, V.Account, V.Apply, Mirrors;
    assert V.Enabled(states[n], V.Hit(sub, id), 0);
    hide V.Enabled;
    var all, run := OneMore(states, steps, V.Hit(sub, id));
    V.AtomicServedIsFresh(all, run, 0, n, sub, id);
    assert all[n] == states[n];
    var j :| 0 <= j <= n && states[n].now - V.TTL < all[j].now <= states[n].now && (sub, id) in all[j].registry
             && V.Lookup(all[n].cache, all[n].now, sub, id) == Some(all[j].registry[(sub, id)]);
    assert all[j] == states[j];
    MirrorAt(states, sts, j);
  }

  lemma MirrorAt(states: seq<V.State>, sts: seq<Shared>, j: nat)
    requires Mirrors(states, sts) && j < |states|
    ensures exists i :: 0 <= i < |sts| && sts[i].now == states[j].now && sts[i].record == states[j].registry
  {
    assert Mirrored(states[j], sts);
  }

  /** Over every sequence of requests, whatever an overview says about a repository is
      what the registry gave that very account about it less than the lifetime ago. */
  lemma OverviewIsFresh(sts: seq<Shared>, moves: seq<Move>, k: nat, repo: Repo, cookies: seq<R.SL.Op>)
    requires Served(sts, moves) && k < |moves| && moves[k].Overview?
    requires R.Open(moves[k].w.loaded, moves[k].w.cookie, moves[k].w.origo) == R.At(repo, cookies)
    requires Badge(sts[k], moves[k].w, repo).Says?
    ensures exists v :: Badge(sts[k], moves[k].w, repo) == ShownOf(v)
                        && GivenLately(sts, k, moves[k].w.Reads().sub, repo.id, v)
  {
    ServedPrefix(sts, moves, k);
    var s, w := sts[k], moves[k].w;
    var sub := w.Reads().sub;
    hide Served, R.Open, ReadSession, V.NulFree;
    if V.Lookup(s.cache, s.now, sub, repo.id).Some? {
      var v := V.Lookup(s.cache, s.now, sub, repo.id).value;
      CachedIsLate(sts, moves, k, sub, repo.id);
      assert Badge(s, w, repo) == ShownOf(v);
    } else {
      var v := w.registry(0).body.answer;
      assert GivenLately(sts, k, sub, repo.id, v);
      assert Badge(s, w, repo) == ShownOf(v);
    }
  }

  // ---- what an overview says after a change ----

  /** In any interleaving, once a change is stored and while the registry says it to the
      account, an overview says the new value, or that it could not find out. */
  lemma OverviewAfterFlip(states: seq<V.State>, steps: seq<V.Step>, flight: nat, a: nat, b: nat, k: nat,
                          sub: string, id: string, target: string, platform: Token, result: RegistryResult)
    requires V.Run(states, steps, flight)
    requires a < b < k < |states| && steps[a] == V.Flip(sub, id, target) && V.StoresTo(steps[b], sub, id)
    requires forall i :: a < i <= k ==> V.Holds(states[i], sub, id, target)
    requires !V.OldInFlight(states[a], sub, id, target)
    requires platform != NoToken && result.Answered? && !NotThere(result.answer)
    requires Readable(result) ==>
      (sub, id) in states[k].registry && states[k].registry[(sub, id)] == result.answer.body.answer
    ensures var shown := VisibilityShown(platform, V.Lookup(states[k].cache, states[k].now, sub, id), result);
      shown == Unknown || (shown.Says? && shown.isPublic == (target == V.PUBLIC))
  {
    V.ReadYourWrites(states, steps, flight, a, b, k, sub, id, target);
    assert V.Holds(states[k], sub, id, target);
    hide V.Run, V.OldInFlight, V.Lookup, V.StoresTo;
  }

  lemma WalkAgrees(s: V.State, steps: seq<V.Step>, t: V.State, sub: string, id: string, target: string)
    requires Walks(s, steps, t) && s.pending == {} && V.Account(sub)
    requires V.Holds(s, sub, id, target) && V.Holds(t, sub, id, target) && V.EntryAgrees(s, sub, id, target)
    ensures V.EntryAgrees(t, sub, id, target)
  {
    hide V.EntryAgrees, V.Holds, V.Account, V.Flipped, V.Deleted, V.Lookup, V.Key;
    if steps != [] {
      V.AgreesStep(s, steps[0], sub, id, target);
      if |steps| == 2 {
        var mid := V.Apply(s, steps[0]);
        assert V.Holds(mid, sub, id, target) by {
          SameHolds(mid, t, sub, id, target);
        }
        V.FlightStep(s, steps[0], 0, sub, id, target);
        V.AgreesStep(mid, steps[1], sub, id, target);
      }
    }
  }

  lemma SameHolds(s: V.State, t: V.State, sub: string, id: string, target: string)
    requires s.registry == t.registry
    ensures V.Holds(s, sub, id, target) <==> V.Holds(t, sub, id, target)
  {
  }

  lemma {:induction false} ChangeStays(sts: seq<Shared>, moves: seq<Move>, a: nat, k: nat,
                                       sub: string, id: string, target: string)
    requires Served(sts, moves) && a < k < |sts| && V.Account(sub)
    requires V.EntryAgrees(StateOf(sts[a + 1]), sub, id, target)
    requires forall i :: a < i <= k ==> V.Holds(StateOf(sts[i]), sub, id, target)
    ensures V.EntryAgrees(StateOf(sts[k]), sub, id, target)
    decreases k
  {
    hide V.EntryAgrees, V.Holds, V.Account, Truthful, After, Walks, Steps;
    if k > a + 1 {
      ChangeStays(sts, moves, a, k - 1, sub, id, target);
      ServedPrefix(sts, moves, k - 1);
      MoveWalks(sts[k - 1], moves[k - 1]);
      WalkAgrees(StateOf(sts[k - 1]), Steps(sts[k - 1], moves[k - 1]), StateOf(sts[k]), sub, id, target);
    }
  }

  /** A move in which this account sets this repository to the target. */
  predicate Sets(m: Move, sub: string, id: string, target: string) {
    m.Change? && m.w.Reads().sub == sub &&
    match Flip(m.w, m.csrf, m.form)
    case None => false
    case Some(flip) => flip.0.id == id && flip.1 == target
  }

  /** A move in which this account sees the overview of this repository. */
  predicate Sees(m: Move, sub: string, repo: Repo) {
    m.Overview? && m.w.Reads().sub == sub &&
    match R.Open(m.w.loaded, m.w.cookie, m.w.origo)
    case Stopped(_) => false
    case At(found, _) => found == repo
  }

  /** After each move from the first to the last of these, the record says the target. */
  predicate HoldsAfter(sts: seq<Shared>, a: nat, k: nat, sub: string, id: string, target: string)
    requires k < |sts|
  {
    forall i :: a < i <= k ==> V.Holds(StateOf(sts[i]), sub, id, target)
  }

  /** Over every sequence of requests, after a change by an account and while the record
      says it to that account, its overviews of the repository say the new value or
      nothing, whatever is evicted and whoever else reads and changes what. */
  lemma OverviewAfterChange(sts: seq<Shared>, moves: seq<Move>, a: nat, k: nat, sub: string, repo: Repo, target: string)
    requires Served(sts, moves) && a < k < |moves| && sub != ""
    ensures Sets(moves[a], sub, repo.id, target) && Sees(moves[k], sub, repo) &&
            HoldsAfter(sts, a, k, sub, repo.id, target) ==>
      var badge := Badge(sts[k], moves[k].w, repo);
      badge.Says? ==> (badge.isPublic <==> target == V.PUBLIC)
  {
    if Sets(moves[a], sub, repo.id, target) && Sees(moves[k], sub, repo) &&
       HoldsAfter(sts, a, k, sub, repo.id, target) {
      ServedPrefix(sts, moves, a);
      ServedPrefix(sts, moves, k);
      ChangeIsStored(sts[a], moves[a], sts[a + 1], sub, repo.id, target);
      hide Served, Sets, Sees, Truthful, After, Badge, StateOf, V.EntryAgrees, V.Holds, V.Account;
      ChangeStays(sts, moves, a, k, sub, repo.id, target);
      BadgeAgrees(sts[k], moves[k], sub, repo, target);
    }
  }

  lemma ChangeIsStored(s: Shared, m: Move, t: Shared, sub: string, id: string, target: string)
    requires Truthful(s, m) && t == After(s, m) && Sets(m, sub, id, target) && sub != ""
    ensures V.Account(sub) && V.EntryAgrees(StateOf(t), sub, id, target)
  {
    hide R.Open, ReadSession, Flip, V.NulFree;
    StoredAgrees(s.cache, s.now, sub, id, V.Answer(target, true));
    assert t.cache == V.Stored(s.cache, s.now, sub, id, V.Answer(target, true));
  }

  lemma BadgeAgrees(s: Shared, m: Move, sub: string, repo: Repo, target: string)
    requires Truthful(s, m) && Sees(m, sub, repo) && V.Account(sub)
    requires V.EntryAgrees(StateOf(s), sub, repo.id, target) && V.Holds(StateOf(s), sub, repo.id, target)
    ensures var badge := Badge(s, m.w, repo);
      badge.Says? ==> (badge.isPublic <==> target == V.PUBLIC)
  {
    hide R.Open, ReadSession, V.NulFree;
  }

  // ---- what an overview says after a deletion ----

  /** A move in which this account deletes this repository. */
  predicate Removes(m: Move, sub: string, id: string) {
    m.Deletion? && m.w.Reads().sub == sub &&
    match Gone(m.w, m.csrf, m.form)
    case None => false
    case Some(repo) => repo.id == id
  }

  /** After each move from the first to the last of these, the record has no answer. */
  predicate SilentAfter(sts: seq<Shared>, a: nat, k: nat, sub: string, id: string)
    requires k < |sts|
  {
    forall i :: a < i <= k ==> V.Silent(StateOf(sts[i]), sub, id)
  }

  lemma WalkUnheld(s: V.State, steps: seq<V.Step>, t: V.State, sub: string, id: string)
    requires Walks(s, steps, t) && s.pending == {} && V.Account(sub)
    requires V.Silent(s, sub, id) && V.Silent(t, sub, id) && V.Unheld(s, sub, id)
    ensures V.Unheld(t, sub, id)
  {
    hide V.Unheld, V.Account, V.Flipped, V.Deleted, V.Lookup, V.Key;
    if steps != [] {
      V.UnheldStep(s, steps[0], sub, id);
      if |steps| == 2 {
        V.SilentStep(s, steps[0], 0, sub, id);
        V.UnheldStep(V.Apply(s, steps[0]), steps[1], sub, id);
      }
    }
  }

  lemma {:induction false} DropStays(sts: seq<Shared>, moves: seq<Move>, a: nat, k: nat, sub: string, id: string)
    requires Served(sts, moves) && a < k < |sts| && V.Account(sub)
    requires V.Unheld(StateOf(sts[a + 1]), sub, id) && SilentAfter(sts, a, k, sub, id)
    ensures V.Unheld(StateOf(sts[k]), sub, id)
    decreases k
  {
    hide V.Unheld, V.Silent, V.Account, Truthful, After, Walks, Steps;
    if k > a + 1 {
      DropStays(sts, moves, a, k - 1, sub, id);
      ServedPrefix(sts, moves, k - 1);
      MoveWalks(sts[k - 1], moves[k - 1]);
      WalkUnheld(StateOf(sts[k - 1]), Steps(sts[k - 1], moves[k - 1]), StateOf(sts[k]), sub, id);
    }
  }

  lemma RemovalDrops(s: Shared, m: Move, sub: string, id: string)
    requires Truthful(s, m) && Removes(m, sub, id) && sub != ""
    ensures V.Account(sub) && V.Unheld(StateOf(After(s, m)), sub, id)
  {
    hide ReadSession, Confirmed, Removal, V.NulFree, V.Deleted;
  }

  lemma NothingToSay(s: Shared, m: Move, sub: string, repo: Repo)
    requires Truthful(s, m) && Sees(m, sub, repo)
    requires V.Unheld(StateOf(s), sub, repo.id) && V.Silent(StateOf(s), sub, repo.id)
    ensures !Badge(s, m.w, repo).Says?
  {
    hide R.Open, ReadSession, V.NulFree;
  }

  /** Over every sequence of requests, after a deletion by an account and while the record
      has no answer for it, its overviews of the repository say nothing. */
  lemma OverviewAfterDeletion(sts: seq<Shared>, moves: seq<Move>, a: nat, k: nat, sub: string, repo: Repo)
    requires Served(sts, moves) && a < k < |moves| && sub != ""
    ensures Removes(moves[a], sub, repo.id) && Sees(moves[k], sub, repo) && SilentAfter(sts, a, k, sub, repo.id) ==>
      !Badge(sts[k], moves[k].w, repo).Says?
  {
    hide Truthful, After, Removes, Sees, Badge, V.Unheld, V.Account;
    ServedPrefix(sts, moves, a);
    ServedPrefix(sts, moves, k);
    if Removes(moves[a], sub, repo.id) && Sees(moves[k], sub, repo) && SilentAfter(sts, a, k, sub, repo.id) {
      RemovalDrops(sts[a], moves[a], sub, repo.id);
      DropStays(sts, moves, a, k, sub, repo.id);
      NothingToSay(sts[k], moves[k], sub, repo);
    }
  }

  lemma StoredAgrees(cache: map<string, V.Entry>, now: nat, sub: string, id: string, v: V.Answer)
    requires sub != ""
    ensures V.Key(sub, id).Some?
    ensures var k := V.Key(sub, id).value;
      k in V.Stored(cache, now, sub, id, v) && V.Stored(cache, now, sub, id, v)[k] == V.Entry(v, now)
  {
  }
}
