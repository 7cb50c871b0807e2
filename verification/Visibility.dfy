/** The visibility cache: keyed by account and repository, bounded in time, written
    through by a change made here. The registry's record, the clock, the cache and
    the answers still on their way to the cache are one state machine. */
module Visibility {
  import opened Wrappers

  /** How long an answer is reused, in milliseconds. */
  const TTL: nat := 30000

  const PUBLIC := "public"
  const PRIVATE := "private"

  /** What the registry says to one account about one repository. */
  datatype Answer = Answer(visibility: string, canChange: bool) {
    predicate IsPublic() { visibility == PUBLIC }
  }

  datatype Entry = Entry(value: Answer, setAt: nat)

  // ---- keys ----

  const NUL := "\0"

  /** The key of an account's answer; an account with no subject has none. */
  function Key(sub: string, id: string): (k: Option<string>)
    ensures k.Some? <==> sub != ""
  {
    if sub == "" then None else Some(sub + NUL + id)
  }

  predicate NulFree(sub: string) {
    '\0' !in sub
  }

  /** Two accounts' keys can meet exactly when one subject is the other followed by a NUL. */
  lemma KeysMeet(sub1: string, sub2: string)
    requires sub1 != "" && sub2 != "" && sub1 != sub2
    ensures (exists id1, id2 :: Key(sub1, id1) == Key(sub2, id2)) <==> sub1 + NUL <= sub2 || sub2 + NUL <= sub1
  {
    if exists id1, id2 :: Key(sub1, id1) == Key(sub2, id2) {
      var id1, id2 :| Key(sub1, id1) == Key(sub2, id2);
      KeysMeetAt(sub1, id1, sub2, id2);
    }
    if sub1 + NUL <= sub2 {
      MeetingKeys(sub1, sub2);
    }
    if sub2 + NUL <= sub1 {
      MeetingKeys(sub2, sub1);
    }
  }

  lemma KeysMeetAt(sub1: string, id1: string, sub2: string, id2: string)
    requires sub1 != "" && sub2 != ""
    requires Key(sub1, id1) == Key(sub2, id2)
    ensures (sub1 == sub2 && id1 == id2) || sub1 + NUL <= sub2 || sub2 + NUL <= sub1
  {
    var k := sub1 + NUL + id1;
    assert k == sub2 + NUL + id2;
    assert k[..|sub1| + 1] == sub1 + NUL && k[..|sub2| + 1] == sub2 + NUL;
    if |sub1| == |sub2| {
      assert sub1 == k[..|sub1|] == sub2;
      assert id1 == k[|sub1| + 1..] == id2;
    } else if |sub1| < |sub2| {
      assert sub2 == k[..|sub2|];
      assert sub2[..|sub1| + 1] == k[..|sub1| + 1];
    } else {
      assert sub1 == k[..|sub1|];
      assert sub1[..|sub2| + 1] == k[..|sub2| + 1];
    }
  }

  lemma MeetingKeys(sub: string, longer: string)
    requires sub != "" && sub + NUL <= longer
    ensures Key(sub, longer[|sub| + 1..] + NUL) == Key(longer, "")
    ensures exists id1, id2 :: Key(sub, id1) == Key(longer, id2)
    ensures exists id1, id2 :: Key(longer, id1) == Key(sub, id2)
  {
    var rest := longer[|sub| + 1..];
    assert longer == sub + NUL + rest;
    assert sub + NUL + (rest + NUL) == longer + NUL + "";
    assert Key(sub, rest + NUL) == Key(longer, "");
    assert Key(longer, "") == Key(sub, rest + NUL);
  }

  /** Without NULs in subjects, a key names one account and one repository. */
  lemma KeyIsInjective(sub1: string, id1: string, sub2: string, id2: string)
    requires sub1 != "" && sub2 != "" && NulFree(sub1) && NulFree(sub2)
    requires Key(sub1, id1) == Key(sub2, id2)
    ensures sub1 == sub2 && id1 == id2
  {
    KeysMeetAt(sub1, id1, sub2, id2);
    HoldsNul(sub1, sub2);
    HoldsNul(sub2, sub1);
  }

  lemma HoldsNul(sub: string, longer: string)
    ensures sub + NUL <= longer ==> !NulFree(longer)
  {
    if sub + NUL <= longer {
      assert longer[|sub|] == (sub + NUL)[|sub|] == '\0';
    }
  }

  // ---- the state machine ----

  /** What the registry would say, by account and repository; a pair it has no
      answer for is refused as absent. */
  type Registry = map<(string, string), Answer>

  /** An answer on its way to the cache, and when the registry gave it. */
  datatype Pending = Pending(sub: string, id: string, value: Answer, asOf: nat)

  datatype State = State(now: nat, registry: Registry, cache: map<string, Entry>, pending: set<Pending>)

  datatype Step =
    | Tick(d: nat)
    | Outside(registry: Registry)
    | Evict(keys: set<string>)
    | Hit(sub: string, id: string)
    | Ask(sub: string, id: string)
    | Flip(sub: string, id: string, target: string)
    | Delete(sub: string, id: string)
    | Store(p: Pending)
    | Invalidate(sub: string, id: string)

  /** A value set less than the lifetime ago. */
  function Lookup(cache: map<string, Entry>, now: nat, sub: string, id: string): Option<Answer> {
    var key := Key(sub, id);
    if key.Some? && key.value in cache && now < cache[key.value].setAt + TTL
    then Some(cache[key.value].value)
    else None
  }

  /** One change by an administrator changes the repository for every account. */
  function Flipped(registry: Registry, id: string, target: string): Registry {
    map p <- registry :: if p.1 == id then registry[p].(visibility := target) else registry[p]
  }

  function Deleted(registry: Registry, id: string): Registry {
    map p <- registry | p.1 != id :: registry[p]
  }

  predicate Account(sub: string) {
    sub != "" && NulFree(sub)
  }

  predicate Administers(registry: Registry, sub: string, id: string) {
    (sub, id) in registry && registry[(sub, id)].canChange
  }

  /** `flight` bounds how long an answer may be on its way to the cache. A reader looks
      the cache up before the registry answers, so the cache may hold an answer by
      then. The registry takes a change only from an administrator. */
  predicate Enabled(s: State, step: Step, flight: nat) {
    match step
    case Tick(d) => forall p <- s.pending :: s.now + d <= p.asOf + flight
    case Outside(_) => true
    case Evict(_) => true
    case Hit(sub, id) => Account(sub) && Lookup(s.cache, s.now, sub, id).Some?
    case Ask(sub, id) => Account(sub) && (sub, id) in s.registry
    case Flip(sub, id, target) =>
      Account(sub) && Administers(s.registry, sub, id) && (target == PUBLIC || target == PRIVATE)
    case Delete(sub, id) => Account(sub) && Administers(s.registry, sub, id)
    case Store(p) => p in s.pending
    case Invalidate(sub, id) => Account(sub)
  }

  function Apply(s: State, step: Step): State {
    match step
    case Tick(d) => s.(now := s.now + d)
    case Outside(registry) => s.(registry := registry)
    case Evict(keys) => s.(cache := s.cache - keys)
    case Hit(_, _) => s
    case Ask(sub, id) =>
      if (sub, id) in s.registry
      then s.(pending := s.pending + {Pending(sub, id, s.registry[(sub, id)], s.now)})
      else s
    case Flip(sub, id, target) =>
      s.(registry := Flipped(s.registry, id, target),
         pending := s.pending + {Pending(sub, id, Answer(target, true), s.now)})
    case Delete(sub, id) => s.(registry := Deleted(s.registry, id))
    case Store(p) =>
      var key := Key(p.sub, p.id);
      s.(pending := s.pending - {p},
         cache := if key.Some? then s.cache[key.value := Entry(p.value, s.now)] else s.cache)
    case Invalidate(sub, id) =>
      var key := Key(sub, id);
      if key.Some? then s.(cache := s.cache - {key.value}) else s
  }

  /** The cache once one answer has been stored at this moment. */
  function Stored(cache: map<string, Entry>, now: nat, sub: string, id: string, v: Answer): map<string, Entry> {
    Apply(State(now, map[], cache, {}), Store(Pending(sub, id, v, now))).cache
  }

  /** The cache once an account's answer about a repository has been dropped. */
  function Dropped(cache: map<string, Entry>, sub: string, id: string): map<string, Entry> {
    Apply(State(0, map[], cache, {}), Invalidate(sub, id)).cache
  }

  lemma StoredMeans(cache: map<string, Entry>, now: nat, sub: string, id: string, v: Answer)
    ensures Stored(cache, now, sub, id, v) ==
            if Key(sub, id).Some? then cache[Key(sub, id).value := Entry(v, now)] else cache
  {
  }

  predicate Initial(s: State) {
    s.cache == map[] && s.pending == {}
  }

  /** A run from an empty cache. */
  predicate Run(states: seq<State>, steps: seq<Step>, flight: nat) {
    |states| == |steps| + 1 && Initial(states[0]) &&
    forall i :: 0 <= i < |steps| ==> Enabled(states[i], steps[i], flight) && states[i + 1] == Apply(states[i], steps[i])
  }

  lemma RunStep(states: seq<State>, steps: seq<Step>, flight: nat, i: nat)
    requires Run(states, steps, flight) && i < |steps|
    ensures |states| == |steps| + 1
    ensures Enabled(states[i], steps[i], flight) && states[i + 1] == Apply(states[i], steps[i])
  {
    hide Enabled, Apply, Initial;
  }

  /** A run goes on with any enabled step. */
  lemma RunGoesOn(states: seq<State>, steps: seq<Step>, flight: nat, step: Step)
    requires Run(states, steps, flight) && Enabled(states[|steps|], step, flight)
    ensures Run(states + [Apply(states[|steps|], step)], steps + [step], flight)
  {
    hide Enabled, Apply, Initial;
  }

  // ---- staleness ----

  /** The registry gave this answer at some moment of the run between two times. */
  predicate GivenBetween(states: seq<State>, i: nat, sub: string, id: string, value: Answer, from: int, to: int)
    requires i < |states|
  {
    exists j :: 0 <= j <= i && from <= states[j].now <= to
                && (sub, id) in states[j].registry && states[j].registry[(sub, id)] == value
  }

  lemma GivenLater(states: seq<State>, i: nat, sub: string, id: string, value: Answer, from: int, to: int)
    requires i + 1 < |states|
    requires GivenBetween(states, i, sub, id, value, from, to)
    ensures GivenBetween(states, i + 1, sub, id, value, from, to)
  {
  }

  predicate PendingBacked(states: seq<State>, i: nat, flight: nat)
    requires i < |states|
  {
    forall p <- states[i].pending ::
      Account(p.sub) && p.asOf <= states[i].now <= p.asOf + flight
      && GivenBetween(states, i, p.sub, p.id, p.value, p.asOf, p.asOf)
  }

  predicate EntryBacked(states: seq<State>, i: nat, flight: nat, sub: string, id: string)
    requires i < |states|
  {
    Account(sub) && Key(sub, id).value in states[i].cache ==>
      var e := states[i].cache[Key(sub, id).value];
      e.setAt <= states[i].now && GivenBetween(states, i, sub, id, e.value, e.setAt - flight, e.setAt)
  }

  ghost predicate CacheBacked(states: seq<State>, i: nat, flight: nat)
    requires i < |states|
  {
    forall sub, id :: EntryBacked(states, i, flight, sub, id)
  }

  lemma PendingStep(states: seq<State>, steps: seq<Step>, flight: nat, i: nat)
    requires Run(states, steps, flight) && i < |steps|
    requires PendingBacked(states, i, flight)
    ensures PendingBacked(states, i + 1, flight)
  {
    hide Lookup, GivenBetween, Key;
    var s, t := states[i], states[i + 1];
    forall p | p in t.pending
      ensures Account(p.sub) && p.asOf <= t.now <= p.asOf + flight
      ensures GivenBetween(states, i + 1, p.sub, p.id, p.value, p.asOf, p.asOf)
    {
      if p in s.pending {
        GivenLater(states, i, p.sub, p.id, p.value, p.asOf, p.asOf);
      } else {
        GivenNow(states, i + 1, p.sub, p.id, p.value);
      }
    }
  }

  lemma GivenNow(states: seq<State>, i: nat, sub: string, id: string, value: Answer)
    requires i < |states|
    requires (sub, id) in states[i].registry && states[i].registry[(sub, id)] == value
    ensures GivenBetween(states, i, sub, id, value, states[i].now, states[i].now)
  {
  }

  lemma GivenWider(states: seq<State>, i: nat, sub: string, id: string, value: Answer, at: int, from: int, to: int)
    requires i < |states| && from <= at <= to
    requires GivenBetween(states, i, sub, id, value, at, at)
    ensures GivenBetween(states, i, sub, id, value, from, to)
  {
  }

  lemma EntryStep(states: seq<State>, steps: seq<Step>, flight: nat, i: nat, sub: string, id: string)
    requires Run(states, steps, flight) && i < |steps|
    requires PendingBacked(states, i, flight) && EntryBacked(states, i, flight, sub, id)
    ensures EntryBacked(states, i + 1, flight, sub, id)
  {
    hide Lookup, GivenBetween, Flipped, Deleted, NulFree, Key;
    var s, t := states[i], states[i + 1];
    if Account(sub) && Key(sub, id).value in t.cache {
      var k := Key(sub, id).value;
      if steps[i].Store? && Key(steps[i].p.sub, steps[i].p.id) == Key(sub, id) {
        var p := steps[i].p;
        KeyIsInjective(p.sub, p.id, sub, id);
        GivenWider(states, i, sub, id, p.value, p.asOf, s.now - flight, s.now);
        GivenLater(states, i, sub, id, p.value, s.now - flight, s.now);
        StoredEntry(s, p);
      } else {
        KeptEntry(s, steps[i], sub, id);
        var e := s.cache[k];
        GivenLater(states, i, sub, id, e.value, e.setAt - flight, e.setAt);
      }
    }
  }

  lemma StoredEntry(s: State, p: Pending)
    requires p.sub != ""
    ensures Key(p.sub, p.id).Some?
    ensures var k := Key(p.sub, p.id).value;
            var t := Apply(s, Store(p));
            k in t.cache && t.cache[k] == Entry(p.value, s.now) && t.now == s.now
  {
  }

  /** Only a store to a key changes what the cache holds under it. */
  lemma KeptEntry(s: State, step: Step, sub: string, id: string)
    requires sub != ""
    requires step.Store? ==> Key(step.p.sub, step.p.id) != Key(sub, id)
    ensures Key(sub, id).Some?
    ensures var k := Key(sub, id).value;
            k in Apply(s, step).cache ==> k in s.cache && Apply(s, step).cache[k] == s.cache[k]
    ensures s.now <= Apply(s, step).now
  {
    hide Flipped, Deleted;
  }

  lemma {:induction false} RunIsBacked(states: seq<State>, steps: seq<Step>, flight: nat, i: nat)
    requires Run(states, steps, flight) && i < |states|
    ensures PendingBacked(states, i, flight) && CacheBacked(states, i, flight)
  {
    if i == 0 {
      hide GivenBetween;
    } else {
      hide PendingBacked, EntryBacked, Enabled, Apply, Initial;
      RunIsBacked(states, steps, flight, i - 1);
      PendingStep(states, steps, flight, i - 1);
      forall sub, id ensures EntryBacked(states, i, flight, sub, id) {
        EntryStep(states, steps, flight, i - 1, sub, id);
      }
    }
  }

  /** Over every run, an answer served from the cache is one the registry gave that
      very account about that repository within the lifetime plus the time an
      answer may be on its way. */
  lemma ServedIsRecent(states: seq<State>, steps: seq<Step>, flight: nat, k: nat, sub: string, id: string)
    requires Run(states, steps, flight) && k < |steps| && steps[k] == Hit(sub, id)
    ensures exists j :: 0 <= j <= k
              && states[k].now - TTL - flight < states[j].now <= states[k].now
              && (sub, id) in states[j].registry
              && Lookup(states[k].cache, states[k].now, sub, id) == Some(states[j].registry[(sub, id)])
  {
    RunIsBacked(states, steps, flight, k);
    assert EntryBacked(states, k, flight, sub, id);
    hide Apply, Flipped, Deleted, NulFree, PendingBacked, CacheBacked;
    assert Enabled(states[k], steps[k], flight);
    var e := states[k].cache[Key(sub, id).value];
    var j :| 0 <= j <= k && e.setAt - flight <= states[j].now <= e.setAt
             && (sub, id) in states[j].registry && states[j].registry[(sub, id)] == e.value;
  }

  // ---- requests taken as atomic ----

  /** Nothing happens between an answer and its storing. */
  predicate Atomic(states: seq<State>, steps: seq<Step>)
    requires |states| == |steps| + 1
  {
    forall i :: 0 <= i < |steps| && states[i].pending != {} ==> steps[i].Store?
  }

  /** In an atomic run an answer on its way is what the registry says now. */
  predicate PendingCurrent(s: State) {
    (forall p <- s.pending :: (p.sub, p.id) in s.registry && s.registry[(p.sub, p.id)] == p.value && p.asOf == s.now)
  }

  lemma {:induction false} AtomicIsCurrent(states: seq<State>, steps: seq<Step>, flight: nat, i: nat)
    requires Run(states, steps, flight) && Atomic(states, steps) && i < |states|
    ensures PendingCurrent(states[i])
  {
    if i > 0 {
      AtomicIsCurrent(states, steps, flight, i - 1);
      hide Lookup, Key, NulFree;
      var s, step := states[i - 1], steps[i - 1];
      assert s.pending != {} ==> step.Store?;
      assert Enabled(s, step, flight) && states[i] == Apply(s, step);
    }
  }

  /** With requests atomic, the bound is the lifetime alone. */
  lemma {:induction false} AtomicRunFits(states: seq<State>, steps: seq<Step>, flight: nat, n: nat)
    requires Run(states, steps, flight) && Atomic(states, steps) && n <= |steps|
    ensures Run(states[..n + 1], steps[..n], 0)
  {
    hide Lookup, Key, NulFree, Flipped, Deleted, Apply;
    forall i | 0 <= i < n ensures Enabled(states[i], steps[i], 0) {
      AtomicIsCurrent(states, steps, flight, i);
      assert Enabled(states[i], steps[i], flight);
      if steps[i].Tick? {
        assert states[i].pending == {};
      }
    }
  }

  /** With requests atomic, an answer served from the cache is less than thirty
      seconds old. */
  lemma AtomicServedIsFresh(states: seq<State>, steps: seq<Step>, flight: nat, k: nat, sub: string, id: string)
    requires Run(states, steps, flight) && Atomic(states, steps) && k < |steps| && steps[k] == Hit(sub, id)
    ensures exists j :: 0 <= j <= k
              && states[k].now - TTL < states[j].now <= states[k].now
              && (sub, id) in states[j].registry
              && Lookup(states[k].cache, states[k].now, sub, id) == Some(states[j].registry[(sub, id)])
  {
    hide Enabled, Apply, Initial, Lookup, Atomic;
    AtomicRunFits(states, steps, flight, |steps|);
    assert states[..|states|] == states && steps[..|steps|] == steps;
    ServedIsRecent(states, steps, 0, k, sub, id);
  }

  // ---- read your writes ----

  predicate Agrees(s: State, sub: string, id: string, target: string) {
    var v := Lookup(s.cache, s.now, sub, id);
    v.Some? ==> v.value.visibility == target
  }

  predicate EntryAgrees(s: State, sub: string, id: string, target: string) {
    Key(sub, id).Some? && Key(sub, id).value in s.cache ==> s.cache[Key(sub, id).value].value.visibility == target
  }

  /** The registry goes on saying the target to the account. */
  predicate Holds(s: State, sub: string, id: string, target: string) {
    (sub, id) in s.registry && s.registry[(sub, id)].visibility == target
  }

  /** An answer to this account about this repository is on its way, and says otherwise. */
  predicate OldInFlight(s: State, sub: string, id: string, target: string) {
    exists p <- s.pending :: p.sub == sub && p.id == id && p.value.visibility != target
  }

  predicate StoresTo(step: Step, sub: string, id: string) {
    step.Store? && step.p.sub == sub && step.p.id == id
  }

  lemma AgreesStep(s: State, step: Step, sub: string, id: string, target: string)
    requires Account(sub) && (step.Store? ==> Account(step.p.sub) && step.p in s.pending)
    requires !OldInFlight(s, sub, id, target)
    requires EntryAgrees(s, sub, id, target) || StoresTo(step, sub, id)
    ensures EntryAgrees(Apply(s, step), sub, id, target)
  {
    hide Flipped, Deleted, NulFree, Key;
    if step.Store? && Key(step.p.sub, step.p.id) == Key(sub, id) {
      KeyIsInjective(step.p.sub, step.p.id, sub, id);
      StoredEntry(s, step.p);
    } else {
      hide Apply;
      KeptEntry(s, step, sub, id);
    }
  }

  /** While the registry says the target to the account, no other answer sets out. */
  lemma FlightStep(s: State, step: Step, flight: nat, sub: string, id: string, target: string)
    requires Enabled(s, step, flight) && !OldInFlight(s, sub, id, target)
    requires Holds(s, sub, id, target) || step == Flip(sub, id, target)
    requires Holds(Apply(s, step), sub, id, target)
    ensures !OldInFlight(Apply(s, step), sub, id, target)
  {
    hide Lookup, Key, NulFree, Deleted;
  }

  lemma {:induction false} NoneInFlight(states: seq<State>, steps: seq<Step>, flight: nat, a: nat, k: nat,
                                        sub: string, id: string, target: string)
    requires Run(states, steps, flight)
    requires a <= k < |states| && a < |steps| && steps[a] == Flip(sub, id, target)
    requires forall i :: a < i <= k ==> Holds(states[i], sub, id, target)
    requires !OldInFlight(states[a], sub, id, target)
    ensures !OldInFlight(states[k], sub, id, target)
    decreases k
  {
    if k > a {
      hide OldInFlight, Holds, Apply, Enabled;
      NoneInFlight(states, steps, flight, a, k - 1, sub, id, target);
      assert Enabled(states[k - 1], steps[k - 1], flight) && states[k] == Apply(states[k - 1], steps[k - 1]);
      assert k - 1 > a ==> Holds(states[k - 1], sub, id, target);
      FlightStep(states[k - 1], steps[k - 1], flight, sub, id, target);
    }
  }

  lemma {:induction false} WrittenStays(states: seq<State>, steps: seq<Step>, flight: nat, a: nat, b: nat, k: nat,
                                        sub: string, id: string, target: string)
    requires Run(states, steps, flight)
    requires a < b < k < |states| && steps[a] == Flip(sub, id, target) && StoresTo(steps[b], sub, id)
    requires forall i :: a < i <= k ==> Holds(states[i], sub, id, target)
    requires !OldInFlight(states[a], sub, id, target)
    ensures EntryAgrees(states[k], sub, id, target)
    decreases k
  {
    RunStep(states, steps, flight, k - 1);
    RunStep(states, steps, flight, a);
    NoneInFlight(states, steps, flight, a, k - 1, sub, id, target);
    if steps[k - 1].Store? {
      StoreIsAccounts(states, steps, flight, k - 1);
    }
    assert Account(sub) by {
      hide Account;
    }
    hide Run, Apply, Enabled, EntryAgrees, Holds, OldInFlight, Account;
    if k > b + 1 {
      WrittenStays(states, steps, flight, a, b, k - 1, sub, id, target);
    }
    AgreesStep(states[k - 1], steps[k - 1], sub, id, target);
  }

  lemma StoreIsAccounts(states: seq<State>, steps: seq<Step>, flight: nat, i: nat)
    requires Run(states, steps, flight) && i < |steps| && steps[i].Store?
    ensures Account(steps[i].p.sub) && steps[i].p in states[i].pending
  {
    RunStep(states, steps, flight, i);
    RunIsBacked(states, steps, flight, i);
    hide Run, Apply, GivenBetween, CacheBacked, Account;
  }

  /** An account that changed a repository is not served another value from the cache
      once the change is stored and while the registry goes on saying the new one, in
      any interleaving and under any eviction, when no other answer to this account
      about this repository was on its way at the change. */
  lemma ReadYourWrites(states: seq<State>, steps: seq<Step>, flight: nat, a: nat, b: nat, k: nat,
                       sub: string, id: string, target: string)
    requires Run(states, steps, flight)
    requires a < b < k < |states| && steps[a] == Flip(sub, id, target) && StoresTo(steps[b], sub, id)
    requires forall i :: a < i <= k ==> Holds(states[i], sub, id, target)
    requires !OldInFlight(states[a], sub, id, target)
    ensures Agrees(states[k], sub, id, target)
  {
    hide Run, Holds, Key, OldInFlight;
    WrittenStays(states, steps, flight, a, b, k, sub, id, target);
  }

  /** And when one was, these three steps are enabled and end in a cache that
      contradicts the registry. */
  lemma SlowReadOverwrites(s: State, sub: string, id: string, target: string, flight: nat, p: Pending)
    requires Enabled(s, Flip(sub, id, target), flight)
    requires p in s.pending && p.sub == sub && p.id == id && p.value.visibility != target
    ensures var written := Pending(sub, id, Answer(target, true), s.now);
            var s1 := Apply(s, Flip(sub, id, target));
            var s2 := Apply(s1, Store(written));
            var s3 := Apply(s2, Store(p));
            Enabled(s1, Store(written), flight) && Enabled(s2, Store(p), flight)
            && Holds(s1, sub, id, target) && Holds(s2, sub, id, target) && Holds(s3, sub, id, target)
            && !Agrees(s3, sub, id, target)
  {
    hide NulFree;
  }

  /** Such an answer need only be a read that is slower than the change: from any start in
      which an account administers a private repository, these four steps are a run. */
  lemma SlowReadRun(s: State, sub: string, id: string, flight: nat)
    requires Account(sub) && Administers(s.registry, sub, id) && s.registry[(sub, id)].visibility == PRIVATE
    requires Initial(s)
    ensures var old' := Pending(sub, id, s.registry[(sub, id)], s.now);
            var new' := Pending(sub, id, Answer(PUBLIC, true), s.now);
            var steps := [Ask(sub, id), Flip(sub, id, PUBLIC), Store(new'), Store(old')];
            var s1 := Apply(s, steps[0]); var s2 := Apply(s1, steps[1]);
            var s3 := Apply(s2, steps[2]); var s4 := Apply(s3, steps[3]);
            Run([s, s1, s2, s3, s4], steps, flight)
            && Holds(s4, sub, id, PUBLIC) && !Agrees(s4, sub, id, PUBLIC)
  {
    hide NulFree;
  }

  /** However this run goes on with the change, once it is stored and while it holds the
      account is served nothing else. */
  ghost predicate KeptFromHere(states: seq<State>, steps: seq<Step>, flight: nat, sub: string, id: string,
                               target: string)
    requires |states| == |steps| + 1
  {
    forall all: seq<State>, run: seq<Step>, b: nat, k: nat ::
      Run(all, run, flight) && GoesOn(states, steps, all, run, Flip(sub, id, target)) &&
      |steps| < b < k < |all| && StoresTo(run[b], sub, id) &&
      (forall i :: |steps| < i <= k ==> Holds(all[i], sub, id, target)) ==>
        Agrees(all[k], sub, id, target)
  }

  predicate GoesOn(states: seq<State>, steps: seq<Step>, all: seq<State>, run: seq<Step>, next: Step) {
    |states| == |steps| + 1 && |states| < |all| && |steps| < |run| &&
    all[..|states|] == states && run[..|steps|] == steps && run[|steps|] == next
  }

  /** The exact condition, at any point of any run: a change made there is kept however
      the run goes on if and only if no other answer to the account about the repository
      is on its way. */
  lemma ReadYourWritesExactly(states: seq<State>, steps: seq<Step>, flight: nat, sub: string, id: string,
                              target: string)
    requires Run(states, steps, flight) && Enabled(states[|steps|], Flip(sub, id, target), flight)
    ensures KeptFromHere(states, steps, flight, sub, id, target) <==> !OldInFlight(states[|steps|], sub, id, target)
  {
    hide Apply, Enabled, Holds, Agrees, Lookup;
    var a := |steps|;
    if OldInFlight(states[a], sub, id, target) {
      var p :| p in states[a].pending && p.sub == sub && p.id == id && p.value.visibility != target;
      Overwritten(states, steps, flight, sub, id, target, p);
    } else {
      forall all: seq<State>, run: seq<Step>, b: nat, k: nat |
        Run(all, run, flight) && GoesOn(states, steps, all, run, Flip(sub, id, target)) &&
        a < b < k < |all| && StoresTo(run[b], sub, id) && (forall i :: a < i <= k ==> Holds(all[i], sub, id, target))
        ensures Agrees(all[k], sub, id, target)
      {
        assert all[a] == all[..|states|][a];
        ReadYourWrites(all, run, flight, a, b, k, sub, id, target);
      }
    }
  }

  lemma Overwritten(states: seq<State>, steps: seq<Step>, flight: nat, sub: string, id: string, target: string,
                    p: Pending)
    requires Run(states, steps, flight) && Enabled(states[|steps|], Flip(sub, id, target), flight)
    requires p in states[|steps|].pending && p.sub == sub && p.id == id && p.value.visibility != target
    ensures !KeptFromHere(states, steps, flight, sub, id, target)
  {
    RunLength(states, steps, flight);
    hide Apply, Enabled, Holds, Agrees, Lookup, Run;
    var s := states[|steps|];
    SlowReadOverwrites(s, sub, id, target, flight, p);
    var written := Pending(sub, id, Answer(target, true), s.now);
    var n := |steps|;
    var all, run := ThreeMore(states, steps, flight, Flip(sub, id, target), Store(written), Store(p));
    assert GoesOn(states, steps, all, run, Flip(sub, id, target));
    assert StoresTo(run[n + 1], sub, id) && !Agrees(all[n + 3], sub, id, target);
  }

  lemma ThreeMore(states: seq<State>, steps: seq<Step>, flight: nat, e1: Step, e2: Step, e3: Step)
    returns (all: seq<State>, run: seq<Step>)
    requires Run(states, steps, flight)
    requires var s := states[|steps|];
             Enabled(s, e1, flight) && Enabled(Apply(s, e1), e2, flight) && Enabled(Apply(Apply(s, e1), e2), e3, flight)
    ensures Run(all, run, flight) && GoesOn(states, steps, all, run, e1) && |all| == |states| + 3
    ensures |run| == |steps| + 3 && run[|steps| + 1] == e2
    ensures all[|states|] == Apply(states[|steps|], e1)
    ensures all[|states| + 1] == Apply(all[|states|], e2) && all[|states| + 2] == Apply(all[|states| + 1], e3)
  {
    var s1 := Apply(states[|steps|], e1);
    var s2 := Apply(s1, e2);
    RunGoesOn(states, steps, flight, e1);
    RunGoesOn(states + [s1], steps + [e1], flight, e2);
    RunGoesOn(states + [s1] + [s2], steps + [e1] + [e2], flight, e3);
    hide *;
    all, run := states + [s1] + [s2] + [Apply(s2, e3)], steps + [e1] + [e2] + [e3];
    assert |states| == |steps| + 1 by {
      RunLength(states, steps, flight);
    }
    assert GoesOn(states, steps, all, run, e1) by {
      PrefixGoesOn(states, steps, all, run, e1);
    }
  }

  lemma RunLength(states: seq<State>, steps: seq<Step>, flight: nat)
    requires Run(states, steps, flight)
    ensures |states| == |steps| + 1
  {
  }

  lemma PrefixGoesOn(states: seq<State>, steps: seq<Step>, all: seq<State>, run: seq<Step>, next: Step)
    requires |states| == |steps| + 1 && states < all && steps + [next] <= run
    ensures GoesOn(states, steps, all, run, next)
  {
    assert run[..|steps|] == steps && run[|steps|] == (steps + [next])[|steps|];
  }

  /** In an atomic run the step after a change stores it. */
  lemma AtomicFlip(states: seq<State>, steps: seq<Step>, flight: nat, a: nat, sub: string, id: string, target: string)
    requires Run(states, steps, flight) && Atomic(states, steps)
    requires a + 1 < |steps| && steps[a] == Flip(sub, id, target)
    ensures steps[a + 1].Store? && steps[a + 1].p.sub == sub && steps[a + 1].p.id == id
  {
    hide Lookup, Flipped, Deleted, Key, NulFree;
    assert states[a + 1] == Apply(states[a], steps[a]);
    assert Enabled(states[a], steps[a], flight);
    assert states[a].pending == {};
    assert Enabled(states[a + 1], steps[a + 1], flight);
  }

  /** With requests atomic nothing is on its way at a change, and the step after it
      stores it, so the change is always kept. */
  lemma AtomicReadYourWrites(states: seq<State>, steps: seq<Step>, flight: nat, a: nat, k: nat,
                             sub: string, id: string, target: string)
    requires Run(states, steps, flight) && Atomic(states, steps)
    requires a + 2 <= k < |states| && steps[a] == Flip(sub, id, target)
    requires forall i :: a < i <= k ==> Holds(states[i], sub, id, target)
    ensures Agrees(states[k], sub, id, target)
  {
    AtomicFlip(states, steps, flight, a, sub, id, target);
    assert states[a].pending == {};
    hide Run, Atomic, Holds, Key, Agrees;
    ReadYourWrites(states, steps, flight, a, a + 1, k, sub, id, target);
  }

  // ---- a deletion is forgotten ----

  predicate InFlight(s: State, sub: string, id: string) {
    exists p <- s.pending :: p.sub == sub && p.id == id
  }

  predicate Unheld(s: State, sub: string, id: string) {
    Key(sub, id).Some? ==> Key(sub, id).value !in s.cache
  }

  /** The registry has no answer for the account about the repository. */
  predicate Silent(s: State, sub: string, id: string) {
    (sub, id) !in s.registry
  }

  /** While the registry has no answer, none sets out. */
  lemma SilentStep(s: State, step: Step, flight: nat, sub: string, id: string)
    requires Enabled(s, step, flight) && !InFlight(s, sub, id)
    requires Silent(s, sub, id) || step == Delete(sub, id)
    ensures !InFlight(Apply(s, step), sub, id)
  {
    hide Lookup, Key, NulFree, Flipped, Deleted;
  }

  lemma UnheldStep(s: State, step: Step, sub: string, id: string)
    requires Account(sub) && (step.Store? ==> Account(step.p.sub) && step.p in s.pending)
    requires !InFlight(s, sub, id)
    requires Unheld(s, sub, id) || step == Invalidate(sub, id)
    ensures Unheld(Apply(s, step), sub, id)
  {
    hide Flipped, Deleted, NulFree, Key;
    if step.Store? && Key(step.p.sub, step.p.id) == Key(sub, id) {
      KeyIsInjective(step.p.sub, step.p.id, sub, id);
    }
  }

  lemma {:induction false} NoneSetsOut(states: seq<State>, steps: seq<Step>, flight: nat, a: nat, k: nat,
                                       sub: string, id: string)
    requires Run(states, steps, flight) && a <= k < |states| && a < |steps| && steps[a] == Delete(sub, id)
    requires forall i :: a < i <= k ==> Silent(states[i], sub, id)
    requires !InFlight(states[a], sub, id)
    ensures !InFlight(states[k], sub, id)
    decreases k
  {
    if k > a {
      RunStep(states, steps, flight, k - 1);
      NoneSetsOut(states, steps, flight, a, k - 1, sub, id);
      hide Run, InFlight, Silent, Apply, Enabled;
      SilentStep(states[k - 1], steps[k - 1], flight, sub, id);
    }
  }

  /** In any interleaving and under any eviction, once a deletion has been invalidated and
      while the registry has no answer, the cache holds nothing about the repository for
      the account, when no answer to it was on its way at the deletion. */
  lemma {:induction false} DeletionStays(states: seq<State>, steps: seq<Step>, flight: nat, a: nat, b: nat, k: nat,
                                         sub: string, id: string)
    requires Run(states, steps, flight)
    requires a < b < k < |states| && steps[a] == Delete(sub, id) && steps[b] == Invalidate(sub, id)
    requires forall i :: a < i <= k ==> Silent(states[i], sub, id)
    requires !InFlight(states[a], sub, id)
    ensures Unheld(states[k], sub, id)
    decreases k
  {
    RunStep(states, steps, flight, k - 1);
    RunStep(states, steps, flight, b);
    NoneSetsOut(states, steps, flight, a, k - 1, sub, id);
    if steps[k - 1].Store? {
      StoreIsAccounts(states, steps, flight, k - 1);
    }
    assert Account(sub) by {
      hide Account;
    }
    hide Run, Apply, Enabled, InFlight, Silent, Unheld, Account;
    if k > b + 1 {
      DeletionStays(states, steps, flight, a, b, k - 1, sub, id);
    }
    UnheldStep(states[k - 1], steps[k - 1], sub, id);
  }

  /** And when one was, these three steps are enabled and leave it in the cache. */
  lemma SlowReadRevives(s: State, sub: string, id: string, flight: nat, p: Pending)
    requires Enabled(s, Delete(sub, id), flight)
    requires p in s.pending && p.sub == sub && p.id == id
    ensures var s1 := Apply(s, Delete(sub, id));
            var s2 := Apply(s1, Invalidate(sub, id));
            var s3 := Apply(s2, Store(p));
            Enabled(s1, Invalidate(sub, id), flight) && Enabled(s2, Store(p), flight)
            && Silent(s1, sub, id) && Silent(s2, sub, id) && Silent(s3, sub, id)
            && Lookup(s3.cache, s3.now, sub, id) == Some(p.value)
  {
    hide NulFree;
  }

  /** However this run goes on with the deletion, once it is invalidated and while it
      holds the account is served nothing about the repository. */
  ghost predicate GoneFromHere(states: seq<State>, steps: seq<Step>, flight: nat, sub: string, id: string)
    requires |states| == |steps| + 1
  {
    forall all: seq<State>, run: seq<Step>, b: nat, k: nat ::
      Run(all, run, flight) && GoesOn(states, steps, all, run, Delete(sub, id)) &&
      |steps| < b < k < |all| && run[b] == Invalidate(sub, id) &&
      (forall i :: |steps| < i <= k ==> Silent(all[i], sub, id)) ==>
        Lookup(all[k].cache, all[k].now, sub, id) == None
  }

  /** The exact condition, at any point of any run: a deletion made there is forgotten
      however the run goes on if and only if no answer to the account about the
      repository is on its way. */
  lemma DeletionForgottenExactly(states: seq<State>, steps: seq<Step>, flight: nat, sub: string, id: string)
    requires Run(states, steps, flight) && Enabled(states[|steps|], Delete(sub, id), flight)
    ensures GoneFromHere(states, steps, flight, sub, id) <==> !InFlight(states[|steps|], sub, id)
  {
    hide Apply, Enabled, Silent;
    var a := |steps|;
    if InFlight(states[a], sub, id) {
      var p :| p in states[a].pending && p.sub == sub && p.id == id;
      Revived(states, steps, flight, sub, id, p);
    } else {
      forall all: seq<State>, run: seq<Step>, b: nat, k: nat |
        Run(all, run, flight) && GoesOn(states, steps, all, run, Delete(sub, id)) &&
        a < b < k < |all| && run[b] == Invalidate(sub, id) && (forall i :: a < i <= k ==> Silent(all[i], sub, id))
        ensures Lookup(all[k].cache, all[k].now, sub, id) == None
      {
        assert all[a] == all[..|states|][a];
        DeletionStays(all, run, flight, a, b, k, sub, id);
      }
    }
  }

  lemma Revived(states: seq<State>, steps: seq<Step>, flight: nat, sub: string, id: string, p: Pending)
    requires Run(states, steps, flight) && Enabled(states[|steps|], Delete(sub, id), flight)
    requires p in states[|steps|].pending && p.sub == sub && p.id == id
    ensures !GoneFromHere(states, steps, flight, sub, id)
  {
    RunLength(states, steps, flight);
    hide Apply, Enabled, Silent, Lookup, Run;
    SlowReadRevives(states[|steps|], sub, id, flight, p);
    var n := |steps|;
    var all, run := ThreeMore(states, steps, flight, Delete(sub, id), Invalidate(sub, id), Store(p));
    assert GoesOn(states, steps, all, run, Delete(sub, id));
    assert run[n + 1] == Invalidate(sub, id) && Lookup(all[n + 3].cache, all[n + 3].now, sub, id) != None;
  }
}
