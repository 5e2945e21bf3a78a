/** The single-flight cache of verified releases: callers interleave between the two
    sections that hold the lock.
 */
module ReleaseCache {
  import opened Options

  datatype Result<+R> = Ok(release: R) | Err(error: string)

  /** Loads are numbered in the order in which they start; started holds the key of each, and
      done the result of each finished one. */
  datatype State<R> = State(
    cache: map<string, R>,
    loads: map<string, nat>,
    started: seq<string>,
    done: map<nat, Result<R>>,
    callers: map<nat, Caller<R>>)

  /** A caller runs a load, waits for one, or has returned (cancelled: with the error of its
      own context). */
  datatype Caller<R> =
    | Loading(key: string, load: nat)
    | Waiting(key: string, load: nat)
    | Returned(key: string, joined: Option<nat>, cancelled: bool, result: Result<R>)

  // ---------------------------------------------------------------------
  // The shared maps
  // ---------------------------------------------------------------------

  datatype Entry<R> = Hit(release: R) | Join(load: nat) | Start(load: nat)

  /** The first locked section: a cached release, an active load, or a new one. */
  function Entered<R>(cache: map<string, R>, loads: map<string, nat>, started: seq<string>, key: string): (map<string, nat>, seq<string>, Entry<R>) {
    if key in cache then (loads, started, Hit(cache[key]))
    else if key in loads then (loads, started, Join(loads[key]))
    else (loads[key := |started|], started + [key], Start(|started|))
  }

  /** The second locked section, after the loader returned. */
  function Completed<R>(cache: map<string, R>, loads: map<string, nat>, key: string, result: Result<R>): (map<string, R>, map<string, nat>) {
    (if result.Ok? then cache[key := result.release] else cache, loads - {key})
  }

  class Releases<R> {
    var cache: map<string, R>
    var loads: map<string, nat>
    var started: seq<string>

    constructor ()
      ensures cache == map[] && loads == map[] && started == []
    {
      cache, loads, started := map[], map[], [];
    }

    method Enter(key: string) returns (entry: Entry<R>)
      modifies this`loads, this`started
      ensures (loads, started, entry) == Entered(cache, old(loads), old(started), key)
    {
      if key in cache {
        return Hit(cache[key]);
      }
      if key in loads {
        return Join(loads[key]);
      }
      entry := Start(|started|);
      loads := loads[key := |started|];
      started := started + [key];
    }

    method Complete(key: string, result: Result<R>)
      modifies this`cache, this`loads
      ensures (cache, loads) == Completed(old(cache), old(loads), key, result)
    {
      loads := loads - {key};
      if result.Ok? {
        cache := cache[key := result.release];
      }
    }
  }

  // ---------------------------------------------------------------------
  // Steps
  // ---------------------------------------------------------------------

  datatype Action<R> =
    | Call(caller: nat, key: string)
    | Finish(caller: nat, result: Result<R>)
    | Wake(caller: nat)
    | Cancel(caller: nat, error: string)

  function CallerOf<R>(key: string, entry: Entry<R>): Caller<R> {
    match entry
    case Hit(release) => Returned(key, None, false, Ok(release))
    case Join(load) => Waiting(key, load)
    case Start(load) => Loading(key, load)
  }

  function Apply<R>(s: State<R>, a: Action<R>): State<R> {
    match a
    case Call(w, key) =>
      if w in s.callers then s
      else
        var (loads, started, entry) := Entered(s.cache, s.loads, s.started, key);
        s.(loads := loads, started := started, callers := s.callers[w := CallerOf(key, entry)])
    case Finish(w, result) =>
      if w in s.callers && s.callers[w].Loading? then
        var key, load := s.callers[w].key, s.callers[w].load;
        var (cache, loads) := Completed(s.cache, s.loads, key, result);
        State(cache, loads, s.started, s.done[load := result], s.callers[w := Returned(key, Some(load), false, result)])
      else s
    case Wake(w) =>
      if w in s.callers && s.callers[w].Waiting? && s.callers[w].load in s.done
      then s.(callers := s.callers[w := Returned(s.callers[w].key, Some(s.callers[w].load), false, s.done[s.callers[w].load])])
      else s
    case Cancel(w, error) =>
      if w in s.callers && s.callers[w].Waiting?
      then s.(callers := s.callers[w := Returned(s.callers[w].key, Some(s.callers[w].load), true, Err(error))])
      else s
  }

  function Run<R>(s: State<R>, actions: seq<Action<R>>): State<R>
    decreases |actions|
  {
    if actions == [] then s else Run(Apply(s, actions[0]), actions[1..])
  }

  function Init<R>(): State<R> {
    State(map[], map[], [], map[], map[])
  }

  // ---------------------------------------------------------------------
  // Invariant
  // ---------------------------------------------------------------------

  predicate StartedFor<R>(s: State<R>, load: nat, key: string) {
    load < |s.started| && s.started[load] == key
  }

  ghost predicate CallerOk<R>(s: State<R>, c: Caller<R>) {
    match c
    case Loading(key, load) => key in s.loads && s.loads[key] == load
    case Waiting(key, load) => StartedFor(s, load, key) && (load in s.done || (key in s.loads && s.loads[key] == load))
    case Returned(key, joined, cancelled, result) =>
      match joined
      case None => !cancelled && result.Ok? && key in s.cache && s.cache[key] == result.release
      case Some(load) => StartedFor(s, load, key) && (if cancelled then result.Err? else load in s.done && s.done[load] == result)
  }

  ghost predicate CallersInv<R>(s: State<R>) {
    forall w :: w in s.callers ==> CallerOk(s, s.callers[w])
  }

  predicate LoadsKey<R>(s: State<R>, w: nat, key: string) {
    w in s.callers && s.callers[w].Loading? && s.callers[w].key == key
  }

  ghost predicate OneLoader<R>(s: State<R>) {
    forall v, w, key :: LoadsKey(s, v, key) && LoadsKey(s, w, key) ==> v == w
  }

  ghost predicate LoadsInv<R>(s: State<R>) {
    && (forall key :: key in s.loads ==> key !in s.cache && StartedFor(s, s.loads[key], key) && s.loads[key] !in s.done)
    && (forall load :: load in s.done ==> load < |s.started|)
  }

  /** What is cached for the key is what a load started for it returned. */
  ghost predicate Fetched<R>(s: State<R>, key: string)
    requires key in s.cache
  {
    exists load :: load in s.done && StartedFor(s, load, key) && s.done[load] == Ok(s.cache[key])
  }

  /** A successful load is cached under the key that it was started for. */
  ghost predicate Stored<R>(s: State<R>, load: nat)
    requires load in s.done
  {
    load < |s.started| && (s.done[load].Ok? ==> s.started[load] in s.cache && s.cache[s.started[load]] == s.done[load].release)
  }

  ghost predicate HistoryInv<R>(s: State<R>) {
    (forall key :: key in s.cache ==> Fetched(s, key)) && (forall load :: load in s.done ==> Stored(s, load))
  }

  ghost predicate Inv<R>(s: State<R>) {
    CallersInv(s) && OneLoader(s) && LoadsInv(s) && HistoryInv(s)
  }

  lemma CallCallers<R>(s: State<R>, w: nat, key: string)
    requires CallersInv(s) && LoadsInv(s)
    ensures CallersInv(Apply(s, Call(w, key)))
  {
    var t := Apply(s, Call(w, key));
    forall v | v in t.callers
      ensures CallerOk(t, t.callers[v])
    {
      assert v in s.callers ==> CallerOk(s, s.callers[v]);
    }
  }

  lemma CallOneLoader<R>(s: State<R>, w: nat, key: string)
    requires CallersInv(s) && OneLoader(s)
    ensures OneLoader(Apply(s, Call(w, key)))
  {
    var t := Apply(s, Call(w, key));
    forall u, v, k | LoadsKey(t, u, k) && LoadsKey(t, v, k)
      ensures u == v
    {
      LoaderRegistered(s, u, k);
      LoaderRegistered(s, v, k);
      assert u != w ==> LoadsKey(s, u, k);
      assert v != w ==> LoadsKey(s, v, k);
    }
  }

  lemma LoaderRegistered<R>(s: State<R>, w: nat, key: string)
    requires CallersInv(s)
    ensures LoadsKey(s, w, key) ==> key in s.loads && s.loads[key] == s.callers[w].load
  {
    if LoadsKey(s, w, key) {
      assert CallerOk(s, s.callers[w]);
    }
  }

  lemma CallLoads<R>(s: State<R>, w: nat, key: string)
    requires LoadsInv(s)
    ensures LoadsInv(Apply(s, Call(w, key)))
  {
  }

  /** Loads that started and finished stay known. */
  ghost predicate Remembers<R>(s: State<R>, t: State<R>) {
    s.started <= t.started && forall load :: load in s.done ==> load in t.done && t.done[load] == s.done[load]
  }

  lemma FetchedKept<R>(s: State<R>, t: State<R>, key: string)
    requires Remembers(s, t) && key in s.cache && key in t.cache && t.cache[key] == s.cache[key] && Fetched(s, key)
    ensures Fetched(t, key)
  {
    var load :| load in s.done && StartedFor(s, load, key) && s.done[load] == Ok(s.cache[key]);
    assert StartedFor(t, load, key);
  }

  lemma StoredKept<R>(s: State<R>, t: State<R>, load: nat)
    requires Remembers(s, t) && load in s.done && Stored(s, load)
    requires forall key :: key in s.cache ==> key in t.cache && t.cache[key] == s.cache[key]
    ensures Stored(t, load)
  {
    assert t.started[load] == s.started[load];
  }

  /** Steps that leave cache and results alone. */
  lemma HistoryKept<R>(s: State<R>, t: State<R>)
    requires HistoryInv(s) && s.started <= t.started && t.done == s.done && t.cache == s.cache
    ensures HistoryInv(t)
  {
    hide Fetched, Stored;
    forall key | key in t.cache
      ensures Fetched(t, key)
    {
      FetchedKept(s, t, key);
    }
    forall load | load in t.done
      ensures Stored(t, load)
    {
      StoredKept(s, t, load);
    }
  }

  lemma OnlyFinishRecords<R>(s: State<R>, a: Action<R>)
    requires !a.Finish?
    ensures var t := Apply(s, a); s.started <= t.started && t.done == s.done && t.cache == s.cache
  {
  }

  lemma CallInv<R>(s: State<R>, w: nat, key: string)
    requires Inv(s)
    ensures Inv(Apply(s, Call(w, key)))
  {
    hide CallersInv, OneLoader, LoadsInv, HistoryInv, Apply;
    CallCallers(s, w, key);
    CallOneLoader(s, w, key);
    CallLoads(s, w, key);
    OnlyFinishRecords(s, Call(w, key));
    HistoryKept(s, Apply(s, Call(w, key)));
  }

  lemma FinishCallers<R>(s: State<R>, w: nat, result: Result<R>)
    requires CallersInv(s) && OneLoader(s) && LoadsInv(s) && w in s.callers && s.callers[w].Loading?
    ensures CallersInv(Apply(s, Finish(w, result))) && OneLoader(Apply(s, Finish(w, result))) && LoadsInv(Apply(s, Finish(w, result)))
  {
    var t := Apply(s, Finish(w, result));
    assert CallerOk(s, s.callers[w]);
    forall v | v in t.callers
      ensures CallerOk(t, t.callers[v])
    {
      assert CallerOk(s, s.callers[v]);
      assert s.callers[v].Loading? && s.callers[v].key == s.callers[w].key ==>
        LoadsKey(s, v, s.callers[v].key) && LoadsKey(s, w, s.callers[v].key);
    }
    forall u, v, k | LoadsKey(t, u, k) && LoadsKey(t, v, k)
      ensures u == v
    {
      assert LoadsKey(s, u, k) && LoadsKey(s, v, k);
    }
  }

  lemma FinishInv<R>(s: State<R>, w: nat, result: Result<R>)
    requires Inv(s)
    ensures Inv(Apply(s, Finish(w, result)))
  {
    var t := Apply(s, Finish(w, result));
    if w in s.callers && s.callers[w].Loading? {
      var load := s.callers[w].load;
      FinishCallers(s, w, result);
      assert CallerOk(s, s.callers[w]);
      assert StartedFor(s, load, s.callers[w].key) && load !in s.done && s.callers[w].key !in s.cache;
      hide CallersInv, OneLoader, LoadsInv, CallerOk;
      forall k | k in t.cache
        ensures Fetched(t, k)
      {
        if k in s.cache {
          FetchedKept(s, t, k);
        } else {
          assert load in t.done && StartedFor(t, load, k);
        }
      }
      forall l | l in t.done
        ensures Stored(t, l)
      {
        if l != load {
          StoredKept(s, t, l);
        }
      }
    }
  }

  lemma ReturnCallers<R>(s: State<R>, a: Action<R>)
    requires CallersInv(s) && OneLoader(s) && (a.Wake? || a.Cancel?)
    ensures CallersInv(Apply(s, a)) && OneLoader(Apply(s, a))
  {
    var t := Apply(s, a);
    forall v | v in t.callers
      ensures CallerOk(t, t.callers[v])
    {
      assert CallerOk(s, s.callers[v]);
    }
    forall u, v, k | LoadsKey(t, u, k) && LoadsKey(t, v, k)
      ensures u == v
    {
      assert LoadsKey(s, u, k) && LoadsKey(s, v, k);
    }
  }

  lemma ReturnLoads<R>(s: State<R>, a: Action<R>)
    requires LoadsInv(s) && (a.Wake? || a.Cancel?)
    ensures LoadsInv(Apply(s, a))
  {
  }

  lemma ReturnInv<R>(s: State<R>, a: Action<R>)
    requires Inv(s) && (a.Wake? || a.Cancel?)
    ensures Inv(Apply(s, a))
  {
    hide CallersInv, OneLoader, LoadsInv, HistoryInv, Apply;
    ReturnCallers(s, a);
    ReturnLoads(s, a);
    OnlyFinishRecords(s, a);
    HistoryKept(s, Apply(s, a));
  }

  lemma {:induction false} RunInv<R>(s: State<R>, actions: seq<Action<R>>)
    requires Inv(s)
    ensures Inv(Run(s, actions))
    decreases |actions|
  {
    hide Inv, Apply;
    if actions != [] {
      match actions[0] {
        case Call(w, key) => CallInv(s, w, key);
        case Finish(w, result) => FinishInv(s, w, result);
        case Wake(w) => ReturnInv(s, actions[0]);
        case Cancel(w, error) => ReturnInv(s, actions[0]);
      }
      RunInv(Apply(s, actions[0]), actions[1..]);
    }
  }

  // ---------------------------------------------------------------------
  // Every interleaving
  // ---------------------------------------------------------------------

  /** At most one loader runs for a key, and never one for a cached key. */
  lemma SingleFlight<R>(actions: seq<Action<R>>, v: nat, w: nat)
    ensures var s := Run(Init(), actions);
      && (v in s.callers && w in s.callers && s.callers[v].Loading? && s.callers[w].Loading? && s.callers[v].key == s.callers[w].key ==> v == w)
      && (v in s.callers && s.callers[v].Loading? ==> s.callers[v].key !in s.cache)
      && s.loads.Keys !! s.cache.Keys
  {
    hide Run;
    RunInv(Init(), actions);
    var s := Run(Init(), actions);
    assert v in s.callers ==> CallerOk(s, s.callers[v]);
    if v in s.callers && s.callers[v].Loading? {
      assert LoadsKey(s, v, s.callers[v].key);
      assert w in s.callers && s.callers[w].Loading? ==> LoadsKey(s, w, s.callers[w].key);
    }
  }

  /** A caller returns the result of the load that it ran or joined, which was started for
      its own key, or the error of its own context, or what is cached for its key. */
  lemma ReturnsItsLoad<R>(actions: seq<Action<R>>, w: nat)
    ensures var s := Run(Init(), actions);
      w in s.callers && s.callers[w].Returned? ==>
        match s.callers[w].joined
        case Some(load) =>
          && StartedFor(s, load, s.callers[w].key)
          && if s.callers[w].cancelled then s.callers[w].result.Err? else load in s.done && s.done[load] == s.callers[w].result
        case None => s.callers[w].key in s.cache && s.callers[w].result == Ok(s.cache[s.callers[w].key])
  {
    hide Run;
    RunInv(Init(), actions);
    var s := Run(Init(), actions);
    assert w in s.callers ==> CallerOk(s, s.callers[w]);
  }

  /** The caller gave up, with this error of its own context. */
  ghost predicate GaveUp<R>(s: State<R>, w: nat) {
    w in s.callers && s.callers[w].Returned? && s.callers[w].cancelled
  }

  ghost predicate CancelledIn<R>(actions: seq<Action<R>>, w: nat, result: Result<R>) {
    exists error :: Cancel(w, error) in actions && result == Err(error)
  }

  lemma GaveUpStep<R>(s: State<R>, a: Action<R>, w: nat)
    ensures GaveUp(s, w) ==> GaveUp(Apply(s, a), w) && Apply(s, a).callers[w] == s.callers[w]
    ensures GaveUp(Apply(s, a), w) && !GaveUp(s, w) ==> a.Cancel? && a.caller == w && Apply(s, a).callers[w].result == Err(a.error)
  {
  }

  lemma {:induction false} GaveUpRun<R>(s: State<R>, actions: seq<Action<R>>, w: nat)
    ensures var t := Run(s, actions);
      GaveUp(t, w) ==> (GaveUp(s, w) && t.callers[w] == s.callers[w]) || CancelledIn(actions, w, t.callers[w].result)
    decreases |actions|
  {
    hide Apply;
    if actions != [] {
      var a, rest, t := actions[0], actions[1..], Run(s, actions);
      GaveUpStep(s, a, w);
      GaveUpRun(Apply(s, a), rest, w);
      if GaveUp(t, w) && CancelledIn(rest, w, t.callers[w].result) {
        var error :| Cancel(w, error) in rest && t.callers[w].result == Err(error);
        assert Cancel(w, error) in actions;
      } else if GaveUp(t, w) && !GaveUp(s, w) {
        assert a == Cancel(w, a.error) && a in actions;
      }
    }
  }

  /** A caller whose context was not cancelled in the run returns what its load returned, or
      what is cached for its key; and one that was may return that context's error only. */
  lemma ErrorsAreOwn<R>(actions: seq<Action<R>>, w: nat)
    ensures var s := Run(Init(), actions);
      w in s.callers && s.callers[w].Returned? ==>
        || CancelledIn(actions, w, s.callers[w].result)
        || (exists load :: load in s.done && StartedFor(s, load, s.callers[w].key) && s.done[load] == s.callers[w].result)
  {
    hide Run;
    RunInv(Init(), actions);
    var s := Run(Init(), actions);
    GaveUpRun(Init(), actions, w);
    ReturnsItsLoad(actions, w);
    if w in s.callers && s.callers[w].Returned? && !GaveUp(s, w) {
      assert CallerOk(s, s.callers[w]);
      if s.callers[w].joined == None {
        assert Fetched(s, s.callers[w].key);
      }
    }
  }

  /** A key is cached exactly when a load started for it succeeded, with what that load
      returned: failures and other keys' releases are never cached under it. */
  lemma CachedIffLoaded<R>(actions: seq<Action<R>>, key: string, release: R)
    ensures var s := Run(Init(), actions);
      (key in s.cache && s.cache[key] == release) <==>
        exists load :: load in s.done && StartedFor(s, load, key) && s.done[load] == Ok(release)
  {
    hide Run;
    RunInv(Init(), actions);
    var s := Run(Init(), actions);
    if key in s.cache && s.cache[key] == release {
      assert Fetched(s, key);
    }
    if load :| load in s.done && StartedFor(s, load, key) && s.done[load] == Ok(release) {
      assert Stored(s, load);
    }
  }

  lemma CachedStep<R>(s: State<R>, a: Action<R>, key: string)
    requires Inv(s) && key in s.cache
    ensures var t := Apply(s, a); key in t.cache && t.cache[key] == s.cache[key]
    ensures forall w :: w in Apply(s, a).callers && Apply(s, a).callers[w].Loading? ==> Apply(s, a).callers[w].key != key
  {
    var t := Apply(s, a);
    forall w | w in t.callers && t.callers[w].Loading?
      ensures t.callers[w].key != key
    {
      assert w in s.callers ==> CallerOk(s, s.callers[w]);
    }
    if a.Finish? && a.caller in s.callers {
      assert CallerOk(s, s.callers[a.caller]);
    }
  }

  /** A cached release stays, unchanged, and its key is never loaded again. */
  lemma {:induction false} CachedForever<R>(s: State<R>, actions: seq<Action<R>>, key: string)
    requires Inv(s) && key in s.cache
    ensures var t := Run(s, actions);
      && key in t.cache && t.cache[key] == s.cache[key]
      && forall w :: w in t.callers && t.callers[w].Loading? ==> t.callers[w].key != key
    decreases |actions|
  {
    if actions == [] {
      forall w | w in s.callers && s.callers[w].Loading?
        ensures s.callers[w].key != key
      {
        assert CallerOk(s, s.callers[w]);
      }
    } else {
      hide Inv, Apply;
      CachedStep(s, actions[0], key);
      RunInv(s, [actions[0]]);
      assert Run(s, [actions[0]]) == Apply(s, actions[0]) by { OneStep(s, actions[0]); }
      CachedForever(Apply(s, actions[0]), actions[1..], key);
    }
  }

  lemma OneStep<R>(s: State<R>, a: Action<R>)
    ensures Run(s, [a]) == Apply(s, a)
  {
    hide Apply;
    assert [a][1..] == [];
  }
}
