/** The rebuild queue: which links are ready, in which order they start, and that starting
    them one by one, while executions go on changing, respects the dependencies.
 */
module BuildQueue {
  import opened Options
  import opened Strings
  import opened Graph
  import opened SemVer
  import VersionKey

  datatype Status = Pending | Running | Success | Failed | VmDeleted

  /** What the ranking reads of a link; no key stands for an unknown version. */
  datatype Metadata = Metadata(family: string, key: Option<string>, createdAt: int)

  /** The links of the rebuild chains, their dependencies (link, dependency) and metadata. */
  datatype Chains = Chains(links: set<string>, deps: set<(string, string)>, metadata: map<string, Metadata>)

  /** The executions of each link in order of creation, and the links that each pass over the
      queue still has to start. Passes of several processes may overlap. */
  datatype State = State(executions: map<string, seq<Status>>, passes: map<nat, seq<string>>)

  function TodoOf(s: State, p: nat): seq<string> {
    if p in s.passes then s.passes[p] else []
  }

  function ExecutionsOf(s: State, link: string): seq<Status> {
    if link in s.executions then s.executions[link] else []
  }

  predicate Succeeded(s: State, link: string) {
    var e := ExecutionsOf(s, link);
    e != [] && e[|e| - 1] == Success
  }

  /** A dependency on a link that no longer exists does not count. */
  predicate Ready(c: Chains, s: State, link: string) {
    && link in c.links && ExecutionsOf(s, link) == []
    && forall d | d in c.deps && d.0 == link && d.1 in c.links :: Succeeded(s, d.1)
  }

  function ReadySet(c: Chains, s: State): set<string> {
    set l | l in c.links && Ready(c, s, l)
  }

  // ---------------------------------------------------------------------
  // Ranking
  // ---------------------------------------------------------------------

  function MetadataOf(c: Chains, link: string): Metadata {
    if link in c.metadata then c.metadata[link] else Metadata("", None, 0)
  }

  /** The keys of the same family above this link's. */
  function HigherKeys(c: Chains, ready: set<string>, link: string): set<string> {
    var m := MetadataOf(c, link);
    if m.key == None then {}
    else set l | l in ready && MetadataOf(c, l).family == m.family && MetadataOf(c, l).key.Some?
               && Less(m.key.value, MetadataOf(c, l).key.value) :: MetadataOf(c, l).key.value
  }

  /** Dense rank from the highest key down; 0 when family or key is unknown. */
  function VersionRank(c: Chains, ready: set<string>, link: string): nat {
    var m := MetadataOf(c, link);
    if m.family == "" || m.key == None then 0 else |HigherKeys(c, ready, link)|
  }

  /** By rank, then creation time, then link id. */
  predicate StartsBefore(c: Chains, ready: set<string>, a: string, b: string) {
    var r, q := VersionRank(c, ready, a), VersionRank(c, ready, b);
    if r != q then r < q
    else if MetadataOf(c, a).createdAt != MetadataOf(c, b).createdAt then MetadataOf(c, a).createdAt < MetadataOf(c, b).createdAt
    else Less(a, b)
  }

  /** The rows of the query, in its order. */
  ghost predicate QueueOrder(c: Chains, ready: set<string>, todo: seq<string>) {
    Distinct(todo) && (forall l :: l in todo <==> l in ready) && InOrder(c, ready, todo)
  }

  lemma StartsBeforeOrders(c: Chains, ready: set<string>, x: string, y: string, z: string)
    ensures x == y || StartsBefore(c, ready, x, y) || StartsBefore(c, ready, y, x)
    ensures StartsBefore(c, ready, x, y) && StartsBefore(c, ready, y, z) ==> StartsBefore(c, ready, x, z)
  {
    hide VersionRank, MetadataOf, Less;
    LessTotal(x, y);
    if Less(x, y) && Less(y, z) {
      LessTransitive(x, y, z);
    }
  }

  function Placed(c: Chains, ready: set<string>, x: string, rest: seq<string>): seq<string> {
    if rest == [] then [x]
    else if StartsBefore(c, ready, x, rest[0]) then [x] + rest
    else [rest[0]] + Placed(c, ready, x, rest[1..])
  }

  ghost predicate InOrder(c: Chains, ready: set<string>, s: seq<string>) {
    forall i, j | 0 <= i < j < |s| :: StartsBefore(c, ready, s[i], s[j])
  }

  lemma {:induction false} PlacedInOrder(c: Chains, ready: set<string>, x: string, rest: seq<string>)
    requires InOrder(c, ready, rest) && x !in rest && Distinct(rest)
    ensures InOrder(c, ready, Placed(c, ready, x, rest)) && Distinct(Placed(c, ready, x, rest))
    ensures forall y :: y in Placed(c, ready, x, rest) <==> y == x || y in rest
  {
    hide StartsBefore;
    var placed := Placed(c, ready, x, rest);
    if rest != [] {
      assert rest == [rest[0]] + rest[1..];
      StartsBeforeOrders(c, ready, x, rest[0], x);
      if StartsBefore(c, ready, x, rest[0]) {
        forall j | 0 <= j < |rest|
          ensures StartsBefore(c, ready, x, rest[j])
        {
          StartsBeforeOrders(c, ready, x, rest[0], rest[j]);
        }
        assert placed == [x] + rest;
      } else {
        PlacedInOrder(c, ready, x, rest[1..]);
        var tail := placed[1..];
        assert tail == Placed(c, ready, x, rest[1..]);
        forall j | 0 <= j < |tail|
          ensures StartsBefore(c, ready, rest[0], tail[j]) && tail[j] != rest[0]
        {
          assert tail[j] in tail;
          if tail[j] != x {
            var k :| 0 <= k < |rest[1..]| && rest[1..][k] == tail[j];
            assert rest[k + 1] == tail[j];
          }
        }
        forall i, j | 0 <= i < j < |placed|
          ensures StartsBefore(c, ready, placed[i], placed[j]) && placed[i] != placed[j]
        {
          assert placed[j] == tail[j - 1];
          assert i > 0 ==> placed[i] == tail[i - 1];
        }
      }
    }
  }

  /** Every set of rows has a queue order. */
  lemma {:induction false} OrderExists(c: Chains, ready: set<string>, part: set<string>) returns (todo: seq<string>)
    ensures Distinct(todo) && InOrder(c, ready, todo) && forall l :: l in todo <==> l in part
    decreases |part|
  {
    todo := [];
    if part != {} {
      var x :| x in part;
      var rest := OrderExists(c, ready, part - {x});
      PlacedInOrder(c, ready, x, rest);
      todo := Placed(c, ready, x, rest);
    }
  }

  /** A higher key in the same family has the lower rank. */
  lemma RankFollowsKeys(c: Chains, ready: set<string>, a: string, b: string)
    requires a in ready && b in ready
    requires MetadataOf(c, a).family == MetadataOf(c, b).family != ""
    requires MetadataOf(c, a).key.Some? && MetadataOf(c, b).key.Some?
    ensures VersionRank(c, ready, a) < VersionRank(c, ready, b) <==> Less(MetadataOf(c, b).key.value, MetadataOf(c, a).key.value)
    ensures VersionRank(c, ready, a) == VersionRank(c, ready, b) <==> MetadataOf(c, a).key == MetadataOf(c, b).key
  {
    var ka, kb := MetadataOf(c, a).key.value, MetadataOf(c, b).key.value;
    LessTotal(ka, kb);
    LessIrreflexive(ka);
    if Less(ka, kb) {
      HigherRanksLower(c, ready, b, a);
      if Less(kb, ka) { LessTransitive(ka, kb, ka); }
    } else if Less(kb, ka) {
      HigherRanksLower(c, ready, a, b);
    }
  }

  lemma HigherRanksLower(c: Chains, ready: set<string>, a: string, b: string)
    requires a in ready && b in ready
    requires MetadataOf(c, a).family == MetadataOf(c, b).family != ""
    requires MetadataOf(c, a).key.Some? && MetadataOf(c, b).key.Some?
    requires Less(MetadataOf(c, b).key.value, MetadataOf(c, a).key.value)
    ensures VersionRank(c, ready, a) < VersionRank(c, ready, b)
  {
    var ka, kb := MetadataOf(c, a).key.value, MetadataOf(c, b).key.value;
    var above, below := HigherKeys(c, ready, a), HigherKeys(c, ready, b);
    forall k | k in above
      ensures k in below
    {
      LessTransitive(kb, ka, k);
    }
    LessIrreflexive(ka);
    assert ka in below && ka !in above;
    SubsetSmaller(above, below);
  }

  lemma HigherKeyFirst(c: Chains, ready: set<string>, todo: seq<string>, i: nat, j: nat)
    requires QueueOrder(c, ready, todo) && i < |todo| && j < |todo|
    requires MetadataOf(c, todo[i]).family == MetadataOf(c, todo[j]).family != ""
    requires MetadataOf(c, todo[i]).key.Some? && MetadataOf(c, todo[j]).key.Some?
    requires Less(MetadataOf(c, todo[j]).key.value, MetadataOf(c, todo[i]).key.value)
    ensures i < j
  {
    assert j < i ==> StartsBefore(c, ready, todo[j], todo[i]);
    assert todo[i] in ready && todo[j] in ready;
    LessIrreflexive(MetadataOf(c, todo[i]).key.value);
    hide MetadataOf, VersionRank, Less, QueueOrder;
    RankFollowsKeys(c, ready, todo[i], todo[j]);
  }

  /** Within a family, of two ready links with known versions, the one of higher precedence
      starts first. */
  lemma NewerVersionFirst(c: Chains, ready: set<string>, todo: seq<string>, i: nat, j: nat, a: string, b: string)
    requires QueueOrder(c, ready, todo) && i < |todo| && j < |todo|
    requires MetadataOf(c, todo[i]).family == MetadataOf(c, todo[j]).family != ""
    requires VersionKey.Ordinary(a) && MetadataOf(c, todo[i]).key == Some(VersionKey.RawKey(a))
    requires VersionKey.Ordinary(b) && MetadataOf(c, todo[j]).key == Some(VersionKey.RawKey(b))
    requires Precedes(VersionKey.Denotes(b), VersionKey.Denotes(a))
    ensures i < j
  {
    hide QueueOrder, MetadataOf, VersionKey.Ordinary, VersionKey.RawKey, VersionKey.Denotes, Precedes, Less;
    VersionKey.KeysOrderVersions(b, a);
    HigherKeyFirst(c, ready, todo, i, j);
  }

  /** A link of unknown family or version ranks with the newest of every family: no other
      link ranks before it. Among known versions only those with no higher one rank so. */
  lemma RanksFirstIff(c: Chains, ready: set<string>, l: string)
    ensures VersionRank(c, ready, l) == 0 <==>
      var m := MetadataOf(c, l);
      m.family == "" || m.key == None
      || forall k | k in ready && MetadataOf(c, k).family == m.family && MetadataOf(c, k).key.Some? :: !Less(m.key.value, MetadataOf(c, k).key.value)
  {
    hide MetadataOf, Less;
    var m := MetadataOf(c, l);
    if m.family != "" && m.key.Some? {
      if k :| k in ready && MetadataOf(c, k).family == m.family && MetadataOf(c, k).key.Some? && Less(m.key.value, MetadataOf(c, k).key.value) {
        assert MetadataOf(c, k).key.value in HigherKeys(c, ready, l);
      } else {
        assert HigherKeys(c, ready, l) == {};
      }
    }
  }

  /** Of two ready links of equal rank the older one starts first, and of equally old ones
      the one whose id comes first. */
  lemma OlderFirst(c: Chains, ready: set<string>, todo: seq<string>, i: nat, j: nat)
    requires QueueOrder(c, ready, todo) && i < |todo| && j < |todo|
    requires VersionRank(c, ready, todo[i]) == VersionRank(c, ready, todo[j])
    requires var a, b := MetadataOf(c, todo[i]).createdAt, MetadataOf(c, todo[j]).createdAt;
      a < b || (a == b && Less(todo[i], todo[j]))
    ensures i < j
  {
    hide MetadataOf, VersionRank, Less;
    LessIrreflexive(todo[i]);
    assert j < i ==> StartsBefore(c, ready, todo[j], todo[i]);
    if Less(todo[i], todo[j]) && Less(todo[j], todo[i]) {
      LessTransitive(todo[i], todo[j], todo[i]);
    }
  }

  /** A link of unknown version is never held up by a younger link. */
  lemma UnknownNotDelayed(c: Chains, ready: set<string>, todo: seq<string>, i: nat, j: nat)
    requires QueueOrder(c, ready, todo) && i < |todo| && j < |todo|
    requires MetadataOf(c, todo[i]).family == "" || MetadataOf(c, todo[i]).key == None
    requires MetadataOf(c, todo[i]).createdAt < MetadataOf(c, todo[j]).createdAt
    ensures i < j
  {
    RanksFirstIff(c, ready, todo[i]);
    hide MetadataOf, VersionRank, Less;
    assert j < i ==> StartsBefore(c, ready, todo[j], todo[i]);
  }

  // ---------------------------------------------------------------------
  // Steps
  // ---------------------------------------------------------------------

  /** A pass queries the ready links; it then starts them in order. Starting one creates
      no execution (it is retried on a later pass), one, or one and a failure record.
      Meanwhile executions change status, unsuccessful ones are retried, and other passes
      go on. */
  datatype Action =
    | Query(pass: nat, rows: seq<string>)
    | StartNext(pass: nat, created: seq<Status>)
    | Update(link: string, index: nat, status: Status)
    | Retry(link: string)

  ghost predicate Enabled(c: Chains, s: State, a: Action) {
    match a
    case Query(p, rows) => QueueOrder(c, ReadySet(c, s), rows)
    case StartNext(p, created) => TodoOf(s, p) != []
    case Update(l, i, status) => i < |ExecutionsOf(s, l)| && ExecutionsOf(s, l)[i] !in {Success, Failed}
    case Retry(l) => ExecutionsOf(s, l) != [] && ExecutionsOf(s, l)[|ExecutionsOf(s, l)| - 1] in {Failed, VmDeleted}
  }

  ghost function Apply(c: Chains, s: State, a: Action): State {
    if !Enabled(c, s, a) then s
    else
      match a
      case Query(p, rows) => s.(passes := s.passes[p := rows])
      case StartNext(p, created) =>
        var link := TodoOf(s, p)[0];
        State(s.executions[link := ExecutionsOf(s, link) + created], s.passes[p := TodoOf(s, p)[1..]])
      case Update(l, i, status) => s.(executions := s.executions[l := s.executions[l][i := status]])
      case Retry(l) => s.(executions := s.executions[l := s.executions[l] + [Pending]])
  }

  ghost function Run(c: Chains, s: State, actions: seq<Action>): State
    decreases |actions|
  {
    if actions == [] then s else Run(c, Apply(c, s, actions[0]), actions[1..])
  }

  ghost predicate NoPasses(s: State) {
    forall p :: TodoOf(s, p) == []
  }

  // ---------------------------------------------------------------------
  // What starts is ready
  // ---------------------------------------------------------------------

  /** Every link still to start is ready. */
  ghost predicate AllReady(c: Chains, s: State) {
    forall p :: Distinct(TodoOf(s, p)) && forall l | l in TodoOf(s, p) :: Ready(c, s, l)
  }

  /** The link that this pass starts next is in the list of another pass as well. */
  ghost predicate Shared(s: State, p: nat) {
    TodoOf(s, p) != [] && exists q :: q != p && TodoOf(s, p)[0] in TodoOf(s, q)
  }

  /** The step gives a shared link an execution. */
  ghost predicate StartsShared(s: State, a: Action) {
    a.StartNext? && a.created != [] && Shared(s, a.pass)
  }

  /** The link whose execution the step creates first, if it starts one. */
  predicate Starts(s: State, a: Action, link: string) {
    a.StartNext? && TodoOf(s, a.pass) != [] && TodoOf(s, a.pass)[0] == link
  }

  /** Steps do not take a success back, and only starting a link gives it its first execution. */
  lemma OthersKept(c: Chains, s: State, a: Action, link: string)
    requires !Starts(s, a, link) || (a.StartNext? && a.created == [])
    ensures Succeeded(s, link) ==> Succeeded(Apply(c, s, a), link)
    ensures ExecutionsOf(s, link) == [] ==> ExecutionsOf(Apply(c, s, a), link) == []
  {
    hide QueueOrder;
  }

  lemma StillReady(c: Chains, s: State, a: Action, l: string)
    requires AllReady(c, s) && Ready(c, s, l) && (!Starts(s, a, l) || (a.StartNext? && a.created == []))
    ensures Ready(c, Apply(c, s, a), l)
  {
    OthersKept(c, s, a, l);
    forall d | d in c.deps && d.0 == l && d.1 in c.links
      ensures Succeeded(Apply(c, s, a), d.1)
    {
      assert Succeeded(s, d.1);
      assert !Starts(s, a, d.1) by { StartedNeverSucceeded(c, s, a, d.1); }
      OthersKept(c, s, a, d.1);
    }
  }

  lemma StartedNeverSucceeded(c: Chains, s: State, a: Action, d: string)
    requires AllReady(c, s) && Succeeded(s, d)
    ensures !Starts(s, a, d)
  {
    assert a.StartNext? && TodoOf(s, a.pass) != [] ==> Ready(c, s, TodoOf(s, a.pass)[0]);
  }

  lemma TodoAfter(c: Chains, s: State, a: Action, p: nat)
    ensures var t := Apply(c, s, a);
      TodoOf(t, p) ==
        if a.Query? && a.pass == p && Enabled(c, s, a) then a.rows
        else if a.StartNext? && a.pass == p && TodoOf(s, p) != [] then TodoOf(s, p)[1..]
        else TodoOf(s, p)
  {
    hide QueueOrder, ReadySet;
  }

  lemma NotStarted(c: Chains, s: State, a: Action, p: nat, l: string)
    requires AllReady(c, s) && !StartsShared(s, a) && l in TodoOf(Apply(c, s, a), p)
    ensures Ready(c, s, l) && (!Starts(s, a, l) || (a.StartNext? && a.created == []))
  {
    TodoAfter(c, s, a, p);
    hide Apply;
    assert Distinct(TodoOf(s, p));
    assert a.Query? && a.pass == p && Enabled(c, s, a) ==> l in ReadySet(c, s);
  }

  lemma ReadyKept(c: Chains, s: State, a: Action)
    requires AllReady(c, s) && !StartsShared(s, a)
    ensures AllReady(c, Apply(c, s, a))
  {
    hide Apply, Ready;
    var t := Apply(c, s, a);
    forall p
      ensures Distinct(TodoOf(t, p))
      ensures forall l | l in TodoOf(t, p) :: Ready(c, t, l)
    {
      TodoAfter(c, s, a, p);
      forall l | l in TodoOf(t, p)
        ensures Ready(c, t, l)
      {
        NotStarted(c, s, a, p, l);
        StillReady(c, s, a, l);
      }
    }
  }

  /** A step leaves every waiting link ready iff it does not start a link that another pass
      holds as well. */
  lemma ReadyKeptIff(c: Chains, s: State, a: Action)
    requires AllReady(c, s)
    ensures AllReady(c, Apply(c, s, a)) <==> !StartsShared(s, a)
  {
    if StartsShared(s, a) {
      var link, t := TodoOf(s, a.pass)[0], Apply(c, s, a);
      var q :| q != a.pass && link in TodoOf(s, q);
      TodoAfter(c, s, a, q);
      assert ExecutionsOf(t, link) != [];
      assert !Ready(c, t, link);
    } else {
      ReadyKept(c, s, a);
    }
  }

  ghost predicate NeverShares(c: Chains, s: State, actions: seq<Action>)
    decreases |actions|
  {
    actions != [] ==> !StartsShared(s, actions[0]) && NeverShares(c, Apply(c, s, actions[0]), actions[1..])
  }

  lemma {:induction false} RunReady(c: Chains, s: State, actions: seq<Action>)
    requires AllReady(c, s) && NeverShares(c, s, actions)
    ensures AllReady(c, Run(c, s, actions))
    decreases |actions|
  {
    hide AllReady, Apply, StartsShared;
    if actions != [] {
      ReadyKept(c, s, actions[0]);
      RunReady(c, Apply(c, s, actions[0]), actions[1..]);
    }
  }

  /** The link has no execution, and each dependency that exists has one, the latest of which
      is a success. */
  predicate MayStart(c: Chains, executions: map<string, seq<Status>>, link: string) {
    && link in c.links && (link in executions ==> executions[link] == [])
    && forall d | d in c.links && (link, d) in c.deps ::
         d in executions && executions[d] != [] && executions[d][|executions[d]| - 1] == Success
  }

  lemma ReadyMayStart(c: Chains, s: State, link: string)
    requires Ready(c, s, link)
    ensures MayStart(c, s.executions, link)
  {
    forall d | d in c.links && (link, d) in c.deps
      ensures d in s.executions && s.executions[d] != [] && s.executions[d][|s.executions[d]| - 1] == Success
    {
      assert (link, d).0 == link && (link, d).1 == d;
      assert Succeeded(s, d);
    }
  }

  /** As long as no pass starts a link that another holds, the link that a pass starts next
      has no execution and the latest execution of each of its dependencies is a success. */
  lemma StartsOnlyReady(c: Chains, init: State, actions: seq<Action>, p: nat)
    requires NoPasses(init) && NeverShares(c, init, actions)
    ensures var s := Run(c, init, actions);
      TodoOf(s, p) != [] ==> MayStart(c, s.executions, TodoOf(s, p)[0])
  {
    hide Run, NeverShares, MayStart;
    RunReady(c, init, actions);
    var s := Run(c, init, actions);
    if TodoOf(s, p) != [] {
      ReadyMayStart(c, s, TodoOf(s, p)[0]);
    }
  }

  /** Every query waits for the other passes to end. */
  ghost predicate OneAtATime(c: Chains, s: State, actions: seq<Action>)
    decreases |actions|
  {
    actions != [] ==>
      && (actions[0].Query? ==> forall q :: q != actions[0].pass ==> TodoOf(s, q) == [])
      && OneAtATime(c, Apply(c, s, actions[0]), actions[1..])
  }

  ghost predicate AtMostOne(s: State) {
    forall p, q :: TodoOf(s, p) != [] && TodoOf(s, q) != [] ==> p == q
  }

  /** One pass at a time shares nothing. */
  lemma {:induction false} OneAtATimeShares(c: Chains, s: State, actions: seq<Action>)
    requires AtMostOne(s) && OneAtATime(c, s, actions)
    ensures NeverShares(c, s, actions)
    decreases |actions|
  {
    if actions != [] {
      hide Apply;
      var t := Apply(c, s, actions[0]);
      forall p, q | TodoOf(t, p) != [] && TodoOf(t, q) != []
        ensures p == q
      {
        TodoAfter(c, s, actions[0], p);
        TodoAfter(c, s, actions[0], q);
      }
      OneAtATimeShares(c, t, actions[1..]);
    }
  }

  // ---------------------------------------------------------------------
  // Two passes with one row
  // ---------------------------------------------------------------------

  /** b depends on a. */
  const PAIR: Chains := Chains({"a", "b"}, {("b", "a")}, map[])

  /** Both passes find a ready. The first builds it and finds b ready; the second then builds
      a again. */
  function Overlap(): seq<Action> {
    [Query(0, ["a"]), Query(1, ["a"]), StartNext(0, [Pending]), Update("a", 0, Success), Query(0, ["b"]), StartNext(1, [Pending])]
  }

  /** The executions of a, and what the two passes have to start. */
  function Pair(a: seq<Status>, first: seq<string>, second: seq<string>): State {
    State(map["a" := a], map[0 := first, 1 := second])
  }

  lemma PairReady(s: State)
    ensures ExecutionsOf(s, "a") == [] && ExecutionsOf(s, "b") == [] ==> ReadySet(PAIR, s) == {"a"}
    ensures ExecutionsOf(s, "a") == [Success] && ExecutionsOf(s, "b") == [] ==> ReadySet(PAIR, s) == {"b"}
  {
    assert ("b", "a").0 == "b" && ("b", "a").1 == "a";
  }

  lemma PairQueries(a: seq<Status>, first: seq<string>, second: seq<string>, l: string)
    requires (a == [] && l == "a") || (a == [Success] && l == "b")
    ensures Apply(PAIR, Pair(a, first, second), Query(0, [l])) == Pair(a, [l], second)
    ensures Apply(PAIR, Pair(a, first, second), Query(1, [l])) == Pair(a, first, [l])
  {
    var s := Pair(a, first, second);
    PairReady(s);
    assert QueueOrder(PAIR, {l}, [l]);
    hide QueueOrder, ReadySet;
    assert s.passes[0 := [l]] == Pair(a, [l], second).passes;
    assert s.passes[1 := [l]] == Pair(a, first, [l]).passes;
  }

  lemma PairStarts(a: seq<Status>, other: seq<string>)
    ensures Apply(PAIR, Pair(a, ["a"], other), StartNext(0, [Pending])) == Pair(a + [Pending], [], other)
    ensures Apply(PAIR, Pair(a, other, ["a"]), StartNext(1, [Pending])) == Pair(a + [Pending], other, [])
  {
    var rest: seq<string> := ["a"][1..];
    assert rest == [];
    var s, t := Pair(a, ["a"], other), Pair(a, other, ["a"]);
    assert s.executions["a" := a + [Pending]] == t.executions["a" := a + [Pending]] == Pair(a + [Pending], [], other).executions;
    assert s.passes[0 := rest] == Pair(a, [], other).passes && t.passes[1 := rest] == Pair(a, other, []).passes;
  }

  lemma PairSucceeds(first: seq<string>, second: seq<string>)
    ensures Apply(PAIR, Pair([Pending], first, second), Update("a", 0, Success)) == Pair([Success], first, second)
  {
    assert [Pending][0 := Success] == [Success];
    assert Pair([Pending], first, second).executions["a" := [Success]] == Pair([Success], first, second).executions;
  }

  /** Passes that overlap may share a row. It then starts twice, and a link starts while the
      latest execution of its dependency is no success. */
  lemma SharedRowStartsTwice()
    ensures var t := Run(PAIR, Pair([], [], []), Overlap());
      ExecutionsOf(t, "a") == [Success, Pending] && TodoOf(t, 0) == ["b"] && !Ready(PAIR, t, "b")
  {
    assert ("b", "a").0 == "b" && ("b", "a").1 == "a" && ("b", "a") in PAIR.deps;
    var none: seq<Status> := [];
    assert none + [Pending] == [Pending] && [Success] + [Pending] == [Success, Pending];
    SixSteps(PAIR, Pair([], [], []), Overlap());
    hide Apply, Run;
    PairQueries([], [], [], "a");
    PairQueries([], ["a"], [], "a");
    PairStarts([], ["a"]);
    PairSucceeds([], ["a"]);
    PairQueries([Success], [], ["a"], "b");
    PairStarts([Success], ["b"]);
  }

  lemma FromStep(c: Chains, s: State, a: seq<Action>, i: nat)
    requires i < |a|
    ensures Run(c, s, a[i..]) == Run(c, Apply(c, s, a[i]), a[i + 1..])
  {
    hide Apply;
    assert a[i..][0] == a[i] && a[i..][1..] == a[i + 1..];
  }

  lemma SixSteps(c: Chains, s: State, a: seq<Action>)
    requires |a| == 6
    ensures Run(c, s, a) == Apply(c, Apply(c, Apply(c, Apply(c, Apply(c, Apply(c, s, a[0]), a[1]), a[2]), a[3]), a[4]), a[5])
  {
    hide Apply;
    var s1 := Apply(c, s, a[0]);
    var s2 := Apply(c, s1, a[1]);
    var s3 := Apply(c, s2, a[2]);
    var s4 := Apply(c, s3, a[3]);
    var s5 := Apply(c, s4, a[4]);
    assert a[0..] == a && a[6..] == [];
    FromStep(c, s, a, 0);
    FromStep(c, s1, a, 1);
    FromStep(c, s2, a, 2);
    FromStep(c, s3, a, 3);
    FromStep(c, s4, a, 4);
    FromStep(c, s5, a, 5);
  }

  // ---------------------------------------------------------------------
  // What holds however passes overlap
  // ---------------------------------------------------------------------

  /** Each dependency of the link has succeeded at some time. */
  predicate Built(c: Chains, s: State, link: string) {
    forall d | d in c.deps && d.0 == link && d.1 in c.links :: Success in ExecutionsOf(s, d.1)
  }

  lemma SuccessStays(c: Chains, s: State, a: Action, link: string)
    requires Success in ExecutionsOf(s, link)
    ensures Success in ExecutionsOf(Apply(c, s, a), link)
  {
    hide QueueOrder, ReadySet;
    var i :| 0 <= i < |ExecutionsOf(s, link)| && ExecutionsOf(s, link)[i] == Success;
    assert ExecutionsOf(Apply(c, s, a), link)[i] == Success;
  }

  ghost predicate AllBuilt(c: Chains, s: State) {
    forall p, l :: l in TodoOf(s, p) ==> Built(c, s, l)
  }

  lemma BuiltKept(c: Chains, s: State, a: Action)
    requires AllBuilt(c, s)
    ensures AllBuilt(c, Apply(c, s, a))
  {
    hide Apply;
    var t := Apply(c, s, a);
    forall p, l | l in TodoOf(t, p)
      ensures Built(c, t, l)
    {
      TodoAfter(c, s, a, p);
      if a.Query? && a.pass == p && Enabled(c, s, a) {
        assert l in ReadySet(c, s);
      }
      assert Built(c, s, l);
      forall d | d in c.deps && d.0 == l && d.1 in c.links
        ensures Success in ExecutionsOf(t, d.1)
      {
        SuccessStays(c, s, a, d.1);
      }
    }
  }

  /** In every run, with any number of overlapping passes, a link starts only after each of
      its dependencies has succeeded. */
  lemma {:induction false} StartsAfterDependencies(c: Chains, s: State, actions: seq<Action>, p: nat)
    requires AllBuilt(c, s)
    ensures var t := Run(c, s, actions); TodoOf(t, p) != [] ==> Built(c, t, TodoOf(t, p)[0])
    decreases |actions|
  {
    if actions != [] {
      hide AllBuilt, Apply;
      BuiltKept(c, s, actions[0]);
      StartsAfterDependencies(c, Apply(c, s, actions[0]), actions[1..], p);
    }
  }

  // ---------------------------------------------------------------------
  // Progress
  // ---------------------------------------------------------------------

  ghost function Dependencies(c: Chains): Edges<string> {
    set d | d in c.deps && d.0 in c.links && d.1 in c.links :: (d.1, d.0)
  }

  /** With acyclic dependencies and only successes so far, some link without an execution
      is ready, and so the next query returns it. */
  lemma SomeLinkReady(c: Chains, s: State, link: string)
    requires Acyclic(Dependencies(c))
    requires forall l | l in c.links :: ExecutionsOf(s, l) == [] || Succeeded(s, l)
    requires link in c.links && ExecutionsOf(s, link) == []
    ensures exists l :: Ready(c, s, l)
  {
    hide Reaches;
    var waiting := set l | l in c.links && ExecutionsOf(s, l) == [];
    assert link in waiting;
    if forall l | l in waiting :: !Ready(c, s, l) {
      forall l | l in waiting
        ensures HasPredIn(Dependencies(c), waiting, l)
      {
        assert !Ready(c, s, l);
        var d :| d in c.deps && d.0 == l && d.1 in c.links && !Succeeded(s, d.1);
        assert d.1 in waiting && (d.1, l) in Dependencies(c);
      }
      NoSourceMeansCycle(Dependencies(c), waiting);
    }
  }

  // ---------------------------------------------------------------------
  // The loop of one pass
  // ---------------------------------------------------------------------

  ghost function StartSteps(p: nat, created: seq<seq<Status>>): seq<Action> {
    if created == [] then [] else [StartNext(p, created[0])] + StartSteps(p, created[1..])
  }

  /** The loop over the rows of one query: created[i] is what starting the i-th row led to. */
  method StartLinks(c: Chains, p: nat, rows: seq<string>, executions: map<string, seq<Status>>, created: seq<seq<Status>>)
    returns (after: map<string, seq<Status>>)
    requires |created| == |rows|
    ensures State(after, map[p := []]) == Run(c, State(executions, map[p := rows]), StartSteps(p, created))
  {
    after := executions;
    assert rows[0..] == rows && created[0..] == created;
    for i := 0 to |rows|
      invariant Run(c, State(after, map[p := rows[i..]]), StartSteps(p, created[i..])) == Run(c, State(executions, map[p := rows]), StartSteps(p, created))
    {
      ghost var s := State(after, map[p := rows[i..]]);
      assert created[i..][1..] == created[i + 1..] && rows[i..][1..] == rows[i + 1..];
      assert StartSteps(p, created[i..])[1..] == StartSteps(p, created[i + 1..]);
      after := after[rows[i] := (if rows[i] in after then after[rows[i]] else []) + created[i]];
      assert s.passes[p := rows[i + 1..]] == map[p := rows[i + 1..]];
      assert Apply(c, s, StartNext(p, created[i])) == State(after, map[p := rows[i + 1..]]);
    }
    assert rows[|rows|..] == [];
  }
}
