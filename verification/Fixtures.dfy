/**
 `loadFixture`: a cache of chain snapshots over a node on which reverting to a
 snapshot also destroys it and all later ones. Fixtures may load other fixtures.
 */
module Fixtures {
  import opened Wrappers

  type Chain = nat  // the state of the chain
  type Data = nat   // what a fixture returns

  datatype Fixture = Fixture(id: nat, anonymous: bool)

  /** A snapshot held by the node. */
  datatype Snapshot = Snapshot(id: nat, chain: Chain)

  datatype Node = Node(chain: Chain, snapshots: seq<Snapshot>, nextId: nat)

  /**
   An element of the module-level list. Its restorer exposes the id it was created
   with for ever, and privately holds the id it took last.
   */
  datatype Kept = Kept(fixture: Fixture, exposed: nat, current: nat, data: Data)

  /**
   A real execution of a fixture: what it returned, the chain it left, and whether the
   fixture was already kept when it ended, which takes a fixture that loads itself.
   */
  datatype Execution = Execution(fixture: Fixture, data: Data, chain: Chain, selfKept: bool)

  /** The node, the list, all executions by the id of the snapshot they ended with, and the latest of each fixture. */
  datatype World = World(
    node: Node,
    kept: seq<Kept>,
    executions: map<nat, Execution>,
    latest: map<Fixture, nat>
  )

  datatype Error = AnonymousFixture | InvalidSnapshot

  /** What a test does. A load carries what its fixture would do and return if executed now. */
  datatype Action =
    | Mutates(to: Chain)
    | TakesSnapshot
    | Reverts(id: nat)
    | Loads(fixture: Fixture, body: seq<Action>, data: Data)

  // -------------------------------------------------------------------- the node

  /** `HardhatNode.takeSnapshot` */
  function Take(n: Node): Node {
    Node(n.chain, n.snapshots + [Snapshot(n.nextId, n.chain)], n.nextId + 1)
  }

  /** `_getSnapshotIndex`: gives up at the first larger id. */
  function IndexFrom(snapshots: seq<Snapshot>, id: nat, i: nat): (k: nat)
    requires i <= |snapshots|
    ensures i <= k <= |snapshots|
    ensures k < |snapshots| ==> snapshots[k].id == id
    decreases |snapshots| - i
  {
    if i == |snapshots| then i
    else if snapshots[i].id == id then i
    else if snapshots[i].id > id then |snapshots|
    else IndexFrom(snapshots, id, i + 1)
  }

  predicate CanRevert(n: Node, id: nat) {
    IndexFrom(n.snapshots, id, 0) < |n.snapshots|
  }

  /** `revertToSnapshot`: the snapshot is used up together with all later ones. */
  function Revert(n: Node, id: nat): Node
    requires CanRevert(n, id)
  {
    var k := IndexFrom(n.snapshots, id, 0);
    Node(n.snapshots[k].chain, n.snapshots[..k], n.nextId)
  }

  // ------------------------------------------------------------------ loadFixture

  /** `snapshots.find(s => s.fixture === fixture)` */
  function Find(kept: seq<Kept>, f: Fixture): (k: nat)
    ensures k <= |kept|
    ensures k < |kept| ==> kept[k].fixture == f
    ensures forall i :: 0 <= i < k ==> kept[i].fixture != f
  {
    if kept == [] || kept[0].fixture == f then 0 else 1 + Find(kept[1..], f)
  }

  function KeepUpTo(kept: seq<Kept>, exposed: nat): seq<Kept> {
    if kept == [] then []
    else (if kept[0].exposed <= exposed then [kept[0]] else []) + KeepUpTo(kept[1..], exposed)
  }

  /** A kept fixture is restored: revert, re-take under a new id, forget later snapshots. */
  function Restore(w: World, k: nat): World
    requires k < |w.kept| && CanRevert(w.node, w.kept[k].current)
  {
    var node := Revert(w.node, w.kept[k].current);
    w.(node := Take(node), kept := KeepUpTo(w.kept[k := w.kept[k].(current := node.nextId)], w.kept[k].exposed))
  }

  /** A fixture that was just executed is recorded and kept. */
  function Keep(w: World, f: Fixture, data: Data): World {
    var id := w.node.nextId;
    World(Take(w.node), w.kept + [Kept(f, id, id, data)],
          w.executions[id := Execution(f, data, w.node.chain, Find(w.kept, f) < |w.kept|)],
          w.latest[f := id])
  }

  /** `loadFixture`. An error inside the fixture propagates and nothing is kept for it. */
  function Load(w: World, f: Fixture, body: seq<Action>, data: Data): (World, Result<Data, Error>)
    decreases body, 1
  {
    var k := Find(w.kept, f);
    if f.anonymous then (w, Err(AnonymousFixture))
    else if k < |w.kept| then
      if CanRevert(w.node, w.kept[k].current) then (Restore(w, k), Ok(w.kept[k].data))
      else (w, Err(InvalidSnapshot))
    else
      match Execute(w, body)
      case (w', Err(e)) => (w', Err(e))
      case (w', Ok(_)) => (Keep(w', f, data), Ok(data))
  }

  function Act(w: World, a: Action): (World, Result<(), Error>)
    decreases a
  {
    match a
    case Mutates(to) => (w.(node := w.node.(chain := to)), Ok(()))
    case TakesSnapshot => (w.(node := Take(w.node)), Ok(()))
    case Reverts(id) => if CanRevert(w.node, id) then (w.(node := Revert(w.node, id)), Ok(())) else (w, Ok(()))
    case Loads(f, body, data) =>
      match Load(w, f, body, data)
      case (w', Ok(_)) => (w', Ok(()))
      case (w', Err(e)) => (w', Err(e))
  }

  /** The actions of a fixture: the first error ends it. */
  function Execute(w: World, actions: seq<Action>): (World, Result<(), Error>)
    decreases actions, 0
  {
    if actions == [] then (w, Ok(()))
    else
      match Act(w, actions[0])
      case (w', Err(e)) => (w', Err(e))
      case (w', Ok(_)) => Execute(w', actions[1..])
  }

  /** A whole test run: a failed test does not end it. */
  function RunTests(w: World, actions: seq<Action>): World
    decreases actions
  {
    if actions == [] then w else RunTests(Act(w, actions[0]).0, actions[1..])
  }

  const FRESH := World(Node(0, [], 1), [], map[], map[])

  // --------------------------------------------------------------- the invariant

  ghost predicate SortedIds(s: seq<Snapshot>) {
    forall i, j :: 0 <= i < j < |s| ==> s[i].id < s[j].id
  }

  ghost predicate NodeOk(n: Node) {
    SortedIds(n.snapshots) && forall i :: 0 <= i < |n.snapshots| ==> n.snapshots[i].id < n.nextId
  }

  /** The node still holds a snapshot with this id. */
  ghost predicate Alive(n: Node, id: nat) {
    exists i :: 0 <= i < |n.snapshots| && n.snapshots[i].id == id
  }

  /** Strictly ordered by exposed id and by current id. */
  ghost predicate KeptOk(kept: seq<Kept>, nextId: nat) {
    && (forall i :: 0 <= i < |kept| ==> kept[i].exposed <= kept[i].current < nextId)
    && (forall i, j :: 0 <= i < j < |kept| ==>
         kept[i].exposed < kept[j].exposed && kept[i].current < kept[j].current)
  }

  /** What is kept is what the execution it comes from returned and, while alive, left. */
  ghost predicate Faithful(w: World, k: Kept) {
    && k.exposed in w.executions
    && k.fixture == w.executions[k.exposed].fixture
    && k.data == w.executions[k.exposed].data
    && forall i :: 0 <= i < |w.node.snapshots| && w.node.snapshots[i].id == k.current ==>
         w.node.snapshots[i].chain == w.executions[k.exposed].chain
  }

  ghost predicate KeptBefore(kept: seq<Kept>, f: Fixture, i: nat) {
    exists j :: 0 <= j < i && j < |kept| && kept[j].fixture == f
  }

  /**
   How an element relates to its fixture's latest execution: it comes from that one, unless
   the fixture was already kept when it ended, and then an older element comes first.
   */
  ghost predicate Ranked(w: World, i: nat)
    requires i < |w.kept|
  {
    var k := w.kept[i];
    && k.fixture in w.latest && k.exposed <= w.latest[k.fixture] < w.node.nextId
    && w.latest[k.fixture] in w.executions
    && if w.executions[w.latest[k.fixture]].selfKept
       then k.exposed == w.latest[k.fixture] ==> KeptBefore(w.kept, k.fixture, i)
       else k.exposed == w.latest[k.fixture]
  }

  ghost predicate Inv(w: World) {
    && NodeOk(w.node)
    && KeptOk(w.kept, w.node.nextId)
    && forall i :: 0 <= i < |w.kept| ==> Faithful(w, w.kept[i]) && Ranked(w, i)
  }

  ghost predicate AllAlive(w: World) {
    forall i :: 0 <= i < |w.kept| ==> Alive(w.node, w.kept[i].current)
  }

  /** On sorted ids the search with its early exit finds what is there. */
  lemma {:induction false} SearchIsExact(s: seq<Snapshot>, id: nat, i: nat)
    requires SortedIds(s) && i <= |s| && forall j :: 0 <= j < i ==> s[j].id != id
    ensures IndexFrom(s, id, i) < |s| <==> exists j :: 0 <= j < |s| && s[j].id == id
    decreases |s| - i
  {
    if i < |s| && s[i].id < id {
      SearchIsExact(s, id, i + 1);
    }
  }

  lemma CanRevertIffAlive(n: Node, id: nat)
    requires NodeOk(n)
    ensures CanRevert(n, id) <==> Alive(n, id)
  {
    SearchIsExact(n.snapshots, id, 0);
  }

  /** Filtering by exposed id keeps exactly the elements up to the restored one. */
  lemma {:induction false} KeepUpToIsPrefix(kept: seq<Kept>, k: nat)
    requires k < |kept| && forall i, j :: 0 <= i < j < |kept| ==> kept[i].exposed < kept[j].exposed
    ensures KeepUpTo(kept, kept[k].exposed) == kept[..k + 1]
  {
    var rest := kept[1..];
    if k == 0 {
      KeepUpToDropsAll(rest, kept[0].exposed);
      assert kept[..1] == [kept[0]];
    } else {
      KeepUpToIsPrefix(rest, k - 1);
      assert kept[..k + 1] == [kept[0]] + rest[..k];
    }
  }

  lemma {:induction false} KeepUpToDropsAll(kept: seq<Kept>, exposed: nat)
    requires forall i :: 0 <= i < |kept| ==> exposed < kept[i].exposed
    ensures KeepUpTo(kept, exposed) == []
  {
    if kept != [] {
      KeepUpToDropsAll(kept[1..], exposed);
    }
  }

  // ------------------------------------------------------------- steps of the node

  /** No snapshot is lost. */
  ghost predicate Extends(n: Node, n': Node) {
    forall id :: Alive(n, id) ==> Alive(n', id)
  }

  /** The snapshots `n'` shares with `n` hold the same chains. */
  ghost predicate SameChains(n: Node, n': Node) {
    forall i :: 0 <= i < |n'.snapshots| && n'.snapshots[i].id < n.nextId ==>
      i < |n.snapshots| && n.snapshots[i] == n'.snapshots[i]
  }

  lemma NodeStepKeepsInv(w: World, node: Node)
    requires Inv(w) && NodeOk(node) && w.node.nextId <= node.nextId && SameChains(w.node, node)
    ensures Inv(w.(node := node))
  {
    var w' := w.(node := node);
    forall i | 0 <= i < |w'.kept| ensures Faithful(w', w'.kept[i]) && Ranked(w', i) {
      assert Faithful(w, w.kept[i]) && Ranked(w, i);
    }
  }

  lemma NodeStepKeepsAlive(w: World, node: Node)
    requires AllAlive(w) && Extends(w.node, node)
    ensures AllAlive(w.(node := node))
  {
    forall i | 0 <= i < |w.kept| ensures Alive(node, w.kept[i].current) {
      assert Alive(w.node, w.kept[i].current);
    }
  }

  lemma TakeExtends(n: Node)
    requires NodeOk(n)
    ensures NodeOk(Take(n)) && SameChains(n, Take(n)) && Extends(n, Take(n))
  {
    var n' := Take(n);
    forall id | Alive(n, id) ensures Alive(n', id) {
      var i :| 0 <= i < |n.snapshots| && n.snapshots[i].id == id;
      assert n'.snapshots[i].id == id;
    }
  }

  lemma RevertShrinks(n: Node, id: nat)
    requires NodeOk(n) && CanRevert(n, id)
    ensures NodeOk(Revert(n, id)) && SameChains(n, Revert(n, id))
  {}

  lemma MutationIsHarmless(n: Node, to: Chain)
    requires NodeOk(n)
    ensures NodeOk(n.(chain := to)) && SameChains(n, n.(chain := to)) && Extends(n, n.(chain := to))
  {
    var n' := n.(chain := to);
    forall id | Alive(n, id) ensures Alive(n', id) {
      var i :| 0 <= i < |n.snapshots| && n.snapshots[i].id == id;
      assert n'.snapshots[i].id == id;
    }
  }

  // ------------------------------------------------------------ restoring and keeping

  /** What is left after restoring: everything before the snapshot, and the snapshot under a new id. */
  lemma RestoredShape(w: World, k: nat) returns (at: nat)
    requires Inv(w) && k < |w.kept| && CanRevert(w.node, w.kept[k].current)
    ensures at < |w.node.snapshots| && w.node.snapshots[at].id == w.kept[k].current
    ensures
      var w' := Restore(w, k);
      && w'.kept == w.kept[..k] + [w.kept[k].(current := w.node.nextId)]
      && w'.node.chain == w.node.snapshots[at].chain
      && w'.node.snapshots == w.node.snapshots[..at] + [Snapshot(w.node.nextId, w.node.snapshots[at].chain)]
      && w'.node.nextId == w.node.nextId + 1
      && w'.executions == w.executions && w'.latest == w.latest
  {
    at := IndexFrom(w.node.snapshots, w.kept[k].current, 0);
    var renewed := w.kept[k := w.kept[k].(current := w.node.nextId)];
    KeepUpToIsPrefix(renewed, k);
    assert renewed[..k + 1] == w.kept[..k] + [w.kept[k].(current := w.node.nextId)];
  }

  lemma RestoredFaithful(w: World, k: nat, i: nat)
    requires Inv(w) && k < |w.kept| && CanRevert(w.node, w.kept[k].current) && i <= k
    ensures i < |Restore(w, k).kept| && Faithful(Restore(w, k), Restore(w, k).kept[i])
  {
    var at := RestoredShape(w, k);
    assert Faithful(w, w.kept[i]) && Faithful(w, w.kept[k]);
    var w' := Restore(w, k);
    forall j | 0 <= j < |w'.node.snapshots| && w'.node.snapshots[j].id == w'.kept[i].current
      ensures w'.node.snapshots[j].chain == w'.executions[w'.kept[i].exposed].chain
    {
      if j < at {
        assert w'.node.snapshots[j] == w.node.snapshots[j];
      }
    }
  }

  lemma RestoredRanked(w: World, k: nat, i: nat)
    requires Inv(w) && k < |w.kept| && CanRevert(w.node, w.kept[k].current) && i <= k
    ensures i < |Restore(w, k).kept| && Ranked(Restore(w, k), i)
  {
    var at := RestoredShape(w, k);
    var w' := Restore(w, k);
    assert Ranked(w, i);
    assert forall j :: 0 <= j < i ==> w'.kept[j].fixture == w.kept[j].fixture;
    if KeptBefore(w.kept, w.kept[i].fixture, i) {
      var j :| 0 <= j < i && w.kept[j].fixture == w.kept[i].fixture;
      assert w'.kept[j].fixture == w'.kept[i].fixture;
    }
  }

  lemma RestoredAlive(w: World, k: nat, i: nat)
    requires Inv(w) && k < |w.kept| && CanRevert(w.node, w.kept[k].current) && i <= k
    requires Alive(w.node, w.kept[i].current)
    ensures i < |Restore(w, k).kept| && Alive(Restore(w, k).node, Restore(w, k).kept[i].current)
  {
    var at := RestoredShape(w, k);
    var w' := Restore(w, k);
    var j :| 0 <= j < |w.node.snapshots| && w.node.snapshots[j].id == w.kept[i].current;
    if i < k {
      assert j < at;
      assert w'.node.snapshots[j] == w.node.snapshots[j];
    } else {
      assert w'.node.snapshots[at].id == w'.kept[i].current;
    }
  }

  lemma RestoredOrdered(w: World, k: nat)
    requires Inv(w) && k < |w.kept| && CanRevert(w.node, w.kept[k].current)
    ensures NodeOk(Restore(w, k).node) && KeptOk(Restore(w, k).kept, Restore(w, k).node.nextId)
  {
    var at := RestoredShape(w, k);
  }

  /** Restoring keeps the invariant, gives back the recorded chain, and leaves nothing dead behind. */
  lemma RestoreIsFaithful(w: World, k: nat)
    requires Inv(w) && k < |w.kept| && CanRevert(w.node, w.kept[k].current)
    ensures Inv(Restore(w, k))
    ensures Restore(w, k).node.chain == w.executions[w.kept[k].exposed].chain
    ensures AllAlive(w) ==> AllAlive(Restore(w, k))
  {
    var at := RestoredShape(w, k);
    assert Faithful(w, w.kept[k]);
    RestoredOrdered(w, k);
    forall i | 0 <= i < |Restore(w, k).kept| ensures Faithful(Restore(w, k), Restore(w, k).kept[i]) && Ranked(Restore(w, k), i) {
      RestoredFaithful(w, k, i);
      RestoredRanked(w, k, i);
    }
    if AllAlive(w) {
      forall i | 0 <= i < |Restore(w, k).kept| ensures Alive(Restore(w, k).node, Restore(w, k).kept[i].current) {
        assert Alive(w.node, w.kept[i].current);
        RestoredAlive(w, k, i);
      }
    }
  }

  lemma KeptRanked(w: World, f: Fixture, data: Data, i: nat)
    requires Inv(w) && i <= |w.kept|
    ensures Ranked(Keep(w, f, data), i)
  {
    var w' := Keep(w, f, data);
    var k := Find(w.kept, f);
    if i < |w.kept| {
      assert Ranked(w, i);
      assert w'.kept[i] == w.kept[i];
      if KeptBefore(w.kept, w.kept[i].fixture, i) {
        var j :| 0 <= j < i && w.kept[j].fixture == w.kept[i].fixture;
        assert w'.kept[j].fixture == w'.kept[i].fixture;
      }
    } else if k < |w.kept| {
      assert w'.kept[k].fixture == f;
    }
  }

  lemma KeptFaithful(w: World, f: Fixture, data: Data, i: nat)
    requires Inv(w) && i <= |w.kept|
    ensures Faithful(Keep(w, f, data), Keep(w, f, data).kept[i])
  {
    var w' := Keep(w, f, data);
    if i < |w.kept| {
      TakeExtends(w.node);
      assert Faithful(w, w.kept[i]) && w'.kept[i] == w.kept[i];
    }
  }

  /** Keeping a freshly executed fixture. */
  lemma KeepKeepsInv(w: World, f: Fixture, data: Data)
    requires Inv(w)
    ensures Inv(Keep(w, f, data))
  {
    var w' := Keep(w, f, data);
    TakeExtends(w.node);
    assert KeptOk(w'.kept, w'.node.nextId);
    forall i | 0 <= i < |w'.kept| ensures Faithful(w', w'.kept[i]) && Ranked(w', i) {
      KeptFaithful(w, f, data, i);
      KeptRanked(w, f, data, i);
    }
  }

  lemma KeepKeepsAlive(w: World, f: Fixture, data: Data)
    requires NodeOk(w.node) && AllAlive(w)
    ensures AllAlive(Keep(w, f, data))
  {
    var w' := Keep(w, f, data);
    TakeExtends(w.node);
    forall i | 0 <= i < |w'.kept| ensures Alive(w'.node, w'.kept[i].current) {
      if i < |w.kept| {
        assert Alive(w.node, w.kept[i].current);
      } else {
        assert w'.node.snapshots[|w.node.snapshots|].id == w'.kept[i].current;
      }
    }
  }

  // ---------------------------------------------------------------- whole runs

  lemma {:induction false} ExecuteKeepsInv(w: World, actions: seq<Action>)
    requires Inv(w)
    ensures Inv(Execute(w, actions).0)
    decreases actions, 0
  {
    if actions != [] {
      ActKeepsInv(w, actions[0]);
      var (w', r) := Act(w, actions[0]);
      if r.Ok? {
        ExecuteKeepsInv(w', actions[1..]);
      }
    }
  }

  lemma {:induction false} ActKeepsInv(w: World, a: Action)
    requires Inv(w)
    ensures Inv(Act(w, a).0)
    decreases a
  {
    match a
    case Mutates(to) =>
      MutationIsHarmless(w.node, to);
      NodeStepKeepsInv(w, w.node.(chain := to));
    case TakesSnapshot =>
      TakeExtends(w.node);
      NodeStepKeepsInv(w, Take(w.node));
    case Reverts(id) =>
      if CanRevert(w.node, id) {
        RevertShrinks(w.node, id);
        NodeStepKeepsInv(w, Revert(w.node, id));
      }
    case Loads(f, body, data) => LoadKeepsInv(w, f, body, data);
  }

  lemma {:induction false} LoadKeepsInv(w: World, f: Fixture, body: seq<Action>, data: Data)
    requires Inv(w)
    ensures Inv(Load(w, f, body, data).0)
    decreases body, 1
  {
    var k := Find(w.kept, f);
    if f.anonymous {
    } else if k < |w.kept| {
      if CanRevert(w.node, w.kept[k].current) {
        RestoreIsFaithful(w, k);
      }
    } else {
      ExecuteKeepsInv(w, body);
      KeepKeepsInv(Execute(w, body).0, f, data);
    }
  }

  lemma {:induction false} RunKeepsInv(w: World, actions: seq<Action>)
    requires Inv(w)
    ensures Inv(RunTests(w, actions))
    decreases actions
  {
    if actions != [] {
      ActKeepsInv(w, actions[0]);
      RunKeepsInv(Act(w, actions[0]).0, actions[1..]);
    }
  }

  /** The result of a load is that of the execution with this id. */
  ghost predicate Gives(w: World, r: Result<Data, Error>, id: nat) {
    id in w.executions && r == Ok(w.executions[id].data) && w.node.chain == w.executions[id].chain
  }

  /**
   After any run, user snapshots and reverts, nested and self-loading fixtures included.
   Loading a kept fixture executes nothing; it fails exactly if its snapshot is gone from
   the node, and otherwise gives an execution of the fixture, which is the latest one
   exactly if the fixture was not already kept when that one ended. Loading any other
   fixture gives the execution this load performs, unless an error escapes from it. An
   anonymous fixture is refused and nothing happens.
   */
  lemma LoadGivesLatestExecution(history: seq<Action>, f: Fixture, body: seq<Action>, data: Data)
    ensures
      var w := RunTests(FRESH, history);
      var (w', r) := Load(w, f, body, data);
      var k := Find(w.kept, f);
      && (f.anonymous ==> r == Err(AnonymousFixture) && w' == w)
      && (!f.anonymous && k < |w.kept| ==>
            var id := w.kept[k].exposed;
            && w'.executions == w.executions && w'.latest == w.latest
            && (r.Ok? <==> Alive(w.node, w.kept[k].current))
            && (r.Ok? ==> Gives(w', r, id) && w.executions[id].fixture == f)
            && (r.Err? ==> r.error == InvalidSnapshot && w' == w)
            && f in w.latest && w.latest[f] in w.executions
            && (id == w.latest[f] <==> !w.executions[w.latest[f]].selfKept))
      && (!f.anonymous && k == |w.kept| ==>
            && (r.Ok? <==> Execute(w, body).1.Ok?)
            && (r.Err? ==> r.error == Execute(w, body).1.error && w' == Execute(w, body).0)
            && (r.Ok? ==> f in w'.latest && Gives(w', r, w'.latest[f])
                          && r.value == data && w'.node.chain == Execute(w, body).0.node.chain))
  {
    RunKeepsInv(FRESH, history);
    var w := RunTests(FRESH, history);
    var k := Find(w.kept, f);
    if k < |w.kept| {
      CanRevertIffAlive(w.node, w.kept[k].current);
      assert Faithful(w, w.kept[k]) && Ranked(w, k);
      assert !KeptBefore(w.kept, f, k);
      if CanRevert(w.node, w.kept[k].current) {
        RestoreIsFaithful(w, k);
        var at := RestoredShape(w, k);
      }
    }
  }

  // ------------------------------------------------------------ loading again

  /** What tests do without loading or reverting. */
  ghost predicate OnlyChanges(actions: seq<Action>) {
    forall i :: 0 <= i < |actions| ==> actions[i].Mutates? || actions[i].TakesSnapshot?
  }

  lemma {:induction false} ChangesKeep(w: World, actions: seq<Action>)
    requires Inv(w) && OnlyChanges(actions)
    ensures
      var w' := RunTests(w, actions);
      w'.kept == w.kept && w'.executions == w.executions && w'.latest == w.latest && Extends(w.node, w'.node) && Inv(w')
    decreases actions
  {
    if actions != [] {
      ActKeepsInv(w, actions[0]);
      TakeExtends(w.node);
      if actions[0].Mutates? {
        MutationIsHarmless(w.node, actions[0].to);
      }
      ChangesKeep(Act(w, actions[0]).0, actions[1..]);
    }
  }

  lemma FindIs(kept: seq<Kept>, f: Fixture, k: nat)
    requires k < |kept| && kept[k].fixture == f && forall i :: 0 <= i < k ==> kept[i].fixture != f
    ensures Find(kept, f) == k
  {
    var n := Find(kept, f);
    assert forall i :: 0 <= i < n ==> kept[i].fixture != f;
  }

  /** The element a load leaves for its fixture, with a snapshot of the chain it leaves. */
  ghost predicate LeavesFor(w: World, f: Fixture, data: Data) {
    var k := Find(w.kept, f);
    k < |w.kept| && Alive(w.node, w.kept[k].current) && Gives(w, Ok(data), w.kept[k].exposed)
  }

  lemma RestoreLeaves(w: World, k: nat)
    requires Inv(w) && k < |w.kept| && k == Find(w.kept, w.kept[k].fixture) && CanRevert(w.node, w.kept[k].current)
    ensures LeavesFor(Restore(w, k), w.kept[k].fixture, w.kept[k].data)
  {
    var f := w.kept[k].fixture;
    var at := RestoredShape(w, k);
    var w' := Restore(w, k);
    FindIs(w'.kept, f, k);
    RestoreIsFaithful(w, k);
    assert Faithful(w, w.kept[k]);
    assert w'.node.snapshots[at].id == w'.kept[k].current;
  }

  lemma KeepLeaves(w: World, f: Fixture, data: Data)
    requires NotKept(w, f)
    ensures LeavesFor(Keep(w, f, data), f, data)
  {
    var w' := Keep(w, f, data);
    FindIs(w'.kept, f, |w.kept|);
    assert w'.node.snapshots[|w.node.snapshots|].id == w.node.nextId;
  }

  /**
   What fixtures are for: after a load, whatever tests change meanwhile, loading the same fixture
   again executes nothing and gives the same data and the same chain, unless the fixture loaded itself.
   */
  lemma LoadingAgainExecutesNothing(history: seq<Action>, f: Fixture, body: seq<Action>, data: Data,
                                    changes: seq<Action>, body': seq<Action>, data': Data)
    requires OnlyChanges(changes)
    requires Load(RunTests(FRESH, history), f, body, data).1.Ok?
    requires
      var w := RunTests(FRESH, history);
      NotKept(w, f) ==> NotKept(Execute(w, body).0, f)
    ensures
      var (loaded, first) := Load(RunTests(FRESH, history), f, body, data);
      var (again, second) := Load(RunTests(loaded, changes), f, body', data');
      && second == first && again.node.chain == loaded.node.chain
      && again.executions == loaded.executions && again.latest == loaded.latest
  {
    RunKeepsInv(FRESH, history);
    var w := RunTests(FRESH, history);
    LoadKeepsInv(w, f, body, data);
    var k := Find(w.kept, f);
    if k < |w.kept| {
      RestoreLeaves(w, k);
    } else {
      KeepLeaves(Execute(w, body).0, f, data);
    }
    var (loaded, first) := Load(w, f, body, data);
    ReloadIs(loaded, f, first.value, changes, body', data');
  }

  lemma ReloadIs(loaded: World, f: Fixture, data: Data, changes: seq<Action>, body': seq<Action>, data': Data)
    requires Inv(loaded) && LeavesFor(loaded, f, data) && !f.anonymous && OnlyChanges(changes)
    ensures
      var (again, second) := Load(RunTests(loaded, changes), f, body', data');
      && second == Ok(data) && again.node.chain == loaded.node.chain
      && again.executions == loaded.executions && again.latest == loaded.latest
  {
    ChangesKeep(loaded, changes);
    var w, k := RunTests(loaded, changes), Find(loaded.kept, f);
    CanRevertIffAlive(w.node, w.kept[k].current);
    RestoreIsFaithful(w, k);
    var at := RestoredShape(w, k);
    assert Faithful(w, w.kept[k]);
  }

  ghost predicate Keeps(w: World, exposed: nat) {
    exists i :: 0 <= i < |w.kept| && w.kept[i].exposed == exposed
  }

  /** An executed fixture is kept beside all that its execution left. */
  lemma ExecutedIsKept(w: World, f: Fixture, body: seq<Action>, data: Data, id: nat)
    requires !f.anonymous && NotKept(w, f) && Execute(w, body).1.Ok?
    ensures
      var w' := Load(w, f, body, data).0;
      f in w'.latest && (Keeps(w', id) <==> Keeps(Execute(w, body).0, id) || id == w'.latest[f])
  {
    var before, w' := Execute(w, body).0, Load(w, f, body, data).0;
    assert w'.kept[|before.kept|].exposed == w'.latest[f];
    if i :| 0 <= i < |before.kept| && before.kept[i].exposed == id {
      assert w'.kept[i].exposed == id;
    }
  }

  /** Restoring a fixture forgets exactly the others whose snapshots the revert destroyed. */
  lemma ForgottenIffDestroyed(w: World, k: nat, i: nat)
    requires Inv(w) && AllAlive(w) && k < |w.kept| && i < |w.kept|
    ensures CanRevert(w.node, w.kept[k].current)
    ensures Keeps(Restore(w, k), w.kept[i].exposed) <==>
      i == k || Alive(Revert(w.node, w.kept[k].current), w.kept[i].current)
  {
    assert Alive(w.node, w.kept[k].current) && Alive(w.node, w.kept[i].current);
    CanRevertIffAlive(w.node, w.kept[k].current);
    var at := RestoredShape(w, k);
    var n, w' := Revert(w.node, w.kept[k].current), Restore(w, k);
    assert n.snapshots == w.node.snapshots[..at];
    var j :| 0 <= j < |w.node.snapshots| && w.node.snapshots[j].id == w.kept[i].current;
    assert j < at <==> i < k;
    if i <= k {
      assert w'.kept[i].exposed == w.kept[i].exposed;
    }
    if i < k {
      assert n.snapshots[j].id == w.kept[i].current;
    }
  }

  // ----------------------------------------------------- fixtures that never load themselves

  /** No fixture of the list, at any depth, loads `f`. */
  ghost predicate NeverLoads(actions: seq<Action>, f: Fixture) {
    forall i :: 0 <= i < |actions| && actions[i].Loads? ==>
      actions[i].fixture != f && NeverLoads(actions[i].body, f)
  }

  /** No fixture loads itself, directly or through others. */
  ghost predicate WellNested(actions: seq<Action>) {
    forall i :: 0 <= i < |actions| ==> WellNestedAction(actions[i])
  }

  ghost predicate WellNestedAction(a: Action) {
    a.Loads? ==> NeverLoads(a.body, a.fixture) && WellNested(a.body)
  }

  ghost predicate NotKept(w: World, f: Fixture) {
    Find(w.kept, f) == |w.kept|
  }

  ghost predicate Unrepeated(w: World) {
    forall f :: f in w.latest ==> w.latest[f] in w.executions && !w.executions[w.latest[f]].selfKept
  }

  /** Dropping elements and renewing ids does not make a fixture kept. */
  lemma {:induction false} FilterKeepsOut(kept: seq<Kept>, exposed: nat, f: Fixture)
    requires forall i :: 0 <= i < |kept| ==> kept[i].fixture != f
    ensures Find(KeepUpTo(kept, exposed), f) == |KeepUpTo(kept, exposed)|
  {
    if kept != [] {
      FilterKeepsOut(kept[1..], exposed, f);
      var rest := KeepUpTo(kept[1..], exposed);
      if kept[0].exposed <= exposed {
        assert ([kept[0]] + rest)[1..] == rest;
      }
    }
  }

  lemma RestoreKeepsOut(w: World, k: nat, f: Fixture)
    requires k < |w.kept| && CanRevert(w.node, w.kept[k].current) && NotKept(w, f)
    ensures NotKept(Restore(w, k), f)
  {
    FilterKeepsOut(w.kept[k := w.kept[k].(current := Revert(w.node, w.kept[k].current).nextId)], w.kept[k].exposed, f);
  }

  lemma KeepKeepsOut(w: World, f: Fixture, data: Data, g: Fixture)
    requires NotKept(w, g) && f != g
    ensures NotKept(Keep(w, f, data), g)
  {}

  lemma {:induction false} ExecuteKeepsOut(w: World, actions: seq<Action>, f: Fixture)
    requires NotKept(w, f) && NeverLoads(actions, f)
    ensures NotKept(Execute(w, actions).0, f)
    decreases actions, 0
  {
    if actions != [] {
      ActKeepsOut(w, actions[0], f);
      var (w', r) := Act(w, actions[0]);
      assert forall i :: 0 <= i < |actions[1..]| ==> actions[1..][i] == actions[i + 1];
      if r.Ok? {
        ExecuteKeepsOut(w', actions[1..], f);
      }
    }
  }

  lemma {:induction false} ActKeepsOut(w: World, a: Action, f: Fixture)
    requires NotKept(w, f) && (a.Loads? ==> a.fixture != f && NeverLoads(a.body, f))
    ensures NotKept(Act(w, a).0, f)
    decreases a
  {
    if a.Loads? {
      LoadKeepsOut(w, a.fixture, a.body, a.data, f);
    }
  }

  lemma {:induction false} LoadKeepsOut(w: World, g: Fixture, body: seq<Action>, data: Data, f: Fixture)
    requires NotKept(w, f) && g != f && NeverLoads(body, f)
    ensures NotKept(Load(w, g, body, data).0, f)
    decreases body, 1
  {
    var k := Find(w.kept, g);
    if g.anonymous {
    } else if k < |w.kept| {
      if CanRevert(w.node, w.kept[k].current) {
        RestoreKeepsOut(w, k, f);
      }
    } else {
      ExecuteKeepsOut(w, body, f);
      KeepKeepsOut(Execute(w, body).0, g, data, f);
    }
  }

  lemma {:induction false} ExecuteKeepsUnrepeated(w: World, actions: seq<Action>)
    requires Unrepeated(w) && WellNested(actions)
    ensures Unrepeated(Execute(w, actions).0)
    decreases actions, 0
  {
    if actions != [] {
      ActKeepsUnrepeated(w, actions[0]);
      var (w', r) := Act(w, actions[0]);
      assert forall i :: 0 <= i < |actions[1..]| ==> actions[1..][i] == actions[i + 1];
      if r.Ok? {
        ExecuteKeepsUnrepeated(w', actions[1..]);
      }
    }
  }

  lemma {:induction false} ActKeepsUnrepeated(w: World, a: Action)
    requires Unrepeated(w) && WellNestedAction(a)
    ensures Unrepeated(Act(w, a).0)
    decreases a
  {
    if a.Loads? {
      LoadKeepsUnrepeated(w, a.fixture, a.body, a.data);
    }
  }

  lemma {:induction false} LoadKeepsUnrepeated(w: World, f: Fixture, body: seq<Action>, data: Data)
    requires Unrepeated(w) && NeverLoads(body, f) && WellNested(body)
    ensures Unrepeated(Load(w, f, body, data).0)
    decreases body, 1
  {
    if !f.anonymous && NotKept(w, f) {
      ExecuteKeepsUnrepeated(w, body);
      ExecuteKeepsOut(w, body, f);
    }
  }

  lemma {:induction false} RunKeepsUnrepeated(w: World, actions: seq<Action>)
    requires Unrepeated(w) && WellNested(actions)
    ensures Unrepeated(RunTests(w, actions))
    decreases actions
  {
    if actions != [] {
      ActKeepsUnrepeated(w, actions[0]);
      assert forall i :: 0 <= i < |actions[1..]| ==> actions[1..][i] == actions[i + 1];
      RunKeepsUnrepeated(Act(w, actions[0]).0, actions[1..]);
    }
  }

  /** In runs where no fixture loads itself, what is kept always comes from the latest execution. */
  lemma OnlySelfLoadingRepeats(history: seq<Action>, f: Fixture)
    requires WellNested(history) && f in RunTests(FRESH, history).latest
    ensures
      var w := RunTests(FRESH, history);
      w.latest[f] in w.executions && !w.executions[w.latest[f]].selfKept
  {
    RunKeepsUnrepeated(FRESH, history);
  }

  // ----------------------------------------------------- runs that never revert

  /** Snapshots are never reverted behind the back of `loadFixture`. */
  ghost predicate NeverReverts(actions: seq<Action>) {
    forall i :: 0 <= i < |actions| ==> !actions[i].Reverts? && (actions[i].Loads? ==> NeverReverts(actions[i].body))
  }

  /** An error that does not come from a lost snapshot. */
  ghost predicate NotLost<T>(r: Result<T, Error>) {
    r.Err? ==> r.error == AnonymousFixture
  }

  lemma {:induction false} ExecuteKeepsAlive(w: World, actions: seq<Action>)
    requires Inv(w) && AllAlive(w) && NeverReverts(actions)
    ensures AllAlive(Execute(w, actions).0) && NotLost(Execute(w, actions).1)
    decreases actions, 0
  {
    if actions != [] {
      ActKeepsAlive(w, actions[0]);
      ActKeepsInv(w, actions[0]);
      var (w', r) := Act(w, actions[0]);
      assert forall i :: 0 <= i < |actions[1..]| ==> actions[1..][i] == actions[i + 1];
      if r.Ok? {
        ExecuteKeepsAlive(w', actions[1..]);
      }
    }
  }

  lemma {:induction false} ActKeepsAlive(w: World, a: Action)
    requires Inv(w) && AllAlive(w) && !a.Reverts? && (a.Loads? ==> NeverReverts(a.body))
    ensures AllAlive(Act(w, a).0) && NotLost(Act(w, a).1)
    decreases a
  {
    match a
    case Mutates(to) =>
      MutationIsHarmless(w.node, to);
      NodeStepKeepsAlive(w, w.node.(chain := to));
    case TakesSnapshot =>
      TakeExtends(w.node);
      NodeStepKeepsAlive(w, Take(w.node));
    case Loads(f, body, data) => LoadKeepsAlive(w, f, body, data);
  }

  lemma {:induction false} LoadKeepsAlive(w: World, f: Fixture, body: seq<Action>, data: Data)
    requires Inv(w) && AllAlive(w) && NeverReverts(body)
    ensures AllAlive(Load(w, f, body, data).0) && NotLost(Load(w, f, body, data).1)
    decreases body, 1
  {
    var k := Find(w.kept, f);
    if f.anonymous {
    } else if k < |w.kept| {
      CanRevertIffAlive(w.node, w.kept[k].current);
      assert Alive(w.node, w.kept[k].current);
      RestoreIsFaithful(w, k);
    } else {
      ExecuteKeepsInv(w, body);
      ExecuteKeepsAlive(w, body);
      KeepKeepsAlive(Execute(w, body).0, f, data);
    }
  }

  lemma {:induction false} RunKeepsAlive(w: World, actions: seq<Action>)
    requires Inv(w) && AllAlive(w) && NeverReverts(actions)
    ensures AllAlive(RunTests(w, actions))
    decreases actions
  {
    if actions != [] {
      ActKeepsAlive(w, actions[0]);
      ActKeepsInv(w, actions[0]);
      assert forall i :: 0 <= i < |actions[1..]| ==> actions[1..][i] == actions[i + 1];
      RunKeepsAlive(Act(w, actions[0]).0, actions[1..]);
    }
  }

  /** In runs without reverts by the user, loading a kept fixture forgets exactly the others whose snapshots that destroys. */
  lemma OnlyDestroyedAreForgotten(history: seq<Action>, k: nat, i: nat)
    requires NeverReverts(history) && k < |RunTests(FRESH, history).kept| && i < |RunTests(FRESH, history).kept|
    ensures
      var w := RunTests(FRESH, history);
      && CanRevert(w.node, w.kept[k].current)
      && (Keeps(Restore(w, k), w.kept[i].exposed) <==>
            i == k || Alive(Revert(w.node, w.kept[k].current), w.kept[i].current))
  {
    RunKeepsInv(FRESH, history);
    RunKeepsAlive(FRESH, history);
    ForgottenIffDestroyed(RunTests(FRESH, history), k, i);
  }

  /**
   In runs that never revert a snapshot themselves the kept snapshots are strictly
   ordered and all alive, and no load fails for a lost snapshot.
   */
  lemma NoSnapshotIsLost(history: seq<Action>, f: Fixture, body: seq<Action>, data: Data)
    requires NeverReverts(history) && NeverReverts(body)
    ensures
      var w := RunTests(FRESH, history);
      KeptOk(w.kept, w.node.nextId) && AllAlive(w) && NotLost(Load(w, f, body, data).1)
  {
    RunKeepsInv(FRESH, history);
    RunKeepsAlive(FRESH, history);
    LoadKeepsAlive(RunTests(FRESH, history), f, body, data);
  }

  // --------------------------------------------------------------------- examples

  /** One revert behind its back is enough to make a load fail. */
  lemma UserRevertLosesSnapshot(f: Fixture, data: Data)
    requires !f.anonymous
    ensures
      var w := RunTests(FRESH, [Loads(f, [], data), Reverts(1)]);
      Load(w, f, [], data) == (w, Err(InvalidSnapshot))
  {
    var load, revert := Loads(f, [], data), Reverts(1);
    var w1 := Act(FRESH, load).0;
    assert Find(FRESH.kept, f) == 0;
    assert Load(FRESH, f, [], data) == (Keep(FRESH, f, data), Ok(data));
    assert w1 == Keep(FRESH, f, data);
    assert w1.kept == [Kept(f, 1, 1, data)] && w1.node.snapshots == [Snapshot(1, 0)];
    var w2 := Act(w1, revert).0;
    assert w2.node.snapshots == [];
    assert [load, revert][1..] == [revert] && [revert][1..] == [];
    assert RunTests(w1, [revert]) == RunTests(w2, []) == w2;
    assert Find(w2.kept, f) == 0;
  }

  /**
   A fixture that loads itself is kept twice, and the earlier, inner execution wins. After
   that only the inner one is kept, so it goes on winning although it is not the latest.
   */
  lemma SelfNestedFixtureReturnsInner(f: Fixture, inner: Data, outer: Data)
    requires !f.anonymous
    ensures
      var w := RunTests(FRESH, [Loads(f, [Loads(f, [], inner)], outer)]);
      && f in w.latest && w.latest[f] in w.executions && w.executions[w.latest[f]].data == outer
      && Load(w, f, [], 0).1 == Ok(inner)
      && Load(w, f, [], 0).0.kept == [Kept(f, 1, 3, inner)]
  {
    var innerLoad := Loads(f, [], inner);
    var outerLoad := Loads(f, [innerLoad], outer);
    assert Find(FRESH.kept, f) == 0;
    var w1 := Keep(FRESH, f, inner);
    assert Load(FRESH, f, [], inner) == (w1, Ok(inner));
    assert [innerLoad][1..] == [] && [outerLoad][1..] == [];
    assert Execute(FRESH, [innerLoad]) == Execute(w1, []) == (w1, Ok(()));
    var w2 := Keep(w1, f, outer);
    assert Load(FRESH, f, [innerLoad], outer) == (w2, Ok(outer));
    assert RunTests(FRESH, [outerLoad]) == RunTests(w2, []) == w2;
    assert w2.kept == [Kept(f, 1, 1, inner), Kept(f, 2, 2, outer)];
    assert w2.node.snapshots[0] == Snapshot(1, 0);
    assert IndexFrom(w2.node.snapshots, 1, 0) == 0;
    RunKeepsInv(FRESH, [outerLoad]);
    var _ := RestoredShape(w2, 0);
  }
}
