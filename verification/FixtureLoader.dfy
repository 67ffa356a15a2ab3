/**
 `loadFixture` and the node as the program has them: a list that is searched,
 pushed to and filtered, and a stack of snapshots that is spliced.
 */
module FixtureLoader {
  import opened Wrappers
  import opened Fixtures

  class Loader {
    var chain: Chain
    var nodeSnapshots: seq<Snapshot>
    var nextSnapshotId: nat
    var snapshots: seq<Kept>
    ghost var executions: map<nat, Execution>
    ghost var latest: map<Fixture, nat>

    ghost function Now(): World
      reads this
    {
      World(Node(chain, nodeSnapshots, nextSnapshotId), snapshots, executions, latest)
    }

    constructor ()
      ensures Now() == FRESH
    {
      chain, nodeSnapshots, nextSnapshotId, snapshots := 0, [], 1, [];
      executions, latest := map[], map[];
    }

    method TakeSnapshot() returns (id: nat)
      modifies this`nodeSnapshots, this`nextSnapshotId
      ensures id == old(nextSnapshotId)
      ensures Now() == old(Now()).(node := Take(old(Now()).node))
    {
      id := nextSnapshotId;
      nodeSnapshots := nodeSnapshots + [Snapshot(id, chain)];
      nextSnapshotId := nextSnapshotId + 1;
    }

    method GetSnapshotIndex(id: nat) returns (index: nat)
      ensures index == IndexFrom(nodeSnapshots, id, 0)
    {
      var i: nat := 0;
      while i < |nodeSnapshots|
        invariant i <= |nodeSnapshots| && IndexFrom(nodeSnapshots, id, i) == IndexFrom(nodeSnapshots, id, 0)
      {
        if nodeSnapshots[i].id == id {
          return i;
        }
        if nodeSnapshots[i].id > id {
          return |nodeSnapshots|;
        }
        i := i + 1;
      }
      return |nodeSnapshots|;
    }

    method RevertToSnapshot(id: nat) returns (reverted: bool)
      modifies this`chain, this`nodeSnapshots
      ensures reverted == CanRevert(old(Now()).node, id)
      ensures Now() == if reverted then old(Now()).(node := Revert(old(Now()).node, id)) else old(Now())
    {
      var index := GetSnapshotIndex(id);
      if index == |nodeSnapshots| {
        return false;
      }
      chain := nodeSnapshots[index].chain;
      nodeSnapshots := nodeSnapshots[..index];
      return true;
    }

    method FindSnapshot(fixture: Fixture) returns (k: nat)
      ensures k == Find(snapshots, fixture)
    {
      k := 0;
      while k < |snapshots| && snapshots[k].fixture != fixture
        invariant k <= |snapshots| && k + Find(snapshots[k..], fixture) == Find(snapshots, fixture)
      {
        assert snapshots[k..][1..] == snapshots[k + 1..];
        k := k + 1;
      }
    }

    method FilterSnapshots(exposed: nat)
      modifies this`snapshots
      ensures snapshots == KeepUpTo(old(snapshots), exposed)
    {
      var filtered: seq<Kept> := [];
      for i := 0 to |snapshots|
        invariant snapshots == old(snapshots)
        invariant filtered + KeepUpTo(snapshots[i..], exposed) == KeepUpTo(snapshots, exposed)
      {
        assert snapshots[i..][1..] == snapshots[i + 1..];
        if snapshots[i].exposed <= exposed {
          filtered := filtered + [snapshots[i]];
        }
      }
      assert filtered + [] == filtered;
      snapshots := filtered;
    }

    /** `snapshot.restorer.restore()` and the filter after it. */
    method RestoreSnapshot(k: nat) returns (r: Result<Data, Error>)
      requires k < |snapshots|
      modifies this`chain, this`nodeSnapshots, this`nextSnapshotId, this`snapshots
      ensures CanRevert(old(Now()).node, old(snapshots)[k].current) ==>
        r == Ok(old(snapshots)[k].data) && Now() == Restore(old(Now()), k)
      ensures !CanRevert(old(Now()).node, old(snapshots)[k].current) ==>
        r == Err(InvalidSnapshot) && Now() == old(Now())
    {
      var snapshot := snapshots[k];
      var reverted := RevertToSnapshot(snapshot.current);
      if !reverted {
        return Err(InvalidSnapshot);
      }
      var id := TakeSnapshot();
      snapshots := snapshots[k := snapshot.(current := id)];
      FilterSnapshots(snapshot.exposed);
      return Ok(snapshot.data);
    }

    method LoadFixture(fixture: Fixture, body: seq<Action>, data: Data) returns (r: Result<Data, Error>)
      modifies this
      ensures (Now(), r) == Load(old(Now()), fixture, body, data)
      decreases body, 1
    {
      if fixture.anonymous {
        return Err(AnonymousFixture);
      }
      var k := FindSnapshot(fixture);
      if k < |snapshots| {
        r := RestoreSnapshot(k);
      } else {
        var executed := ExecuteFixture(body);
        if executed.Err? {
          return Err(executed.error);
        }
        executions := executions[nextSnapshotId :=
          Execution(fixture, data, chain, Find(snapshots, fixture) < |snapshots|)];
        latest := latest[fixture := nextSnapshotId];
        var id := TakeSnapshot();
        snapshots := snapshots + [Kept(fixture, id, id, data)];
        return Ok(data);
      }
    }

    method Perform(a: Action) returns (r: Result<(), Error>)
      modifies this
      ensures (Now(), r) == Act(old(Now()), a)
      decreases a
    {
      match a
      case Mutates(to) =>
        chain := to;
        r := Ok(());
      case TakesSnapshot =>
        var _ := TakeSnapshot();
        r := Ok(());
      case Reverts(id) =>
        var _ := RevertToSnapshot(id);
        r := Ok(());
      case Loads(f, body, data) =>
        var loaded := LoadFixture(f, body, data);
        r := if loaded.Ok? then Ok(()) else Err(loaded.error);
    }

    method ExecuteFixture(actions: seq<Action>) returns (r: Result<(), Error>)
      modifies this
      ensures (Now(), r) == Execute(old(Now()), actions)
      decreases actions, 0
    {
      if actions == [] {
        return Ok(());
      }
      r := Perform(actions[0]);
      if r.Ok? {
        r := ExecuteFixture(actions[1..]);
      }
    }
  }
}
