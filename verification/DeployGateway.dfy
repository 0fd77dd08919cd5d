// The gateway object: bootstrap and deploy write the files in the order of the source.
// Every deploy is a run of the machine.
module DeployGateway {
  import opened CodeOrder
  import opened Options
  import opened StableSort
  import opened DeployManifest
  import opened DeployMachine

  // What git, docker, the probes and the credential service answer: the outcomes of outside
  // commands are parameters.
  datatype World = World(
    main: Option<string>,
    addFails: Option<Option<Release>>,             // `git worktree add` fails, leaving this behind
    applies: bool, diagnoses: bool,
    removeFails: map<string, Option<Release>>,     // `git worktree remove` fails, leaving this behind
    prunes: bool)

  // A sequence of steps from `g`; None when some step is not possible.
  ghost function Exec(g: Gateway, events: seq<Event>): Option<Gateway>
    decreases |events|
  {
    if events == [] then Some(g)
    else
      var prefix := Exec(g, events[..|events| - 1]);
      var last := events[|events| - 1];
      if prefix.Some? && Enabled(prefix.value, last) then Some(Step(prefix.value, last)) else None
  }

  lemma ExecOne(g: Gateway, events: seq<Event>, event: Event)
    requires Exec(g, events).Some? && Enabled(Exec(g, events).value, event)
    ensures Exec(g, events + [event]) == Some(Step(Exec(g, events).value, event))
  {
    assert (events + [event])[..|events|] == events;
  }

  class ProductionDeployment {
    var current: Option<Json>
    var history: map<string, Json>
    var releases: map<string, Release>

    ghost function Files(): Disk
      reads this
    {
      Disk(current, history, releases)
    }

    constructor ()
      ensures Files() == Disk(None, map[], map[])
    {
      current, history, releases := None, map[], map[];
    }

    method ReadCurrentManifest() returns (stored: Result<Stored>)
      ensures stored == Current(Files())
    {
      if current.None? { return Refused("production state is missing; run --bootstrap first"); }
      stored := ValidateStoredManifest(current.value);
    }

    method CheckoutRelease(sha: string, world: World) returns (ok: bool)
      modifies this`releases
      ensures sha in old(releases) ==>
        releases == old(releases) && (ok <==> releases[sha] == Worktree(Some(sha)))
      ensures sha !in old(releases) ==>
        && (ok <==> world.addFails.None?)
        && Files() == SetRelease(old(Files()), sha, if ok then Some(Worktree(Some(sha))) else world.addFails.value)
    {
      if sha in releases {
        return releases[sha] == Worktree(Some(sha));
      }
      if world.addFails.Some? {
        if world.addFails.value.Some? {
          releases := releases[sha := world.addFails.value.value];
        } else {
          releases := releases - {sha};
        }
        return false;
      }
      releases := releases[sha := Worktree(Some(sha))];
      return true;
    }

    // sorted(self.releases.iterdir())
    method ListNames() returns (order: seq<string>)
      ensures forall name :: name in order <==> name in releases
      ensures Ordered(ByCodeLe, order) && Distinct(order)
    {
      var names: seq<string> := [];
      var left := releases.Keys;
      while left != {}
        invariant forall name :: name in releases <==> name in left || name in names
        invariant Distinct(names) && forall name :: name in names ==> name !in left
        decreases left
      {
        var name :| name in left;
        left := left - {name};
        names := names + [name];
      }
      ByCodeOrders(names);
      order := Sort(ByCodeLe, names);
      PermutedDistinct(names, order);
    }

    // One turn of the pruning loop.
    method PruneOne(name: string, retained: string, world: World, ghost m: Manifest, ghost todo: seq<string>)
      returns (going: bool, ghost event: Event)
      requires todo != [] && todo[0] == name
      modifies this`releases
      ensures var g := Gateway(old(Files()), Pruning(m, retained, todo), world.main, []);
        && Enabled(g, event)
        && Step(g, event) ==
             Gateway(Files(), if going then Pruning(m, retained, todo[1..]) else Idle, world.main, [])
      ensures retained in old(releases) ==> retained in releases
      ensures going ==> forall other :: other in releases ==>
        other in old(releases) && (other == name ==> !IsSha(name) || name == retained)
    {
      if !IsSha(name) || name == retained || name !in releases {
        return true, PruneNext(None, true);
      }
      if releases[name] != Worktree(Some(name)) {
        return false, PruneNext(None, false);
      }
      if name in world.removeFails {
        var left := world.removeFails[name];
        event := PruneNext(left, false);
        if left.Some? { releases := releases[name := left.value]; } else { releases := releases - {name}; }
        return false, event;
      }
      releases := releases - {name};
      return true, PruneNext(None, true);
    }

    // Removes every commit-named release but the current one; `m` is the deployment in whose
    // run this happens.
    method PruneReleases(world: World, ghost m: Manifest) returns (ok: bool, ghost events: seq<Event>)
      modifies this`releases
      ensures Exec(Gateway(old(Files()), Installed(m), world.main, []), events)
           == Some(Gateway(Files(), Idle, world.main, if ok then [m.sourceSha] else []))
      ensures events != [] && events[0].ListReleases?
      ensures Current(Files()).Ok? && Current(Files()).value.sourceSha in old(releases) ==>
        Current(Files()).value.sourceSha in releases
      ensures ok ==> Current(Files()).Ok? && OnlyRelease(Files(), Current(Files()).value.sourceSha)
    {
      ghost var start := Gateway(Files(), Installed(m), world.main, []);
      var retained := ReadCurrentManifest();
      var order := ListNames();
      ghost var none: seq<Event> := [];
      ExecOne(start, none, ListReleases(order));
      events := none + [ListReleases(order)];
      if retained.Refused? { return false, events; }
      var sha := retained.value.sourceSha;
      ghost var more: seq<Event>;
      ok, more := PruneEach(order, sha, world, m);
      ExecJoin(start, events, more);
      events := events + more;
    }

    // The pruning loop, and the `git worktree prune` after it.
    method PruneEach(order: seq<string>, sha: string, world: World, ghost m: Manifest)
      returns (ok: bool, ghost events: seq<Event>)
      requires forall name :: name in releases ==> name in order
      modifies this`releases
      ensures Exec(Gateway(old(Files()), Pruning(m, sha, order), world.main, []), events)
           == Some(Gateway(Files(), Idle, world.main, if ok then [m.sourceSha] else []))
      ensures sha in old(releases) ==> sha in releases
      ensures ok ==> OnlyRelease(Files(), sha)
    {
      ghost var start := Gateway(Files(), Pruning(m, sha, order), world.main, []);
      events := [];
      var i := 0;
      assert order[0..] == order;
      while i < |order|
        invariant 0 <= i <= |order|
        invariant current == old(current) && history == old(history)
        invariant Exec(start, events) == Some(Gateway(Files(), Pruning(m, sha, order[i..]), world.main, []))
        invariant sha in old(releases) ==> sha in releases
        invariant forall name :: name in releases && IsSha(name) ==> name == sha || name in order[i..]
      {
        var going: bool;
        ghost var event: Event;
        going, event := PruneOne(order[i], sha, world, m, order[i..]);
        ExecOne(start, events, event);
        events := events + [event];
        if !going { return false, events; }
        NextTodo(order, i);
        i := i + 1;
      }
      assert order[|order|..] == [];
      ExecOne(start, events, PruneDone(world.prunes));
      assert start.receipts + [m.sourceSha] == [m.sourceSha];
      events := events + [PruneDone(world.prunes)];
      ok := world.prunes;
    }

    // deploy() under the lock, for a validated request.
    method Deploy(m: Manifest, world: World) returns (receipt: Option<string>, ghost events: seq<Event>)
      requires Deployable(m)
      modifies this
      ensures Exec(Gateway(old(Files()), Requested(m), None, []), events)
           == Some(Gateway(Files(), Idle, world.main, if receipt.Some? then [m.sourceSha] else []))
      ensures receipt.Some? ==> receipt.value == m.sourceSha
    {
      ghost var start := Gateway(Files(), Requested(m), None, []);
      ghost var none: seq<Event> := [];
      ExecOne(start, none, FetchMain(world.main));
      events := none + [FetchMain(world.main)];
      if world.main != Some(m.sourceSha) { return None, events; }
      var stored := ReadCurrentManifest();
      ExecOne(start, events, ReadCurrent);
      events := events + [ReadCurrent];
      if stored.Refused? { return None, events; }
      var same := !stored.value.bootstrap && stored.value.sourceSha == m.sourceSha && stored.value.images == m.images;

      var applied: bool;
      ghost var more: seq<Event>;
      applied, more := TryApply(m, same, world);
      ExecJoin(start, events, more);
      events := events + more;
      if !applied { return None, events; }

      var finished: bool;
      finished, more := Finish(m, same, world);
      ExecJoin(start, events, more);
      events := events + more;
      receipt := if finished then Some(m.sourceSha) else None;
    }

    // After a successful apply: the two writes, unless nothing changed, and the pruning.
    method Finish(m: Manifest, same: bool, world: World) returns (ok: bool, ghost events: seq<Event>)
      modifies this
      ensures Exec(Gateway(old(Files()), Applied(m, same), world.main, []), events)
           == Some(Gateway(Files(), Idle, world.main, if ok then [m.sourceSha] else []))
    {
      ghost var start := Gateway(Files(), Applied(m, same), world.main, []);
      events := [];
      ghost var more: seq<Event>;
      if same {
        ok, more := PruneReleases(world, m);
        ListFromApplied(start, start.(phase := Installed(m)), more);
        events := more;
        return;
      }
      ExecOne(start, events, Record);
      events := events + [Record];
      history := history[m.sourceSha := ToJson(m)];
      ExecOne(start, events, Install);
      events := events + [Install];
      current := Some(ToJson(m));
      ok, more := PruneReleases(world, m);
      ExecJoin(start, events, more);
      events := events + more;
    }

    // The try block around apply(), and the diagnostics when it fails.
    method TryApply(m: Manifest, same: bool, world: World) returns (applied: bool, ghost events: seq<Event>)
      modifies this`releases, this`history
      ensures Exec(Gateway(old(Files()), Checked(m, same), world.main, []), events)
           == Some(Gateway(Files(), if applied then Applied(m, same) else Idle, world.main, []))
    {
      ghost var start := Gateway(Files(), Checked(m, same), world.main, []);
      ghost var none: seq<Event> := [];
      ghost var added := if world.addFails.Some? then world.addFails.value else Some(Worktree(Some(m.sourceSha)));
      var ready := CheckoutRelease(m.sourceSha, world);
      ExecOne(start, none, Checkout(added, world.addFails.None?));
      events := none + [Checkout(added, world.addFails.None?)];
      if ready {
        ExecOne(start, events, Apply(world.applies));
        events := events + [Apply(world.applies)];
        if world.applies { return true, events; }
      }
      ExecOne(start, events, Diagnose(world.diagnoses));
      events := events + [Diagnose(world.diagnoses)];
      if world.diagnoses { history := history[DiagnosticsName(m.sourceSha) := Null]; }
      applied := false;
    }

    // handle(): takes the lock, refuses anything that is not a valid deploy request.
    method Handle(request: Json, world: World) returns (receipt: Option<string>, ghost events: seq<Event>)
      modifies this
      ensures ValidateDeployRequest(request).Refused? ==> Files() == old(Files()) && receipt == None && events == []
      ensures ValidateDeployRequest(request).Ok? ==>
        var m := ValidateDeployRequest(request).value;
        && Deployable(m)
        && Exec(Gateway(old(Files()), Requested(m), None, []), events)
           == Some(Gateway(Files(), Idle, world.main, if receipt.Some? then [m.sourceSha] else []))
    {
      var validated := ValidateDeployRequest(request);
      if validated.Refused? { return None, []; }
      AcceptedIsWellFormed(request);
      receipt, events := Deploy(validated.value, world);
    }

    // The baseline is validated before it is written.
    method WriteBaseline(m: Manifest) returns (ok: bool)
      modifies this`current
      ensures ok <==> WellFormedManifest(m)
      ensures current == if ok then Some(ToJson(m)) else old(current)
    {
      StoredManifestReadsBack(m);
      var validated := ValidateStoredManifest(ToJson(m));
      if validated.Refused? { return false; }
      current := Some(ToJson(m));
      return true;
    }

    // Pruning leaves a baseline in place, and on success only its release.
    method PruneAroundBaseline(world: World, m: Manifest) returns (ok: bool)
      requires current == Some(ToJson(m)) && WellFormedManifest(m) && m.bootstrap && m.sourceSha in releases
      modifies this
      ensures current == old(current) && history == old(history) && m.sourceSha in releases
      ensures ok ==> OnlyRelease(Files(), m.sourceSha)
    {
      BaselineIsSound(Files(), m);
      ghost var events: seq<Event>;
      ok, events := PruneReleases(world, m);
    }

    // bootstrap(): records the running containers as the baseline. It either leaves
    // current.json alone or leaves a sound disk, from whatever was there before.
    method Bootstrap(world: World, images: map<string, string>) returns (ok: bool)
      modifies this
      ensures current == old(current) || Sound(Files())
      ensures ok ==>
        && Sound(Files()) && Current(Files()).value.bootstrap
        && world.main == Some(Current(Files()).value.sourceSha) && Current(Files()).value.images == images
        && OnlyRelease(Files(), Current(Files()).value.sourceSha)
      ensures history == old(history)
    {
      if world.main.None? { return false; }
      var sha := world.main.value;
      var ready := CheckoutRelease(sha, world);
      if !ready { return false; }
      var m := Manifest(sha, "bootstrap", images, true);
      var written := WriteBaseline(m);
      if !written { return false; }
      ok := PruneAroundBaseline(world, m);
      BaselineIsSound(Files(), m);
    }
  }

  // A baseline has no history record of its own.
  lemma BaselineIsSound(disk: Disk, m: Manifest)
    requires disk.current == Some(ToJson(m)) && WellFormedManifest(m) && m.bootstrap
    ensures Current(disk) == Ok(StoredOf(m))
    ensures m.sourceSha in disk.releases ==> Sound(disk)
  {
    StoredManifestReadsBack(m);
  }

  lemma ExecLast(g: Gateway, events: seq<Event>)
    requires events != []
    ensures var prefix, last := Exec(g, events[..|events| - 1]), events[|events| - 1];
      Exec(g, events) ==
        if prefix.Some? && Enabled(prefix.value, last) then Some(Step(prefix.value, last)) else None
  {
  }

  lemma {:induction false} ExecJoin(g: Gateway, first: seq<Event>, second: seq<Event>)
    requires Exec(g, first).Some?
    ensures Exec(g, first + second) == Exec(Exec(g, first).value, second)
    decreases |second|
  {
    if second == [] {
      assert first + second == first;
    } else {
      var all, last := first + second, second[|second| - 1];
      assert all[..|all| - 1] == first + second[..|second| - 1] && all[|all| - 1] == last;
      ExecJoin(g, first, second[..|second| - 1]);
      ExecLast(g, all);
      ExecLast(Exec(g, first).value, second);
    }
  }

  // Wherever a deploy stops or is killed, the disk it leaves is sound.
  lemma {:induction false} EveryStopIsSound(g: Gateway, events: seq<Event>, k: nat)
    requires Inv(g) && Exec(g, events).Some? && k <= |events|
    ensures Exec(g, events[..k]).Some? && Inv(Exec(g, events[..k]).value)
    ensures Sound(Exec(g, events[..k]).value.disk)
    decreases |events|
  {
    if events == [] {
      assert events[..k] == events;
    } else {
      var most := events[..|events| - 1];
      ExecLast(g, events);
      if k < |events| {
        assert most[..k] == events[..k];
        EveryStopIsSound(g, most, k);
      } else {
        assert events[..k] == events && most[..|most|] == most;
        EveryStopIsSound(g, most, |most|);
        StepKeepsInv(Exec(g, most).value, events[|events| - 1]);
      }
    }
  }

  // Listing the releases forgets whether the install was skipped.
  lemma {:induction false} ListFromApplied(a: Gateway, b: Gateway, events: seq<Event>)
    requires a.phase.Applied? && a.phase.same && b == a.(phase := Installed(a.phase.m))
    requires events != [] && events[0].ListReleases?
    ensures Exec(a, events) == Exec(b, events)
    decreases |events|
  {
    if |events| == 1 {
      assert events[..0] == [];
    } else {
      ListFromApplied(a, b, events[..|events| - 1]);
    }
  }

  lemma NextTodo(order: seq<string>, i: nat)
    requires i < |order|
    ensures order[i..][1..] == order[i + 1..]
    ensures forall name :: name in order[i..] ==> name == order[i] || name in order[i + 1..]
  {
    assert order[i..] == [order[i]] + order[i + 1..];
  }
}
