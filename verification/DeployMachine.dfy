// The production gateway as a persistent state machine: the files under its root, and one
// program counter for the deploy that holds the lock.
module DeployMachine {
  import opened Options
  import opened DeployManifest

  // What stands at a path under releases/. `head` is what `git rev-parse HEAD` reports.
  datatype Release = Worktree(head: Option<string>) | UnsafePath

  datatype Disk = Disk(current: Option<Json>, history: map<string, Json>, releases: map<string, Release>)

  datatype Phase =
    | Idle
    | Requested(m: Manifest)
    | Fetched(m: Manifest)
    | Checked(m: Manifest, same: bool)
    | CheckedOut(m: Manifest, same: bool)
    | Applied(m: Manifest, same: bool)
    | Failed(m: Manifest)
    | Recorded(m: Manifest)
    | Installed(m: Manifest)
    | Pruning(m: Manifest, retained: string, todo: seq<string>)

  datatype Gateway = Gateway(disk: Disk, phase: Phase, main: Option<string>, receipts: seq<string>)

  // Every outside command (git, docker, probes, credentials) succeeds or fails at will, and the
  // process can die between any two steps; a write through a temporary file is one step.
  datatype Event =
    | Request(m: Manifest)                          // lock taken, request validated
    | FetchMain(main: Option<string>)
    | ReadCurrent
    | Checkout(added: Option<Release>, ok: bool)    // outcome of `git worktree add` if it has to run
    | Apply(ok: bool)                               // environment, images, containers, probes, credentials
    | Diagnose(ok: bool)
    | Record                                        // history/<sha>.json
    | Install                                       // current.json
    | ListReleases(order: seq<string>)
    | PruneNext(left: Option<Release>, ok: bool)    // outcome of `git worktree remove` if it has to run
    | PruneDone(ok: bool)
    | Crash

  // ---------------------------------------------------------------- specification

  function Current(disk: Disk): Result<Stored> {
    if disk.current.None? then Refused("production state is missing; run --bootstrap first")
    else ValidateStoredManifest(disk.current.value)
  }

  predicate Deployable(m: Manifest) { WellFormedManifest(m) && !m.bootstrap }

  predicate Enabled(g: Gateway, event: Event) {
    match event
    case Request(m) => g.phase.Idle? && Deployable(m)
    case FetchMain(_) => g.phase.Requested?
    case ReadCurrent => g.phase.Fetched?
    case Checkout(added, ok) => g.phase.Checked? && (ok ==> added == Some(Worktree(Some(g.phase.m.sourceSha))))
    case Apply(_) => g.phase.CheckedOut?
    case Diagnose(_) => g.phase.Failed?
    case Record => g.phase.Applied? && !g.phase.same
    case Install => g.phase.Recorded?
    case ListReleases(order) =>
      (g.phase.Installed? || (g.phase.Applied? && g.phase.same))
      && (forall name :: name in order ==> name in g.disk.releases)
      && (forall name :: name in g.disk.releases ==> name in order)
    case PruneNext(left, ok) => g.phase.Pruning? && g.phase.todo != [] && (ok ==> left == None)
    case PruneDone(_) => g.phase.Pruning? && g.phase.todo == []
    case Crash => true
  }

  function SetRelease(disk: Disk, name: string, release: Option<Release>): Disk {
    disk.(releases := if release.Some? then disk.releases[name := release.value] else disk.releases - {name})
  }

  function DiagnosticsName(sha: string): string { "failed-runtime-" + sha }

  function CheckoutStep(g: Gateway, added: Option<Release>, ok: bool): Gateway
    requires g.phase.Checked?
  {
    var m := g.phase.m;
    if m.sourceSha in g.disk.releases then
      if g.disk.releases[m.sourceSha] == Worktree(Some(m.sourceSha)) then g.(phase := CheckedOut(m, g.phase.same))
      else g.(phase := Failed(m))
    else
      g.(disk := SetRelease(g.disk, m.sourceSha, added),
         phase := if ok then CheckedOut(m, g.phase.same) else Failed(m))
  }

  function PruneStep(g: Gateway, left: Option<Release>, ok: bool): Gateway
    requires g.phase.Pruning? && g.phase.todo != []
  {
    var name := g.phase.todo[0];
    var skip := g.(phase := g.phase.(todo := g.phase.todo[1..]));
    if !IsSha(name) || name == g.phase.retained || name !in g.disk.releases then skip
    else if g.disk.releases[name] != Worktree(Some(name)) then g.(phase := Idle)
    else
      var next := g.(disk := SetRelease(g.disk, name, left));
      if ok then next.(phase := skip.phase) else next.(phase := Idle)
  }

  function Step(g: Gateway, event: Event): Gateway
    requires Enabled(g, event)
  {
    match event
    case Request(m) => g.(phase := Requested(m))
    case FetchMain(main) =>
      var seen := g.(main := main);
      if main == Some(g.phase.m.sourceSha) then seen.(phase := Fetched(g.phase.m)) else seen.(phase := Idle)
    case ReadCurrent =>
      var current := Current(g.disk);
      if current.Refused? then g.(phase := Idle)
      else
        var m := g.phase.m;
        g.(phase := Checked(m,
          !current.value.bootstrap && current.value.sourceSha == m.sourceSha && current.value.images == m.images))
    case Checkout(added, ok) => CheckoutStep(g, added, ok)
    case Apply(ok) => g.(phase := if ok then Applied(g.phase.m, g.phase.same) else Failed(g.phase.m))
    case Diagnose(ok) =>
      var name := DiagnosticsName(g.phase.m.sourceSha);
      g.(phase := Idle, disk := if ok then g.disk.(history := g.disk.history[name := Null]) else g.disk)
    case Record =>
      var m := g.phase.m;
      g.(phase := Recorded(m), disk := g.disk.(history := g.disk.history[m.sourceSha := ToJson(m)]))
    case Install => g.(phase := Installed(g.phase.m), disk := g.disk.(current := Some(ToJson(g.phase.m))))
    case ListReleases(order) =>
      var current := Current(g.disk);
      if current.Refused? then g.(phase := Idle)
      else g.(phase := Pruning(g.phase.m, current.value.sourceSha, order))
    case PruneNext(left, ok) => PruneStep(g, left, ok)
    case PruneDone(ok) =>
      if ok then g.(phase := Idle, receipts := g.receipts + [g.phase.m.sourceSha]) else g.(phase := Idle)
    case Crash => g.(phase := Idle)
  }

  // ---------------------------------------------------------------- invariant

  ghost predicate HasRecord(disk: Disk, sha: string) {
    && sha in disk.history
    && ValidateStoredManifest(disk.history[sha]).Ok?
    && ValidateStoredManifest(disk.history[sha]).value.sourceSha == sha
    && !ValidateStoredManifest(disk.history[sha]).value.bootstrap
  }

  // current.json re-validates, its release stands, and a deployed one is in the history.
  ghost predicate Sound(disk: Disk) {
    && Current(disk).Ok?
    && Current(disk).value.sourceSha in disk.releases
    && (!Current(disk).value.bootstrap ==> HasRecord(disk, Current(disk).value.sourceSha))
  }

  // current.json is the deployment `m`.
  ghost predicate Shows(disk: Disk, m: Manifest) {
    Current(disk) == Ok(StoredOf(m))
  }

  ghost predicate OnlyRelease(disk: Disk, sha: string) {
    forall name :: name in disk.releases && IsSha(name) ==> name == sha
  }

  ghost predicate PhaseOk(g: Gateway) {
    match g.phase
    case Idle => true
    case Requested(m) => true
    case Fetched(m) => g.main == Some(m.sourceSha)
    case Checked(m, same) => g.main == Some(m.sourceSha) && (same <==> Shows(g.disk, m))
    case CheckedOut(m, same) =>
      g.main == Some(m.sourceSha) && (same <==> Shows(g.disk, m)) && m.sourceSha in g.disk.releases
    case Applied(m, same) =>
      g.main == Some(m.sourceSha) && (same <==> Shows(g.disk, m)) && m.sourceSha in g.disk.releases
    case Failed(m) => g.main == Some(m.sourceSha)
    case Recorded(m) =>
      && g.main == Some(m.sourceSha) && m.sourceSha in g.disk.releases && HasRecord(g.disk, m.sourceSha)
      && g.disk.history[m.sourceSha] == ToJson(m)
    case Installed(m) => g.main == Some(m.sourceSha) && Shows(g.disk, m)
    case Pruning(m, retained, todo) =>
      && g.main == Some(m.sourceSha) && Shows(g.disk, m) && retained == m.sourceSha
      && (forall name :: name in g.disk.releases && IsSha(name) ==> name == m.sourceSha || name in todo)
  }

  ghost predicate Inv(g: Gateway) {
    && Sound(g.disk)
    && PhaseOk(g)
    && (!g.phase.Idle? ==> Deployable(g.phase.m))
  }

  lemma DiagnosticsAreNoRecord(sha: string)
    requires IsSha(sha)
    ensures !IsSha(DiagnosticsName(sha))
  {
    assert |DiagnosticsName(sha)| == 55;
  }

  lemma SoundIsSha(disk: Disk)
    requires Current(disk).Ok?
    ensures IsSha(Current(disk).value.sourceSha)
  {
  }

  lemma CheckoutKeepsInv(g: Gateway, added: Option<Release>, ok: bool)
    requires Inv(g) && Enabled(g, Checkout(added, ok))
    ensures Inv(CheckoutStep(g, added, ok))
  {
  }

  lemma RecordKeepsInv(g: Gateway)
    requires Inv(g) && Enabled(g, Record)
    ensures Inv(Step(g, Record))
  {
    StoredManifestReadsBack(g.phase.m);
    assert Current(Step(g, Record).disk) == Current(g.disk);
  }

  lemma InstallKeepsInv(g: Gateway)
    requires Inv(g) && Enabled(g, Install)
    ensures Inv(Step(g, Install))
  {
    StoredManifestReadsBack(g.phase.m);
  }

  lemma DiagnoseKeepsInv(g: Gateway, ok: bool)
    requires Inv(g) && Enabled(g, Diagnose(ok))
    ensures Inv(Step(g, Diagnose(ok)))
  {
    DiagnosticsAreNoRecord(g.phase.m.sourceSha);
    SoundIsSha(g.disk);
  }

  lemma ListKeepsInv(g: Gateway, order: seq<string>)
    requires Inv(g) && Enabled(g, ListReleases(order))
    ensures Inv(Step(g, ListReleases(order)))
  {
    var next := Step(g, ListReleases(order));
    assert next.disk == g.disk && Shows(g.disk, g.phase.m);
    assert next.phase == Pruning(g.phase.m, g.phase.m.sourceSha, order);
  }

  // Pruning touches a commit-named release other than the retained one, or nothing.
  lemma PruneFrame(g: Gateway, left: Option<Release>, ok: bool)
    requires Enabled(g, PruneNext(left, ok))
    ensures var next := PruneStep(g, left, ok);
      && next.disk.current == g.disk.current && next.disk.history == g.disk.history
      && next.main == g.main && next.receipts == g.receipts
      && (g.phase.retained in g.disk.releases ==> g.phase.retained in next.disk.releases)
      && (next.phase.Idle? || next.phase == Pruning(g.phase.m, g.phase.retained, g.phase.todo[1..]))
      && (next.phase.Pruning? ==> forall name :: name in next.disk.releases ==> name in g.disk.releases)
      && (next.phase.Pruning? && IsSha(g.phase.todo[0]) && g.phase.todo[0] != g.phase.retained ==>
            g.phase.todo[0] !in next.disk.releases)
  {
  }

  lemma SameSoundness(before: Disk, after: Disk)
    requires Sound(before) && after.current == before.current && after.history == before.history
    requires Current(before).value.sourceSha in after.releases
    ensures Sound(after) && Current(after) == Current(before)
  {
  }

  lemma PruneKeepsInv(g: Gateway, left: Option<Release>, ok: bool)
    requires Inv(g) && Enabled(g, PruneNext(left, ok))
    ensures Inv(PruneStep(g, left, ok))
  {
    PruneFrame(g, left, ok);
    PrunedKeepsInv(g, PruneStep(g, left, ok));
  }

  lemma PrunedKeepsInv(g: Gateway, next: Gateway)
    requires Inv(g) && g.phase.Pruning? && g.phase.todo != []
    requires next.disk.current == g.disk.current && next.disk.history == g.disk.history && next.main == g.main
    requires g.phase.retained in g.disk.releases ==> g.phase.retained in next.disk.releases
    requires next.phase.Idle? || next.phase == Pruning(g.phase.m, g.phase.retained, g.phase.todo[1..])
    requires next.phase.Pruning? ==> forall name :: name in next.disk.releases ==> name in g.disk.releases
    requires next.phase.Pruning? && IsSha(g.phase.todo[0]) && g.phase.todo[0] != g.phase.retained ==>
      g.phase.todo[0] !in next.disk.releases
    ensures Inv(next)
  {
    SameSoundness(g.disk, next.disk);
    if next.phase.Pruning? { PruneKeepsTodo(g, next); }
  }

  lemma PruneKeepsTodo(g: Gateway, next: Gateway)
    requires PhaseOk(g) && g.phase.Pruning? && g.phase.todo != []
    requires next.phase == Pruning(g.phase.m, g.phase.retained, g.phase.todo[1..]) && next.main == g.main
    requires Current(next.disk) == Current(g.disk)
    requires forall name :: name in next.disk.releases ==> name in g.disk.releases
    requires IsSha(g.phase.todo[0]) && g.phase.todo[0] != g.phase.retained ==> g.phase.todo[0] !in next.disk.releases
    ensures PhaseOk(next)
  {
    forall name | name in next.disk.releases && IsSha(name)
      ensures name == g.phase.m.sourceSha || name in next.phase.todo
    {
      assert g.phase.todo == [g.phase.todo[0]] + g.phase.todo[1..];
    }
  }

  lemma ReadKeepsInv(g: Gateway)
    requires Inv(g) && Enabled(g, ReadCurrent)
    ensures Inv(Step(g, ReadCurrent))
  {
  }

  lemma StepKeepsInv(g: Gateway, event: Event)
    requires Inv(g) && Enabled(g, event)
    ensures Inv(Step(g, event))
  {
    match event {
      case ReadCurrent => ReadKeepsInv(g);
      case Checkout(added, ok) => CheckoutKeepsInv(g, added, ok);
      case Diagnose(ok) => DiagnoseKeepsInv(g, ok);
      case Record => RecordKeepsInv(g);
      case Install => InstallKeepsInv(g);
      case ListReleases(order) => ListKeepsInv(g, order);
      case PruneNext(left, ok) => PruneKeepsInv(g, left, ok);
      case _ =>
    }
  }

  // ---------------------------------------------------------------- runs

  ghost predicate IsStep(g: Gateway, event: Event, next: Gateway) {
    Enabled(g, event) && next == Step(g, event)
  }

  // A run of locked deploys from a sound disk, as a completed bootstrap leaves it.
  ghost predicate IsRun(states: seq<Gateway>, events: seq<Event>) {
    && |states| == |events| + 1
    && Sound(states[0].disk) && states[0].phase.Idle?
    && (forall i {:trigger events[i]} :: 0 <= i < |events| ==> IsStep(states[i], events[i], states[i + 1]))
  }

  lemma {:induction false} RunKeepsInv(states: seq<Gateway>, events: seq<Event>, i: nat)
    requires IsRun(states, events) && i < |states|
    ensures Inv(states[i])
  {
    if i > 0 {
      RunKeepsInv(states, events, i - 1);
      StepKeepsInv(states[i - 1], events[i - 1]);
    }
  }

  // At every moment of every run, whatever failed or died in between, the recorded
  // production state can be read, its release is checked out and its deployment recorded.
  lemma ProductionStaysSound(states: seq<Gateway>, events: seq<Event>, i: nat)
    requires IsRun(states, events) && i < |states|
    ensures Sound(states[i].disk)
  {
    RunKeepsInv(states, events, i);
  }

  // What a single step leaves alone.
  lemma StepFrame(g: Gateway, event: Event)
    requires Enabled(g, event)
    ensures !event.Install? ==> Step(g, event).disk.current == g.disk.current
    ensures event != PruneDone(true) ==> Step(g, event).receipts == g.receipts
    ensures event == PruneDone(true) ==>
      Step(g, event) == g.(phase := Idle, receipts := g.receipts + [g.phase.m.sourceSha])
    ensures event == Install ==> Step(g, event).disk == g.disk.(current := Some(ToJson(g.phase.m)))
    ensures event == Apply(false) ==> Step(g, event).phase.Failed?
    ensures g.phase.Failed? ==> Step(g, event).phase.Idle? && !event.Install?
    ensures g.phase.Idle? && !event.Request? ==> Step(g, event).phase.Idle? && !event.Install?
  {
    match event {
      case PruneNext(left, ok) => PruneFrame(g, left, ok);
      case _ =>
    }
  }

  // The production state moves only where it is installed, and then to the validated request
  // for the commit that was fetched as main in the same locked run.
  lemma OnlyInstallMoves(states: seq<Gateway>, events: seq<Event>, i: nat)
    requires IsRun(states, events) && i < |events|
    ensures !events[i].Install? ==> states[i + 1].disk.current == states[i].disk.current
    ensures events[i].Install? ==>
      && states[i].phase.Recorded?
      && var m := states[i].phase.m;
         && Deployable(m) && states[i].main == Some(m.sourceSha) && Shows(states[i + 1].disk, m)
         && m.sourceSha in states[i].disk.releases && HasRecord(states[i].disk, m.sourceSha)
  {
    RunKeepsInv(states, events, i);
    StepFrame(states[i], events[i]);
    if events[i].Install? { InstallShows(states[i].disk, states[i].phase.m); }
  }

  lemma InstallShows(disk: Disk, m: Manifest)
    requires Deployable(m)
    ensures Shows(disk.(current := Some(ToJson(m))), m)
  {
    StoredManifestReadsBack(m);
  }

  lemma {:induction false} NoInstallNoMove(states: seq<Gateway>, events: seq<Event>, i: nat, j: nat)
    requires IsRun(states, events) && i <= j < |states|
    requires forall k :: i <= k < j ==> !events[k].Install?
    ensures states[j].disk.current == states[i].disk.current
    decreases j
  {
    if i < j {
      NoInstallNoMove(states, events, i, j - 1);
      OnlyInstallMoves(states, events, j - 1);
    }
  }

  // The failing part of a deploy: once the apply has failed, nothing is installed until
  // another request has been accepted, so production stays what it was.
  lemma {:induction false} FailedApplyChangesNothing(states: seq<Gateway>, events: seq<Event>, i: nat, j: nat)
    requires IsRun(states, events) && i < j < |states|
    requires events[i] == Apply(false)
    requires forall k :: i < k < j ==> !events[k].Request?
    ensures states[j].disk.current == states[i].disk.current
    ensures states[j].phase.Failed? || states[j].phase.Idle?
    decreases j
  {
    if j == i + 1 {
      StepFrame(states[i], events[i]);
    } else {
      FailedApplyChangesNothing(states, events, i, j - 1);
      FailureStays(states[j - 1], events[j - 1]);
    }
  }

  lemma FailureStays(g: Gateway, event: Event)
    requires Enabled(g, event) && !event.Request? && (g.phase.Failed? || g.phase.Idle?)
    ensures var next := Step(g, event);
      next.disk.current == g.disk.current && (next.phase.Failed? || next.phase.Idle?)
  {
    StepFrame(g, event);
  }

  // A deploy that answers its caller leaves production at the commit it fetched as main, and
  // that commit is the only release left under a commit name.
  lemma ReceiptMeansDeployed(states: seq<Gateway>, events: seq<Event>, i: nat)
    requires IsRun(states, events) && i < |events| && states[i + 1].receipts != states[i].receipts
    ensures events[i] == PruneDone(true) && states[i].phase.Pruning?
    ensures var sha := states[i].phase.m.sourceSha;
      && states[i + 1].receipts == states[i].receipts + [sha]
      && states[i + 1].main == Some(sha)
      && Shows(states[i + 1].disk, states[i].phase.m)
      && sha in states[i + 1].disk.releases && OnlyRelease(states[i + 1].disk, sha)
  {
    RunKeepsInv(states, events, i);
    StepFrame(states[i], events[i]);
  }

  // ---------------------------------------------------------------- torn installs

  // The history record of the current deployment is the current deployment itself.
  ghost predicate Settled(disk: Disk)
    requires Current(disk).Ok?
  {
    var current := Current(disk).value;
    current.bootstrap || (current.sourceSha in disk.history && disk.history[current.sourceSha] == disk.current.value)
  }

  // The history of the deployed commit is about to be written for other images.
  ghost predicate Redeploys(g: Gateway, event: Event) {
    && event.Record? && g.phase.Applied?
    && Current(g.disk).Ok? && !Current(g.disk).value.bootstrap
    && Current(g.disk).value.sourceSha == g.phase.m.sourceSha
  }

  // A redeployment of the current commit wrote its history and nothing was installed since.
  ghost predicate LeftOpen(states: seq<Gateway>, events: seq<Event>, i: nat)
    requires i <= |events| < |states|
  {
    i > 0 && !events[i - 1].Install?
    && (Redeploys(states[i - 1], events[i - 1]) || LeftOpen(states, events, i - 1))
  }

  lemma StepSettles(g: Gateway, event: Event)
    requires Inv(g) && Enabled(g, event)
    ensures Current(Step(g, event).disk).Ok?
    ensures Settled(Step(g, event).disk) <==> event.Install? || (Settled(g.disk) && !Redeploys(g, event))
  {
    match event {
      case Record => RecordSettles(g);
      case Install => InstalledIsSettled(g.disk, g.phase.m);
      case Diagnose(ok) => DiagnoseSettles(g, ok);
      case _ => OthersSettle(g, event);
    }
  }

  lemma OthersSettle(g: Gateway, event: Event)
    requires Current(g.disk).Ok? && Enabled(g, event)
    requires !event.Record? && !event.Install? && !event.Diagnose?
    ensures Current(Step(g, event).disk) == Current(g.disk)
    ensures Settled(Step(g, event).disk) <==> Settled(g.disk)
  {
    HistoryFrame(g, event);
  }

  lemma RecordSettles(g: Gateway)
    requires Inv(g) && Enabled(g, Record)
    ensures Current(Step(g, Record).disk) == Current(g.disk)
    ensures Settled(Step(g, Record).disk) <==> Settled(g.disk) && !Redeploys(g, Record)
  {
    StoredManifestReadsBack(g.phase.m);
  }

  lemma InstalledIsSettled(disk: Disk, m: Manifest)
    requires Deployable(m) && m.sourceSha in disk.history && disk.history[m.sourceSha] == ToJson(m)
    ensures var next := disk.(current := Some(ToJson(m))); Current(next).Ok? && Settled(next)
  {
    InstallShows(disk, m);
  }

  lemma DiagnoseSettles(g: Gateway, ok: bool)
    requires Inv(g) && Enabled(g, Diagnose(ok))
    ensures Current(Step(g, Diagnose(ok)).disk) == Current(g.disk)
    ensures Settled(Step(g, Diagnose(ok)).disk) <==> Settled(g.disk)
  {
    DiagnosticsAreNoRecord(g.phase.m.sourceSha);
    SoundIsSha(g.disk);
  }

  lemma HistoryFrame(g: Gateway, event: Event)
    requires Enabled(g, event) && !event.Record? && !event.Install? && !event.Diagnose?
    ensures var next := Step(g, event);
      next.disk.current == g.disk.current && next.disk.history == g.disk.history
  {
    match event {
      case PruneNext(left, ok) => PruneFrame(g, left, ok);
      case _ =>
    }
  }

  // Over every run that starts with the two in agreement, whatever failed or died in between:
  // history and production disagree exactly from the history write of a redeployed commit to
  // the next install.
  lemma {:induction false} HistoryAgreesIff(states: seq<Gateway>, events: seq<Event>, i: nat)
    requires IsRun(states, events) && i < |states| && Settled(states[0].disk)
    ensures Current(states[i].disk).Ok?
    ensures Settled(states[i].disk) <==> !LeftOpen(states, events, i)
  {
    if i > 0 {
      HistoryAgreesIff(states, events, i - 1);
      RunKeepsInv(states, events, i - 1);
      StepSettles(states[i - 1], events[i - 1]);
    }
  }

  // A crash therefore leaves the two apart exactly when it, or one before it, came between the
  // two writes of such a redeployment.
  lemma CrashLeavesApartIffTorn(states: seq<Gateway>, events: seq<Event>, i: nat)
    requires IsRun(states, events) && i < |events| && events[i].Crash? && Settled(states[0].disk)
    ensures Current(states[i + 1].disk).Ok?
    ensures Settled(states[i + 1].disk) <==> !LeftOpen(states, events, i)
  {
    HistoryAgreesIff(states, events, i);
    StepFrame(states[i], events[i]);
    HistoryFrame(states[i], events[i]);
  }

  // The four services of one commit, each pinned to the digest that repeats `digit`.
  function Pinned(digit: char): Manifest {
    Manifest(seq(40, _ => 'a'), "1",
      map service | service in SERVICES :: ExpectedRepository(service) + "@" + "sha256:" + seq(64, _ => digit), false)
  }

  lemma PinnedIsDeployable(digit: char)
    requires IsLowerHex(digit)
    ensures Deployable(Pinned(digit))
  {
    forall service | service in SERVICES ensures AllowedImage(service, Pinned(digit).images[service]) {
      var repository := ExpectedRepository(service);
      var digest := "sha256:" + seq(64, _ => digit);
      assert Pinned(digit).images[service] == repository + "@" + digest;
      assert (repository + "@" + digest)[|repository| + 1..] == digest;
      assert digest[..7] == "sha256:";
    }
  }

  lemma PinnedDiffer(a: char, b: char)
    requires a != b
    ensures Pinned(a).images != Pinned(b).images
  {
    var service := "web";
    var x, y := Pinned(a).images[service], Pinned(b).images[service];
    assert x[|ExpectedRepository(service)| + 8] == a && y[|ExpectedRepository(service)| + 8] == b;
  }

  // A gateway on which `m` is deployed.
  function Deployed(m: Manifest): Gateway {
    Gateway(
      Disk(Some(ToJson(m)), map[m.sourceSha := ToJson(m)], map[m.sourceSha := Worktree(Some(m.sourceSha))]),
      Idle, None, [])
  }

  lemma DeployedIsSettled(m: Manifest)
    requires Deployable(m)
    ensures Sound(Deployed(m).disk) && Settled(Deployed(m).disk) && Shows(Deployed(m).disk, m)
  {
    StoredManifestReadsBack(m);
  }

  // `n` is another deployment of the commit that is current, whose release stands.
  ghost predicate CanTear(g: Gateway, n: Manifest) {
    && g.phase.Idle? && Sound(g.disk) && Deployable(n)
    && !Current(g.disk).value.bootstrap && Current(g.disk).value.sourceSha == n.sourceSha
    && Current(g.disk).value.images != n.images
    && n.sourceSha in g.disk.releases && g.disk.releases[n.sourceSha] == Worktree(Some(n.sourceSha))
  }

  // A checkout in which `git worktree add` would succeed if it had to run.
  function Adds(n: Manifest): Event { Checkout(Some(Worktree(Some(n.sourceSha))), true) }

  // The steps of a deploy of `n`, killed between its two writes.
  function TornEvents(n: Manifest): seq<Event> {
    [Request(n), FetchMain(Some(n.sourceSha)), ReadCurrent, Adds(n), Apply(true), Record, Crash]
  }

  ghost predicate RunsTo(g: Gateway, events: seq<Event>, next: Gateway) {
    exists states :: IsRun(states, events) && states[0] == g && states[|events|] == next
  }

  lemma StartRun(g: Gateway)
    requires Sound(g.disk) && g.phase.Idle?
    ensures RunsTo(g, [], g)
  {
    assert IsRun([g], []);
  }

  lemma ExtendRun(g: Gateway, events: seq<Event>, last: Gateway, event: Event, next: Gateway)
    requires RunsTo(g, events, last) && IsStep(last, event, next)
    ensures RunsTo(g, events + [event], next)
  {
    var states :| IsRun(states, events) && states[0] == g && states[|events|] == last;
    assert IsRun(states + [next], events + [event]);
  }

  function During(g: Gateway, n: Manifest, phase: Phase): Gateway {
    g.(main := Some(n.sourceSha), phase := phase)
  }

  lemma TornRequest(g: Gateway, n: Manifest)
    requires CanTear(g, n)
    ensures RunsTo(g, [Request(n)], g.(phase := Requested(n)))
  {
    StartRun(g);
    ExtendRun(g, [], g, Request(n), g.(phase := Requested(n)));
    assert [] + [Request(n)] == [Request(n)];
  }

  lemma TornFetch(g: Gateway, n: Manifest, events: seq<Event>)
    requires RunsTo(g, events, g.(phase := Requested(n)))
    ensures RunsTo(g, events + [FetchMain(Some(n.sourceSha))], During(g, n, Fetched(n)))
  {
    ExtendRun(g, events, g.(phase := Requested(n)), FetchMain(Some(n.sourceSha)), During(g, n, Fetched(n)));
  }

  lemma TornRead(g: Gateway, n: Manifest, events: seq<Event>)
    requires Current(g.disk).Ok? && Current(g.disk).value.images != n.images
    requires RunsTo(g, events, During(g, n, Fetched(n)))
    ensures RunsTo(g, events + [ReadCurrent], During(g, n, Checked(n, false)))
  {
    ExtendRun(g, events, During(g, n, Fetched(n)), ReadCurrent, During(g, n, Checked(n, false)));
  }

  lemma TornCheckout(g: Gateway, n: Manifest, events: seq<Event>)
    requires n.sourceSha in g.disk.releases && g.disk.releases[n.sourceSha] == Worktree(Some(n.sourceSha))
    requires RunsTo(g, events, During(g, n, Checked(n, false)))
    ensures RunsTo(g, events + [Adds(n)], During(g, n, CheckedOut(n, false)))
  {
    ExtendRun(g, events, During(g, n, Checked(n, false)), Adds(n), During(g, n, CheckedOut(n, false)));
  }

  lemma TornApply(g: Gateway, n: Manifest, events: seq<Event>)
    requires RunsTo(g, events, During(g, n, CheckedOut(n, false)))
    ensures RunsTo(g, events + [Apply(true)], During(g, n, Applied(n, false)))
  {
    ExtendRun(g, events, During(g, n, CheckedOut(n, false)), Apply(true), During(g, n, Applied(n, false)));
  }

  lemma TornWrite(g: Gateway, n: Manifest, events: seq<Event>) returns (after: Gateway)
    requires RunsTo(g, events, During(g, n, Applied(n, false)))
    ensures RunsTo(g, events + [Record] + [Crash], after)
    ensures after.disk == Step(During(g, n, Applied(n, false)), Record).disk
  {
    var recorded := Step(During(g, n, Applied(n, false)), Record);
    after := Step(recorded, Crash);
    ExtendRun(g, events, During(g, n, Applied(n, false)), Record, recorded);
    ExtendRun(g, events + [Record], recorded, Crash, after);
  }

  lemma TornStarts(g: Gateway, n: Manifest)
    requires CanTear(g, n)
    ensures RunsTo(g, TornEvents(n)[..2], During(g, n, Fetched(n)))
  {
    TornRequest(g, n);
    TornFetch(g, n, [Request(n)]);
    assert TornEvents(n)[..2] == [Request(n)] + [FetchMain(Some(n.sourceSha))];
  }

  lemma TornChecks(g: Gateway, n: Manifest)
    requires CanTear(g, n)
    ensures RunsTo(g, TornEvents(n)[..3], During(g, n, Checked(n, false)))
  {
    TornStarts(g, n);
    TornRead(g, n, TornEvents(n)[..2]);
    assert TornEvents(n)[..3] == TornEvents(n)[..2] + [ReadCurrent];
  }

  lemma TornChecksOut(g: Gateway, n: Manifest)
    requires CanTear(g, n)
    ensures RunsTo(g, TornEvents(n)[..4], During(g, n, CheckedOut(n, false)))
  {
    TornChecks(g, n);
    TornCheckout(g, n, TornEvents(n)[..3]);
    assert TornEvents(n)[..4] == TornEvents(n)[..3] + [Adds(n)];
  }

  lemma TornApplies(g: Gateway, n: Manifest)
    requires CanTear(g, n)
    ensures RunsTo(g, TornEvents(n)[..5], During(g, n, Applied(n, false)))
  {
    TornChecksOut(g, n);
    TornApply(g, n, TornEvents(n)[..4]);
    assert TornEvents(n)[..5] == TornEvents(n)[..4] + [Apply(true)];
  }

  // A deploy of the current commit with other images, killed between its two writes, leaves
  // history and production apart.
  lemma TornDeploy(g: Gateway, n: Manifest) returns (after: Gateway)
    requires CanTear(g, n) && Settled(g.disk)
    ensures RunsTo(g, TornEvents(n), after)
    ensures Current(after.disk).Ok? && !Settled(after.disk)
  {
    TornApplies(g, n);
    after := TornWrite(g, n, TornEvents(n)[..5]);
    assert TornEvents(n)[..5] + [Record] + [Crash] == TornEvents(n);
    TornRecord(g, n, During(g, n, Applied(n, false)));
  }

  lemma TornRecord(g: Gateway, n: Manifest, applied: Gateway)
    requires CanTear(g, n) && Settled(g.disk)
    requires applied == During(g, n, Applied(n, false))
    ensures Current(Step(applied, Record).disk).Ok? && !Settled(Step(applied, Record).disk)
  {
    assert Inv(applied);
    StepSettles(applied, Record);
  }

  // There is such a gateway and such a deployment.
  lemma TornDeployExists()
    ensures CanTear(Deployed(Pinned('a')), Pinned('b')) && Settled(Deployed(Pinned('a')).disk)
  {
    PinnedIsDeployable('a');
    PinnedIsDeployable('b');
    PinnedDiffer('a', 'b');
    DeployedIsSettled(Pinned('a'));
  }
}
