// What a deploy step may touch: which history entry, which release, and that what is installed
// is checked out at its own commit.
module DeployReleases {
  import opened Options
  import opened DeployManifest
  import opened DeployMachine

  // History is written for the deployed commit and, after a failed apply, for its diagnostics.
  lemma HistoryMoves(g: Gateway, event: Event)
    requires Enabled(g, event)
    ensures var before, after := g.disk.history, Step(g, event).disk.history;
      match event
      case Record => after == before[g.phase.m.sourceSha := ToJson(g.phase.m)]
      case Diagnose(ok) => after == if ok then before["failed-runtime-" + g.phase.m.sourceSha := Null] else before
      case _ => after == before
  {
  }

  // A release appears or disappears in two ways only: `git worktree add` for a commit that has
  // none, and pruning of a worktree that stands at its own commit and is not the retained one.
  lemma ReleaseMoves(g: Gateway, event: Event, name: string)
    requires Enabled(g, event)
    requires Lookup(Step(g, event).disk.releases, name) != Lookup(g.disk.releases, name)
    ensures event.Checkout? || event.PruneNext?
    ensures event.Checkout? ==> name == g.phase.m.sourceSha && name !in g.disk.releases
    ensures event.PruneNext? ==>
      && name == g.phase.todo[0] && name != g.phase.retained && IsSha(name)
      && Lookup(g.disk.releases, name) == Some(Worktree(Some(name)))
  {
    match event {
      case Checkout(added, ok) => CheckoutMoves(g, added, ok, name);
      case PruneNext(left, ok) => PruneMoves(g, left, ok, name);
      case _ =>
    }
  }

  lemma CheckoutMoves(g: Gateway, added: Option<Release>, ok: bool, name: string)
    requires g.phase.Checked?
    requires Lookup(CheckoutStep(g, added, ok).disk.releases, name) != Lookup(g.disk.releases, name)
    ensures name == g.phase.m.sourceSha && name !in g.disk.releases
  {
  }

  lemma PruneMoves(g: Gateway, left: Option<Release>, ok: bool, name: string)
    requires g.phase.Pruning? && g.phase.todo != []
    requires Lookup(PruneStep(g, left, ok).disk.releases, name) != Lookup(g.disk.releases, name)
    ensures name == g.phase.todo[0] && name != g.phase.retained && IsSha(name)
    ensures Lookup(g.disk.releases, name) == Some(Worktree(Some(name)))
  {
  }

  // From its checkout on, the release of the deployed commit stands at that commit.
  ghost predicate AtCommit(g: Gateway) {
    g.phase.CheckedOut? || g.phase.Applied? || g.phase.Recorded? || g.phase.Installed? || g.phase.Pruning? ==>
      Lookup(g.disk.releases, g.phase.m.sourceSha) == Some(Worktree(Some(g.phase.m.sourceSha)))
  }

  lemma CheckoutIsAtCommit(g: Gateway, added: Option<Release>, ok: bool)
    requires Enabled(g, Checkout(added, ok))
    ensures AtCommit(CheckoutStep(g, added, ok))
  {
  }

  lemma PruneStaysAtCommit(g: Gateway, left: Option<Release>, ok: bool)
    requires Enabled(g, PruneNext(left, ok)) && AtCommit(g) && g.phase.retained == g.phase.m.sourceSha
    ensures AtCommit(PruneStep(g, left, ok))
  {
    PruneFrame(g, left, ok);
    var name := g.phase.m.sourceSha;
    if Lookup(PruneStep(g, left, ok).disk.releases, name) != Lookup(g.disk.releases, name) {
      PruneMoves(g, left, ok, name);
    }
  }

  lemma OthersStayAtCommit(g: Gateway, event: Event)
    requires Enabled(g, event) && AtCommit(g) && !event.Checkout? && !event.PruneNext?
    ensures AtCommit(Step(g, event))
  {
  }

  lemma StepStaysAtCommit(g: Gateway, event: Event, next: Gateway)
    requires PhaseOk(g) && IsStep(g, event, next) && AtCommit(g)
    ensures AtCommit(next)
  {
    match event {
      case Checkout(added, ok) => CheckoutIsAtCommit(g, added, ok);
      case PruneNext(left, ok) => PruneStaysAtCommit(g, left, ok);
      case _ => OthersStayAtCommit(g, event);
    }
  }

  lemma RunStep(states: seq<Gateway>, events: seq<Event>, i: nat)
    requires IsRun(states, events) && i < |events|
    ensures PhaseOk(states[i]) && IsStep(states[i], events[i], states[i + 1])
  {
    RunKeepsInv(states, events, i);
  }

  lemma NextStaysAtCommit(states: seq<Gateway>, events: seq<Event>, i: nat)
    requires IsRun(states, events) && i < |events| && AtCommit(states[i])
    ensures AtCommit(states[i + 1])
  {
    RunStep(states, events, i);
    StepStaysAtCommit(states[i], events[i], states[i + 1]);
  }

  lemma {:induction false} RunStaysAtCommit(states: seq<Gateway>, events: seq<Event>, i: nat)
    requires IsRun(states, events) && i < |states|
    ensures AtCommit(states[i])
  {
    if i > 0 {
      RunStaysAtCommit(states, events, i - 1);
      NextStaysAtCommit(states, events, i - 1);
    }
  }

  // Over every run: what is installed, and what a receipt is given for, is checked out at its
  // own commit, not merely under its name.
  lemma DeployedReleaseIsItsCommit(states: seq<Gateway>, events: seq<Event>, i: nat)
    requires IsRun(states, events) && i < |events|
    requires events[i] == Install || events[i] == PruneDone(true)
    ensures states[i].phase.Recorded? || states[i].phase.Pruning?
    ensures Lookup(states[i + 1].disk.releases, states[i].phase.m.sourceSha)
         == Some(Worktree(Some(states[i].phase.m.sourceSha)))
  {
    RunStaysAtCommit(states, events, i);
    assert IsStep(states[i], events[i], states[i + 1]);
  }

  // A deploy goes on only for the commit that was fetched as main; an unreadable or missing
  // current.json, a failed command or a release at another commit ends it.
  lemma DeployGoesOnIff(g: Gateway, event: Event)
    requires Enabled(g, event)
    ensures var next := Step(g, event).phase;
      match event
      case Request(m) => next == Requested(m)
      case FetchMain(main) => next.Fetched? <==> main == Some(g.phase.m.sourceSha)
      case ReadCurrent => next.Checked? <==> ValidateStoredManifest(g.disk.current.GetOr(Null)).Ok?
      case Checkout(_, ok) =>
        next.CheckedOut? <==>
          if g.phase.m.sourceSha in g.disk.releases
          then g.disk.releases[g.phase.m.sourceSha] == Worktree(Some(g.phase.m.sourceSha))
          else ok
      case Apply(ok) => next.Applied? <==> ok
      case Record => next.Recorded?
      case Install => next.Installed?
      case Diagnose(_) => next.Idle?
      case ListReleases(_) => next.Pruning? <==> ValidateStoredManifest(g.disk.current.GetOr(Null)).Ok?
      case PruneNext(_, ok) =>
        var name := g.phase.todo[0];
        next.Pruning? <==>
          !IsSha(name) || name == g.phase.retained || name !in g.disk.releases
          || (g.disk.releases[name] == Worktree(Some(name)) && ok)
      case PruneDone(_) => next.Idle?
      case Crash => next.Idle?
  {
  }
}
