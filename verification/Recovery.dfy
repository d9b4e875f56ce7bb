/** Whole runs: a deployment interrupted anywhere, and recovery interrupted any
    number of times. */
module Recovery {
  import opened Wrappers
  import opened Disk
  import opened Operations
  import opened Environment
  import opened Journal
  import opened Transaction

  /** What one attempt at recovery refuses: a companion that is not private, a
      torn intent behind a rollback, a rotation caught in its window, a
      publication left unfinished, or an earlier refusal on record. */
  ghost predicate Blocked(j: Journal, e: EnvState, companion: Path) {
    !CompanionPrivate(j.tree, companion) || Stranded(j) || j.phase.RollbackFailed?
    || (!IsRolledBack(j.phase) && (RotationWindow(j) || UnfinishedPublication(j, e)))
  }

  /** What a refusal leaves behind: its record, a companion that is not private,
      or a manifest that nothing repairs. */
  ghost predicate Refused(j: Journal, companion: Path) {
    j.phase == RollbackFailed || !CompanionPrivate(j.tree, companion) || Stranded(j)
  }

  predicate SameFile(f: Option<Node>, g: Option<Node>) {
    match f
    case None => g.None?
    case Some(n) => IsFile(g, None, EnvContent(n.digest, n.auth))
  }

  /** The managed tree and the environment file are what they were. */
  ghost predicate GivenBack(j: Journal, e: EnvState, tree: Tree, env: Option<Node>, companion: Path) {
    Outside(j.tree, companion) == Outside(tree, companion) && SameFile(env, e.env) && Quiet(e)
  }

  /** Every recorded operation is on record as undone. */
  predicate AllOnRecord(j: Journal) {
    forall i | 0 <= i < |j.ops| :: i in j.rollbackDone
  }

  lemma RolledBackMeans(
    steps: Steps, j: Journal, e: EnvState, tree: Tree, env: Option<Node>, companion: Path, valid: Validator)
    requires Fits(steps, tree, env, companion, valid) && (env.Some? ==> env.value.kind == Regular)
    requires PartlyStaged(tree, j.base, steps.staged) && j.ops <= PlannedOperations(steps) && j.envBase == env
    requires RolledBack(j, e)
    ensures GivenBack(j, e, tree, env, companion) && AllOnRecord(j)
    ensures CompanionPrivate(tree, companion) ==> CompanionPrivate(j.tree, companion)
  {
    var k :| 0 <= k <= |steps.staged| && j.base == WithStaged(tree, steps.staged[..k]);
    StagingStaysInside(tree, steps.staged[..k], companion);
    if i: nat :| i < |j.ops| && j.ops[i].EnvReplace? {
      assert j.ops[i] == PlannedOperations(steps)[i];
      OnlyReplacement(steps, j.ops[i]);
    }
  }

  lemma OnlyReplacement(steps: Steps, op: Operation)
    requires OnlyTree(steps) && op in PlannedOperations(steps) && op.EnvReplace?
    ensures steps.environment == Some(op.change)
  {
  }

  lemma PlainPrefix(steps: Steps, j: Journal, tree: Tree, companion: Path)
    requires forall k :: 0 <= k < |steps.staged| ==> StagedInto(steps.staged[k], companion)
    requires PlainPlan(PlannedOperations(steps), tree, companion)
    requires PartlyStaged(tree, j.base, steps.staged) && j.ops <= PlannedOperations(steps)
    ensures PlainPlan(j.ops, j.base, companion)
  {
    var k :| 0 <= k <= |steps.staged| && j.base == WithStaged(tree, steps.staged[..k]);
    StagingStaysInside(tree, steps.staged[..k], companion);
    var all := PlannedOperations(steps);
    forall i, l | 0 <= i < |j.ops| && 0 <= l < |j.ops|
      ensures !Paired(j.ops, i, l)
    {
      assert !Paired(all, i, l);
    }
  }

  /** One attempt at recovery, as after every restart: exactly what is blocked is
      refused, and a refusal changes no file. */
  method RecoverOnce(journal: TransactionJournal, valid: Validator) returns (r: Outcome)
    requires journal.Wired() && Recoverable(journal.Now(), journal.env.State(), valid)
    modifies journal`phase, journal`manifest, journal`envBackup, journal`tree, journal`executed,
             journal`rollbackDone, journal`rollbackIntents, journal.env, journal.power
    ensures Recoverable(journal.Now(), journal.env.State(), valid)
    ensures old(journal.power.left) == None ==> journal.power.left == None && !r.Crash?
    ensures r.Pass? ==> RolledBack(journal.Now(), journal.env.State()) && IsRolledBack(journal.phase)
    ensures !r.Crash? ==> (r.Conflict? <==> old(Blocked(journal.Now(), journal.env.State(), journal.companion)))
    ensures r.Conflict? ==> journal.tree == old(journal.tree) && journal.env.env == old(journal.env.env)
                            && Refused(journal.Now(), journal.companion)
    ensures Stranded(journal.Now()) == old(Stranded(journal.Now()))
    ensures (old(journal.phase) == RollbackFailed ==> journal.phase == RollbackFailed)
            && (r.Crash? && journal.phase == RollbackFailed ==> old(journal.phase) == RollbackFailed)
    ensures UnfinishedPublication(journal.Now(), journal.env.State())
            == old(UnfinishedPublication(journal.Now(), journal.env.State()))
  {
    hide Undoing, RolledBack, CompanionPrivate, ManifestOf, UnfinishedCandidate, Stranded;
    StrandedIsTorn(journal.Now());
    r := journal.Reopen(valid);
    if r.Pass? {
      StrandedIsTorn(journal.Now());
      r := journal.ResumeRollback(valid);
      StrandedIsTorn(journal.Now());
    }
  }

  lemma StrandedIsTorn(j: Journal)
    ensures Stranded(j) ==> !ManifestExact(j)
  {
  }

  /** Recovery interrupted after any numbers of steps, and once left alone. */
  method RecoverThroughCrashes(journal: TransactionJournal, interruptions: seq<nat>, valid: Validator)
    returns (r: Outcome)
    requires journal.Wired() && Recoverable(journal.Now(), journal.env.State(), valid)
    modifies journal`phase, journal`manifest, journal`envBackup, journal`tree, journal`executed,
             journal`rollbackDone, journal`rollbackIntents, journal.env, journal.power
    ensures Recoverable(journal.Now(), journal.env.State(), valid)
    // Everything given back, or refused.  What is refused is where the run left
    // it: its tree is the starting one exactly if nothing of it is left to undo.
    ensures if r.Pass? then RolledBack(journal.Now(), journal.env.State()) && IsRolledBack(journal.phase)
            else r.Conflict? && Refused(journal.Now(), journal.companion)
    ensures journal.tree == journal.base <==> TreeUndone(journal.Now())
    // A recorded refusal is never left again.
    ensures old(journal.phase) == RollbackFailed ==> r.Conflict? && journal.phase == RollbackFailed
    // Left alone at once, only what was blocked to begin with is refused.
    ensures interruptions == [] ==>
            (r.Conflict? <==> old(Blocked(journal.Now(), journal.env.State(), journal.companion)))
    // Without rotated secrets, and with private ones, every run ends restored
    // unless a publication was left unfinished or an intent torn for good.
    ensures PlainPlan(journal.ops, journal.base, journal.companion) && old(journal.phase) != RollbackFailed ==>
              (r.Conflict? <==>
                  old(UnfinishedPublication(journal.Now(), journal.env.State()) || Stranded(journal.Now())))
    ensures Stranded(journal.Now()) == old(Stranded(journal.Now())) && (r.Pass? ==> !Stranded(journal.Now()))
    ensures UnfinishedPublication(journal.Now(), journal.env.State())
            == old(UnfinishedPublication(journal.Now(), journal.env.State()))
  {
    hide Recoverable, RolledBack, CompanionPrivate, UnfinishedPublication, PlainPlan, RotationWindow, Stranded,
         TreeUndone;
    ghost var unfinished, stranded := UnfinishedPublication(journal.Now(), journal.env.State()),
        Stranded(journal.Now());
    ghost var plain := PlainPlan(journal.ops, journal.base, journal.companion);
    var k := 0;
    while k < |interruptions|
      invariant 0 <= k <= |interruptions|
      invariant Recoverable(journal.Now(), journal.env.State(), valid)
      invariant UnfinishedPublication(journal.Now(), journal.env.State()) == unfinished
                && Stranded(journal.Now()) == stranded
      invariant old(journal.phase) == RollbackFailed ==> journal.phase == RollbackFailed
      invariant plain && !unfinished && !stranded && old(journal.phase) != RollbackFailed ==>
                journal.phase != RollbackFailed
      invariant k == 0 ==> journal.Now() == old(journal.Now()) && journal.env.State() == old(journal.env.State())
    {
      journal.power.left := Some(interruptions[k]);
      if plain { PlainIsBlockedWhen(journal.Now(), journal.env.State(), journal.companion, valid); }
      r := RecoverOnce(journal, valid);
      if r.Pass? { RolledBackIsNeverFailed(journal.phase); }
      k := k + 1;
    }
    journal.power.left := None;
    if plain { PlainIsBlockedWhen(journal.Now(), journal.env.State(), journal.companion, valid); }
    r := RecoverOnce(journal, valid);
    FoundAgain(journal.Now(), journal.env.State(), valid);
  }

  lemma FoundAgain(j: Journal, e: EnvState, valid: Validator)
    requires Recoverable(j, e, valid)
    ensures j.tree == j.base <==> TreeUndone(j)
  {
    StartingAgain(j, e, valid);
  }

  lemma RolledBackIsNeverFailed(phase: Phase)
    requires IsRolledBack(phase)
    ensures phase != RollbackFailed
  {
  }

  lemma PlainIsBlockedWhen(j: Journal, e: EnvState, companion: Path, valid: Validator)
    requires Recoverable(j, e, valid) && PlainPlan(j.ops, j.base, companion)
    ensures Blocked(j, e, companion) <==> j.phase.RollbackFailed? || UnfinishedPublication(j, e) || Stranded(j)
  {
    UnobstructedMeans(j, e, companion, valid);
  }

  /** The end of a deployment: committed with every planned change in place, or
      rolled back with everything given back, or refused. */
  ghost predicate Ended(
    r: Outcome, steps: Steps, j: Journal, e: EnvState, tree: Tree, env: Option<Node>, companion: Path)
  {
    match r
    case Pass =>
      if IsCommitted(j.phase) then Deployed(steps, j, e) && j.base == WithStaged(tree, steps.staged)
      else
        IsRolledBack(j.phase) && GivenBack(j, e, tree, env, companion) && AllOnRecord(j)
        && (CompanionPrivate(tree, companion) ==> CompanionPrivate(j.tree, companion))
    case Conflict => !IsCommitted(j.phase) && Refused(j, companion)
    case Crash => false
  }

  /** A deployment that fails after any number of steps.  It rolls back at once,
      in the same process and without reopening its journal, until power is lost
      after `handledFor` steps (with 0, power was lost in the forward run); what
      is left then is recovered, interrupted any number of times.  `failed` and
      `left` are where the forward run stopped. */
  method DeployThroughCrashes(
    journal: TransactionJournal, steps: Steps, steadyFor: Option<nat>, handledFor: Option<nat>, interruptions: seq<nat>,
    valid: Validator)
    returns (r: Outcome, ghost failed: Journal, ghost left: EnvState)
    requires journal.Wired() && Untouched(journal.Now(), journal.env.State())
    requires Fits(steps, journal.base, journal.envBase, journal.companion, valid)
    requires journal.envBase.Some? ==> journal.envBase.value.kind == Regular
    modifies journal, journal.env, journal.power
    ensures Ended(r, steps, journal.Now(), journal.env.State(), old(journal.tree), old(journal.env.env),
            journal.companion)
    ensures steadyFor == None ==> journal.phase == Committed
    ensures journal.envBase == old(journal.env.env)
    ensures !IsCommitted(journal.phase) ==> Running(failed, left, valid)
    // Refused or not, what is left is a state of this deployment: its tree is
    // the starting one with the operations applied that count as executed.
    ensures !IsCommitted(journal.phase) ==>
              Recoverable(journal.Now(), journal.env.State(), valid)
              && (journal.tree == journal.base <==> TreeUndone(journal.Now()))
    ensures journal.ops <= PlannedOperations(steps) && PartlyStaged(old(journal.tree), journal.base, steps.staged)
            && (journal.ops != [] ==> journal.base == WithStaged(old(journal.tree), steps.staged))
    // Nothing can open the journal again exactly if the rollback went on record
    // behind a torn intent.
    ensures !IsCommitted(journal.phase) ==> (Stranded(journal.Now()) <==> ManifestTorn(failed) && handledFor != Some(0))
    // Without rotated secrets this, and an unfinished publication, are all that
    // is ever refused.
    ensures !IsCommitted(journal.phase) && PlainPlan(PlannedOperations(steps), old(journal.base), journal.companion) ==>
              (r.Conflict? <==> UnfinishedPublication(failed, left) || (ManifestTorn(failed) && handledFor != Some(0)))
    // Left alone, the rollback in the same process gives everything back,
    // rotated secrets and those that are not private too, or changes nothing.
    ensures !IsCommitted(journal.phase) && handledFor == None ==>
              (r.Pass? <==> ManifestExact(failed) && !UnfinishedPublication(failed, left))
              && (r.Conflict? ==>
                 journal.phase == RollbackFailed && journal.tree == failed.tree && journal.env.env == left.env)
  {
    hide Running, Recoverable, RolledBack, CompanionPrivate, UnfinishedPublication, PlainPlan, RotationWindow, Deployed,
         GivenBack, ManifestExact, ManifestTorn, Stranded, TreeUndone;
    ghost var tree, env := journal.tree, journal.env.env;
    journal.power.left := steadyFor;
    r := journal.Execute(steps, valid);
    failed, left := journal.Now(), journal.env.State();
    if r.Crash? {
      if PlainPlan(PlannedOperations(steps), tree, journal.companion) {
        PlainPrefix(steps, failed, tree, journal.companion);
      }
      r := RollBackAndRecover(journal, handledFor, interruptions, valid);
      FoundAgain(journal.Now(), journal.env.State(), valid);
      RecoverableIsUncommitted(journal.Now(), journal.env.State(), valid);
      if r.Pass? {
        RolledBackMeans(steps, journal.Now(), journal.env.State(), tree, env, journal.companion, valid);
      }
    }
  }

  /** What follows a failure of the forward run. */
  method RollBackAndRecover(
    journal: TransactionJournal, handledFor: Option<nat>, interruptions: seq<nat>, valid: Validator)
    returns (r: Outcome)
    requires journal.Wired() && Running(journal.Now(), journal.env.State(), valid)
    modifies journal`phase, journal`manifest, journal`envBackup, journal`tree, journal`executed,
             journal`rollbackDone, journal`rollbackIntents, journal.env, journal.power
    ensures Recoverable(journal.Now(), journal.env.State(), valid)
    ensures if r.Pass? then RolledBack(journal.Now(), journal.env.State()) && IsRolledBack(journal.phase)
            else r.Conflict? && Refused(journal.Now(), journal.companion)
    ensures Stranded(journal.Now()) <==> old(ManifestTorn(journal.Now())) && handledFor != Some(0)
    ensures PlainPlan(journal.ops, journal.base, journal.companion) ==>
              (r.Conflict? <==> old(UnfinishedPublication(journal.Now(), journal.env.State()))
                                || (old(ManifestTorn(journal.Now())) && handledFor != Some(0)))
    ensures handledFor == None ==>
              (r.Pass? <==>
                  old(ManifestExact(journal.Now()) && !UnfinishedPublication(journal.Now(), journal.env.State())))
              && (r.Conflict? ==>
                 journal.phase == RollbackFailed && journal.tree == old(journal.tree)
                 && journal.env.env == old(journal.env.env))
  {
    hide Running, Undoing, RolledBack, CompanionPrivate, UnfinishedPublication, PlainPlan, RotationWindow,
         ManifestExact, ManifestTorn, Recoverable;
    ghost var j, e := journal.Now(), journal.env.State();
    RunningIs(j, e, valid);
    journal.power.left := handledFor;
    r := journal.ResumeRollback(valid);
    FailingIs(j, journal.Now(), journal.env.State(), valid);
    if r.Crash? {
      r := RecoverThroughCrashes(journal, interruptions, valid);
    }
  }

  lemma RunningIs(j: Journal, e: EnvState, valid: Validator)
    requires Running(j, e, valid)
    ensures Undoing(j, e, valid) && IsForward(j.phase) && !IsCommitted(j.phase) && !IsRolledBack(j.phase)
            && j.phase != RollbackFailed
    ensures (ManifestExact(j) <==> !ManifestTorn(j)) && !RotationWindow(j)
  {
  }

  /** Whatever a rollback leaves in the phases it goes through can be found again. */
  lemma FailingIs(j: Journal, k: Journal, e: EnvState, valid: Validator)
    requires Undoing(k, e, valid) && k.manifest == j.manifest && k.ops == j.ops && (ManifestExact(j) || ManifestTorn(j))
    requires !IsCommitted(k.phase) && (IsRolledBack(k.phase) ==> RolledBack(k, e))
    ensures Recoverable(k, e, valid)
    ensures Stranded(k) <==> ManifestTorn(j) && !IsForward(k.phase)
  {
  }

  lemma RecoverableIsUncommitted(j: Journal, e: EnvState, valid: Validator)
    requires Recoverable(j, e, valid)
    ensures !IsCommitted(j.phase)
  {
  }
}
