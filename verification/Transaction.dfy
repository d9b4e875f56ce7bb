/** A deployment transaction: its forward run, its rollback and its recovery
    after any number of crashes. */
module Transaction {
  import opened Wrappers
  import opened Disk
  import opened Operations
  import opened Environment
  import opened Journal

  /** The operations a preparation plan comes to, by phase, and the new secrets
      it first writes into the companion's staging directory. */
  datatype Steps = Steps(
    staged: seq<StagedFile>, directories: seq<Operation>, backups: seq<Operation>, publications: seq<Operation>,
    permissions: seq<Operation>, environment: Option<EnvChange>)

  datatype StagedFile = StagedFile(path: Path, node: Node)

  function TreeOperations(steps: Steps): seq<Operation> {
    steps.directories + steps.backups + steps.publications + steps.permissions
  }

  function EnvironmentOperation(steps: Steps): seq<Operation> {
    match steps.environment
    case Some(change) => [EnvReplace(change)]
    case None => []
  }

  function PlannedOperations(steps: Steps): seq<Operation> {
    TreeOperations(steps) + EnvironmentOperation(steps)
  }

  predicate OnlyTree(steps: Steps) {
    NoEnvironment(steps.directories) && NoEnvironment(steps.backups)
    && NoEnvironment(steps.publications) && NoEnvironment(steps.permissions)
  }

  ghost function WithStaged(t: Tree, staged: seq<StagedFile>): Tree {
    if staged == [] then t
    else
      var last := staged[|staged| - 1];
      WithStaged(t, staged[..|staged| - 1])[last.path := last.node]
  }

  /** New secrets are private files below the companion. */
  predicate StagedInto(file: StagedFile, companion: Path) {
    Within(file.path, companion) && file.path != [] && file.node.kind == Regular && file.node.auth.mode == PRIVATE_FILE
  }

  lemma StagedIsBelow(file: StagedFile, companion: Path)
    requires StagedInto(file, companion)
    ensures file.path != []
  {
  }

  /** Some of the new secrets have been written, in order. */
  ghost predicate PartlyStaged(before: Tree, after: Tree, staged: seq<StagedFile>) {
    exists k :: 0 <= k <= |staged| && after == WithStaged(before, staged[..k])
  }

  lemma NothingStaged(t: Tree, staged: seq<StagedFile>)
    ensures PartlyStaged(t, t, staged) && WithStaged(t, staged[..0]) == t
  {
    assert staged[..0] == [];
  }

  lemma StagedNext(t: Tree, staged: seq<StagedFile>, k: nat)
    requires k < |staged|
    ensures WithStaged(t, staged[..k + 1]) == WithStaged(t, staged[..k])[staged[k].path := staged[k].node]
    ensures PartlyStaged(t, WithStaged(t, staged[..k]), staged)
            && PartlyStaged(t, WithStaged(t, staged[..k + 1]), staged)
  {
    assert staged[..k + 1][..k] == staged[..k];
  }

  /** Staging touches nothing outside the companion and leaves it private. */
  lemma {:induction false} StagingStaysInside(t: Tree, staged: seq<StagedFile>, companion: Path)
    requires forall k :: 0 <= k < |staged| ==> StagedInto(staged[k], companion)
    ensures Outside(WithStaged(t, staged), companion) == Outside(t, companion)
    ensures CompanionPrivate(t, companion) ==> CompanionPrivate(WithStaged(t, staged), companion)
  {
    if staged != [] {
      StagingStaysInside(t, staged[..|staged| - 1], companion);
    }
  }

  /** What the preparation plan guarantees of its steps, given the tree and the
      environment file it was made for. */
  ghost predicate Fits(steps: Steps, base: Tree, env: Option<Node>, companion: Path, valid: Validator) {
    && (forall k :: 0 <= k < |steps.staged| ==>
          StagedInto(steps.staged[k], companion) && Parent(steps.staged[k].path) in base)
    && Shape(PlannedOperations(steps), WithStaged(base, steps.staged), valid)
    && OnlyTree(steps)
    && (steps.environment.Some? ==> BeforeState(env, steps.environment.value))
  }

  /** Every operation of the steps has run and the environment file is the new one. */
  ghost predicate Deployed(steps: Steps, j: Journal, e: EnvState) {
    && j.ops == PlannedOperations(steps) && j.tree == ApplyAll(j.ops, j.base) && Quiet(e)
    && match steps.environment
       case Some(change) => IsFile(e.env, None, change.after)
       case None => e.env == j.envBase
  }

  /** The journal as its creation leaves it. */
  ghost predicate Untouched(j: Journal, e: EnvState) {
    && j == Journal(Planned, [], {}, [], {}, {}, EnvBackup(true, None, None), j.base, j.base, e.env, {})
    && Valid(e) && Quiet(e) && ParentClosed(j.base)
  }

  /** A state between two operations of the plan. */
  ghost predicate Between(j: Journal, e: EnvState, valid: Validator) {
    Running(j, e, valid) && ManifestExact(j) && Settled(j, e) && j.tree == ApplyAll(j.ops, j.base)
  }

  lemma BetweenIsRunning(j: Journal, e: EnvState, valid: Validator)
    requires Between(j, e, valid)
    ensures Running(j, e, valid)
  {
  }

  lemma PhaseIrrelevant(j: Journal, phase: Phase, e: EnvState, valid: Validator)
    requires Undoing(j, e, valid)
    ensures Undoing(j.(phase := phase), e, valid)
    ensures IsForward(phase) && Running(j, e, valid) ==> Running(j.(phase := phase), e, valid)
    ensures IsForward(phase) && Between(j, e, valid) ==> Between(j.(phase := phase), e, valid)
  {
  }

  lemma EnteringPhase(j: Journal, phase: Phase, e: EnvState, valid: Validator)
    requires Running(j, e, valid) && IsForward(phase)
    ensures !IsCommitted(phase) && !IsRolledBack(phase)
    ensures var k := j.(phase := phase); Running(k, e, valid) && (Between(j, e, valid) ==> Between(k, e, valid))
  {
    PhaseIrrelevant(j, phase, e, valid);
  }

  lemma UntouchedIsRunning(j: Journal, e: EnvState, valid: Validator)
    requires Untouched(j, e)
    ensures Running(j, e, valid) && ManifestExact(j) && Settled(j, e)
  {
  }

  lemma StandsBetween(j: Journal, e: EnvState, valid: Validator)
    requires Running(j, e, valid) && ManifestExact(j) && j.ops == [] && Settled(j, e)
    ensures Between(j, e, valid)
  {
  }

  lemma BackupIsFree(j: Journal, backup: EnvBackup, e: EnvState, valid: Validator)
    requires Undoing(j, e, valid) && Coherent(backup) && (!j.envBackup.ready || NoEnvironment(j.ops))
    ensures Undoing(j.(envBackup := backup), e, valid)
  {
  }

  lemma PublicationIgnoresPhase(j: Journal, phase: Phase, e: EnvState)
    ensures UnfinishedPublication(j.(phase := phase), e) == UnfinishedPublication(j, e)
  {
  }

  lemma ManifestIrrelevant(j: Journal, manifest: seq<UndoEntry>, e: EnvState, valid: Validator)
    requires Undoing(j, e, valid)
    ensures Undoing(j.(manifest := manifest), e, valid)
  {
  }

  lemma TornIsNotExact(j: Journal)
    ensures !(ManifestTorn(j) && ManifestExact(j))
    ensures Stranded(j) ==> ManifestTorn(j) && !IsForward(j.phase)
  {
  }

  lemma SavedCopyIsFree(j: Journal, e: EnvState, valid: Validator)
    requires Undoing(j, e, valid)
    ensures !j.envBackup.ready ==> NoEnvironment(j.ops)
    ensures Coherent(j.envBackup)
  {
  }

  lemma StagedKept(j: Journal, file: StagedFile, e: EnvState, valid: Validator)
    requires Running(j, e, valid) && ManifestExact(j) && Settled(j, e) && j.ops == []
    requires file.path != [] && Parent(file.path) in j.base
    ensures var k := j.(tree := j.tree[file.path := file.node], base := j.base[file.path := file.node]);
            j.tree == j.base && Running(k, e, valid) && ManifestExact(k) && Settled(k, e)
  {
  }

  lemma TreeLeavesEnvironment(steps: Steps, j: Journal, e: EnvState, valid: Validator)
    requires OnlyTree(steps) && Between(j, e, valid) && j.ops == TreeOperations(steps)
    ensures e.env == j.envBase && Quiet(e)
  {
    assert NoEnvironment(j.ops);
  }

  /** A rollback refuses this state, and only this: a manifest that was never
      repaired, a publication left unfinished, or the rotation window. */
  ghost predicate Refusing(j: Journal, e: EnvState) {
    !ManifestExact(j) || UnfinishedPublication(j, e) || RotationWindow(j)
  }

  lemma TreeComesFirst(steps: Steps)
    ensures TreeOperations(steps) <= PlannedOperations(steps) && [] <= PlannedOperations(steps)
  {
  }

  lemma ReplacementChangesNoTree(op: Operation, t: Tree)
    requires op.EnvReplace?
    ensures Apply(op, t) == t
  {
  }

  /** The recorded status agrees with the disk. */
  lemma StatusOf(j: Journal, e: EnvState, i: nat, valid: Validator)
    requires Undoing(j, e, valid) && i < |j.ops| && i !in j.rollbackDone && i !in j.executed && i !in j.rollbackIntents
    ensures i !in j.finished
  {
  }

  class TransactionJournal {
    const power: Power
    const env: EnvironmentStore
    /** The private directory that receives staged and backed-up secrets. */
    const companion: Path
    var phase: Phase
    var ops: seq<Operation>
    var finished: set<nat>
    var manifest: seq<UndoEntry>
    var rollbackDone: set<nat>
    var rollbackIntents: set<nat>
    var envBackup: EnvBackup
    var tree: Tree
    ghost var base: Tree
    ghost var envBase: Option<Node>
    ghost var executed: set<nat>

    constructor (power: Power, env: EnvironmentStore, companion: Path, tree: Tree)
      requires env.power == power && Valid(env.State()) && Quiet(env.State()) && ParentClosed(tree)
      ensures this.power == power && this.env == env && this.companion == companion && this.tree == tree
      ensures Untouched(Now(), env.State()) && base == tree && envBase == env.env
    {
      this.power, this.env, this.companion, this.tree, phase := power, env, companion, tree, Planned;
      ops, finished, manifest, rollbackDone, rollbackIntents := [], {}, [], {}, {};
      envBackup := EnvBackup(true, None, None);
      base, envBase, executed := tree, env.env, {};
    }

    ghost function Now(): Journal
      reads this
    {
      Journal(phase, ops, finished, manifest, rollbackDone, rollbackIntents, envBackup, tree, base, envBase, executed)
    }

    ghost predicate Wired() {
      env.power == power
    }

    // ----- Records ------------------------------------------------------------------------

    /** No phase ends a transaction while the environment file is under way. */
    method WritePhase(phase: Phase) returns (r: Outcome)
      modifies this`phase, power
      ensures r.Conflict? <==>
              (IsRolledBack(phase) && env.rollback.Some?)
              || ((IsRolledBack(phase) || IsCommitted(phase)) && env.forward.Some?)
      ensures if r.Pass? then this.phase == phase else this.phase == old(this.phase)
      ensures r.Crash? ==> old(power.left) == Some(0)
      ensures old(power.left) == Some(0) ==> !r.Pass?
      ensures old(power.left) == None ==> power.left == None && !r.Crash?
    {
      if IsRolledBack(phase) && env.rollback.Some? {
        return Conflict;
      }
      if (IsRolledBack(phase) || IsCommitted(phase)) && env.forward.Some? {
        return Conflict;
      }
      r := power.Tick();
      if r.Pass? {
        this.phase := phase;
      }
    }

    method RecordRollbackIntent(i: nat) returns (r: Outcome)
      modifies this`rollbackIntents, power
      ensures !r.Conflict?
      ensures rollbackIntents == if r.Pass? && i !in rollbackDone then old(rollbackIntents) + {i}
              else old(rollbackIntents)
      ensures old(power.left) == None ==> power.left == None && r.Pass?
    {
      if i in rollbackDone {
        return Pass;
      }
      if i !in rollbackIntents {
        :- power.Tick();
        rollbackIntents := rollbackIntents + {i};
      }
      return Pass;
    }

    /** Two records: done first, then the intent is dropped. */
    method RecordRollbackDone(i: nat) returns (r: Outcome)
      modifies this`rollbackDone, this`rollbackIntents, power
      ensures r.Conflict? <==> i >= |ops| || (ops[i].EnvReplace? && env.rollback.Some?)
      ensures r.Pass? ==> rollbackDone == old(rollbackDone) + {i} && rollbackIntents == old(rollbackIntents) - {i}
      ensures !r.Pass? ==> rollbackIntents == old(rollbackIntents)
                           && (rollbackDone == old(rollbackDone) || rollbackDone == old(rollbackDone) + {i})
      ensures old(power.left) == None ==> power.left == None && !r.Crash?
    {
      if i >= |ops| || (ops[i].EnvReplace? && env.rollback.Some?) {
        return Conflict;
      }
      if i !in rollbackDone {
        :- power.Tick();
        rollbackDone := rollbackDone + {i};
      }
      if i in rollbackIntents {
        :- power.Tick();
        rollbackIntents := rollbackIntents - {i};
      }
      return Pass;
    }

    // ----- Rollback ------------------------------------------------------------------------

    /** Records an operation that is not (or no longer) executed as undone. */
    method Settle(i: nat, valid: Validator) returns (r: Outcome)
      requires Undoing(Now(), env.State(), valid) && i < |ops| && i !in executed && i !in rollbackDone
               && Reached(ops, rollbackDone, i)
      requires ops[i].EnvReplace? ==> env.forward.None?
      modifies this`rollbackDone, this`rollbackIntents, power
      ensures Undoing(Now(), env.State(), valid) && !r.Conflict?
      ensures old(power.left) == None ==> power.left == None && !r.Crash?
      ensures r.Pass? ==> rollbackDone == old(rollbackDone) + {i}
      ensures rollbackDone == old(rollbackDone) || rollbackDone == old(rollbackDone) + {i}
    {
      DoneKept(Now(), env.State(), i, valid);
      assert ops[i].EnvReplace? ==> EnvTrackedAt(Now(), env.State(), i);
      hide Undoing, Reached;
      r := RecordRollbackDone(i);
    }

    /** Puts the undo of an executed operation on record. */
    method Intend(i: nat, valid: Validator) returns (r: Outcome)
      requires Undoing(Now(), env.State(), valid) && i < |ops| && i in executed && i !in rollbackDone
               && Reached(ops, rollbackDone, i)
      requires ops[i].EnvReplace? ==> env.forward.None?
      modifies this`rollbackIntents, power
      ensures Undoing(Now(), env.State(), valid) && !r.Conflict?
      ensures old(power.left) == None ==> power.left == None && !r.Crash?
      ensures r.Pass? ==> i in rollbackIntents && Reached(ops, rollbackDone, i)
    {
      IntentKept(Now(), env.State(), i, valid);
      hide Undoing, Reached;
      r := RecordRollbackIntent(i);
    }

    /** The reversal itself: one step of the disk. */
    method ReverseOperation(i: nat, valid: Validator) returns (r: Outcome)
      requires Undoing(Now(), env.State(), valid) && ManifestExact(Now()) && i < |ops| && !ops[i].EnvReplace?
      requires i in executed && i in rollbackIntents && Reached(ops, rollbackDone, i)
      modifies this`tree, this`executed, power
      ensures Undoing(Now(), env.State(), valid) && !r.Conflict?
      ensures old(power.left) == None ==> power.left == None && !r.Crash?
      ensures executed == if r.Pass? then old(executed) - {i} else old(executed)
    {
      ReversalKept(Now(), env.State(), i, valid);
      hide Undoing, Reached;
      if ops[i].Unlink? && !UniqueUndoEntry(manifest, ops[i].path) {
        return Conflict;
      }
      match Reverse(ops[i], tree, valid)
      case None => return Conflict;
      case Some(t) =>
        :- power.Tick();
        tree := t;
        executed := executed - {i};
        return Pass;
    }

    /** The restoration of the environment file, within the rollback. */
    method RestoreWithin(i: nat, expected: Option<nat>, valid: Validator) returns (r: Outcome)
      requires Wired() && Undoing(Now(), env.State(), valid) && i < |ops| && ops[i].EnvReplace?
      requires i in executed && i in rollbackIntents && i !in rollbackDone && env.forward.None?
      requires env.rollback.None? ==> expected.Some? && expected == IdOf(env.env)
      requires env.rollback == Some(Preparing) ==> expected == None
      modifies this`executed, env, power
      ensures Undoing(Now(), env.State(), valid) && env.forward.None? && !r.Conflict?
      ensures old(power.left) == None ==> power.left == None && !r.Crash?
      ensures r.Pass? ==> Restored(ops[i].change, env.State())
      ensures executed == if r.Pass? then old(executed) - {i} else old(executed)
    {
      assert EnvTrackedAt(Now(), env.State(), i) && SavedFor(envBackup, ops[i].change);
      ghost var j, e := Now(), env.State();
      hide Undoing;
      if !SavedFor(envBackup, ops[i].change) {
        return Conflict;
      }
      r := env.RestoreEnvironment(ops[i].change, expected);
      RestorationKept(j, e, env.State(), i, valid);
      if r.Pass? {
        executed := executed - {i};
      }
    }

    /** Undoes an operation found executed: intent, reversal, check, done. */
    method UndoExecuted(i: nat, valid: Validator) returns (r: Outcome)
      requires Wired() && Undoing(Now(), env.State(), valid) && ManifestExact(Now())
      requires i < |ops| && i in executed && i !in rollbackDone && Reached(ops, rollbackDone, i) && env.forward.None?
      requires env.rollback.None? || !ops[i].EnvReplace?
      modifies this`tree, this`executed, this`rollbackDone, this`rollbackIntents, env, power
      ensures Undoing(Now(), env.State(), valid) && env.forward.None? && !r.Conflict?
      ensures old(power.left) == None ==> power.left == None && !r.Crash?
      ensures r.Pass? ==> rollbackDone == old(rollbackDone) + {i}
      ensures executed == old(executed) || executed == old(executed) - {i}
      ensures rollbackDone == old(rollbackDone) || rollbackDone == old(rollbackDone) + {i}
    {
      assert ops[i].EnvReplace? ==> EnvTrackedAt(Now(), env.State(), i);
      hide Undoing, Reached, ManifestExact, ReverseStateSafe, Classify;
      if i !in rollbackIntents {
        :- Intend(i, valid);
      }
      if ops[i].EnvReplace? {
        :- RestoreWithin(i, IdOf(env.env), valid);
      } else {
        :- ReverseOperation(i, valid);
      }
      ObservedState(Now(), env.State(), i, valid);
      if !ReverseStateSafe(ops[i], tree, env.env, valid) {
        return Conflict;
      }
      r := Settle(i, valid);
    }

    /** Undoes one operation, continuing wherever a previous run left it. */
    method UndoOperation(i: nat, valid: Validator) returns (r: Outcome)
      requires Wired() && Undoing(Now(), env.State(), valid) && ManifestExact(Now())
      requires i < |ops| && i !in rollbackDone && Reached(ops, rollbackDone, i) && env.forward.None?
      modifies this`tree, this`executed, this`rollbackDone, this`rollbackIntents, env, power
      ensures Undoing(Now(), env.State(), valid) && env.forward.None? && !r.Conflict?
      ensures old(power.left) == None ==> power.left == None && !r.Crash?
      ensures r.Pass? ==> rollbackDone == old(rollbackDone) + {i}
      ensures executed == old(executed) || executed == old(executed) - {i}
      ensures rollbackDone == old(rollbackDone) || rollbackDone == old(rollbackDone) + {i}
    {
      ghost var j, e := Now(), env.State();
      assert ops[i].EnvReplace? ==> EnvTrackedAt(j, e, i);
      hide Undoing, Reached, ManifestExact, ReverseStateSafe, Classify;
      var hasIntent := i in rollbackIntents;
      if ops[i].EnvReplace? && env.rollback.Some? {
        // A restoration was interrupted: finish it first.
        if !hasIntent {
          return Conflict;
        }
        :- RestoreWithin(i, None, valid);
        ObservedState(Now(), env.State(), i, valid);
        if env.rollback.Some? || !ReverseStateSafe(ops[i], tree, env.env, valid) {
          return Conflict;
        }
        r := Settle(i, valid);
        return;
      }
      ObservedState(j, e, i, valid);
      if i !in executed && !hasIntent { StatusOf(j, e, i, valid); }
      if hasIntent && ReverseStateSafe(ops[i], tree, env.env, valid) {
        r := Settle(i, valid);
        return;
      }
      match Classify(ops[i], tree, env.env, valid)
      case Ambiguous => return Conflict;
      case NotExecuted =>
        if i in finished || hasIntent {
          return Conflict;
        }
        r := Settle(i, valid);
      case Executed =>
        r := UndoExecuted(i, valid);
    }

    method FindEnvironmentChange() returns (i: nat)
      ensures i <= |ops|
      ensures if i < |ops| then ops[i].EnvReplace? else NoEnvironment(ops)
    {
      i := 0;
      while i < |ops| && !ops[i].EnvReplace?
        invariant 0 <= i <= |ops|
        invariant forall k :: 0 <= k < i ==> !ops[k].EnvReplace?
      {
        i := i + 1;
      }
    }

    /** Settles an interrupted publication of the environment file first. */
    method ResolveForward(valid: Validator) returns (r: Outcome)
      requires Wired() && Undoing(Now(), env.State(), valid)
      modifies env`staged, env`forward, power
      ensures Undoing(Now(), env.State(), valid)
      ensures old(power.left) == None ==> power.left == None && !r.Crash?
      ensures r.Conflict? <==> old(UnfinishedPublication(Now(), env.State()))
      ensures !r.Conflict? ==> !UnfinishedPublication(Now(), env.State())
      ensures r.Conflict? ==> env.State() == old(env.State())
      ensures r.Pass? ==> env.forward.None?
    {
      ghost var j, e := Now(), env.State();
      if env.forward.Some? {
        var i := FindEnvironmentChange();
        RecordsBelong(j, e, i, valid);
        EnvironmentIsAlone(ops, base, i, valid);
        assert EnvTrackedAt(j, e, i);
        hide Undoing;
        if i == |ops| {
          return Conflict;
        }
        r := env.ResumeForward(ops[i].change);
        ResolutionKept(j, e, env.State(), i, valid);
        assert UnfinishedPublication(j, e) == UnfinishedCandidate(ops[i].change, e);
      } else {
        r := Pass;
      }
    }

    /** One turn of the rollback loop: an operation on record as undone is
        checked, any other is undone. */
    method UndoNext(i: nat, valid: Validator) returns (r: Outcome)
      requires Wired() && Undoing(Now(), env.State(), valid) && ManifestExact(Now())
      requires i < |ops| && Reached(ops, rollbackDone, i) && env.forward.None?
      modifies this`tree, this`executed, this`rollbackDone, this`rollbackIntents, env, power
      ensures Undoing(Now(), env.State(), valid) && env.forward.None?
      ensures old(power.left) == None ==> power.left == None && !r.Crash?
      ensures r.Pass? ==> rollbackDone == old(rollbackDone) + {i}
      ensures executed == old(executed) || executed == old(executed) - {i}
      ensures old(i in rollbackDone) ==>
                Now() == old(Now()) && env.State() == old(env.State())
                && r == if ReverseStateSafe(ops[i], tree, env.env, valid) then Pass else Conflict
      ensures old(i !in rollbackDone) ==> !r.Conflict?
    {
      hide Undoing, Reached, ManifestExact, ReverseStateSafe;
      if i in rollbackDone {
        if !ReverseStateSafe(ops[i], tree, env.env, valid) {
          return Conflict;
        }
        r := Pass;
      } else {
        r := UndoOperation(i, valid);
      }
    }

    /** Undoes the operations in order, skipping those on record as undone after
        checking that they still are. */
    method UndoInOrder(order: seq<nat>, valid: Validator) returns (r: Outcome)
      requires Wired() && Undoing(Now(), env.State(), valid) && ManifestExact(Now()) && env.forward.None?
      requires OrderedForRollback(ops, order)
      modifies this`tree, this`executed, this`rollbackDone, this`rollbackIntents, env, power
      ensures Undoing(Now(), env.State(), valid) && env.forward.None?
      ensures old(power.left) == None ==> power.left == None && !r.Crash?
      ensures r.Pass? ==> !old(RotationWindow(Now())) && forall i: nat :: i < |ops| ==> i in rollbackDone
      ensures r.Conflict? ==> old(RotationWindow(Now())) && tree == old(tree) && env.env == old(env.env)
    {
      ghost var j0, e0 := Now(), env.State();
      ghost var stop := LoopStarts(j0, e0, order, valid);
      hide Undoing, Reached, ManifestExact, ReverseStateSafe, RotationWindow, InLoop, OrderedForRollback;
      var at := 0;
      while at < |order|
        invariant 0 <= at <= |order| && InLoop(j0, e0, Now(), env.State(), order, at, stop, valid)
        invariant old(power.left) == None ==> power.left == None
      {
        ghost var j, e := Now(), env.State();
        LoopTurn(j0, e0, j, e, order, at, stop, valid);
        :- UndoNext(order[at], valid);
        LoopAdvances(j0, e0, j, e, Now(), env.State(), order, at, stop, valid);
        at := at + 1;
      }
      LoopEnds(j0, e0, Now(), env.State(), order, stop, valid);
      return Pass;
    }

    /** The rollback proper, up to the record that it is complete. */
    method RunRollback(valid: Validator) returns (r: Outcome)
      requires Wired() && Undoing(Now(), env.State(), valid)
      modifies this`phase, this`tree, this`executed, this`rollbackDone, this`rollbackIntents, env, power
      ensures Undoing(Now(), env.State(), valid)
      ensures old(power.left) == None ==> power.left == None && !r.Crash?
      ensures r.Pass? ==>
              phase == RollbackComplete && RolledBack(Now(), env.State()) && !old(Refusing(Now(), env.State()))
      ensures r.Conflict? ==> old(Refusing(Now(), env.State())) && tree == old(tree) && env.env == old(env.env)
      ensures !r.Pass? ==> phase == old(phase) || phase == RollbackInProgress
      // Without power nothing happens; with any, the rollback is on record.
      ensures old(power.left) == Some(0) ==> r.Crash? && Now() == old(Now()) && env.State() == old(env.State())
      ensures old(power.left) != Some(0) ==> !IsForward(phase)
      ensures UnfinishedPublication(Now(), env.State()) == old(UnfinishedPublication(Now(), env.State()))
    {
      PhaseIrrelevant(Now(), RollbackInProgress, env.State(), valid);
      hide Undoing, RolledBack, ManifestOf, UnfinishedCandidate;
      :- WritePhase(RollbackInProgress);
      :- ResolveForward(valid);
      if manifest != ManifestOf(ops) {
        return Conflict;
      }
      r := UndoAndComplete(valid);
    }

    method UndoAndComplete(valid: Validator) returns (r: Outcome)
      requires Wired() && Undoing(Now(), env.State(), valid) && ManifestExact(Now()) && env.forward.None?
      modifies this`phase, this`tree, this`executed, this`rollbackDone, this`rollbackIntents, env, power
      ensures Undoing(Now(), env.State(), valid) && env.forward.None?
      ensures old(power.left) == None ==> power.left == None && !r.Crash?
      ensures r.Pass? ==> phase == RollbackComplete && RolledBack(Now(), env.State()) && !old(RotationWindow(Now()))
      ensures r.Conflict? ==> old(RotationWindow(Now())) && tree == old(tree) && env.env == old(env.env)
      ensures !r.Pass? ==> phase == old(phase)
    {
      hide Undoing, ManifestExact, RotationWindow, OrderedForRollback;
      var order := RollbackOrder(ops);
      :- UndoInOrder(order, valid);
      AllUndone(Now(), env.State(), valid);
      PhaseIrrelevant(Now(), RollbackComplete, env.State(), valid);
      r := WritePhase(RollbackComplete);
    }

    /** The rollback, or the record that it failed. */
    method RollBackOrFail(valid: Validator) returns (r: Outcome)
      requires Wired() && Undoing(Now(), env.State(), valid)
      modifies this`phase, this`tree, this`executed, this`rollbackDone, this`rollbackIntents, env, power
      ensures Undoing(Now(), env.State(), valid)
      ensures old(power.left) == None ==> power.left == None && !r.Crash?
      ensures r.Pass? ==>
              phase == RollbackComplete && RolledBack(Now(), env.State()) && !old(Refusing(Now(), env.State()))
      ensures r.Conflict? ==>
              old(Refusing(Now(), env.State())) && phase == RollbackFailed && tree == old(tree)
              && env.env == old(env.env)
      ensures r.Crash? ==> phase == old(phase) || phase == RollbackInProgress
      ensures old(power.left) == Some(0) ==> r.Crash? && Now() == old(Now()) && env.State() == old(env.State())
      ensures old(power.left) != Some(0) ==> !IsForward(phase)
      ensures UnfinishedPublication(Now(), env.State()) == old(UnfinishedPublication(Now(), env.State()))
    {
      hide Undoing, RolledBack, Refusing, UnfinishedPublication;
      r := RunRollback(valid);
      if r.Conflict? {
        PhaseIrrelevant(Now(), RollbackFailed, env.State(), valid);
        PublicationIgnoresPhase(Now(), RollbackFailed, env.State());
        :- WritePhase(RollbackFailed);
        return Conflict;
      }
    }

    /** Rollback of an uncommitted transaction, from a fresh failure or from
        whatever an interrupted rollback left; its cleanup follows separately.
        It fails exactly where it must, and once failed it stays failed. */
    method ResumeRollback(valid: Validator) returns (r: Outcome)
      requires Wired() && Undoing(Now(), env.State(), valid)
      requires IsRolledBack(phase) ==> RolledBack(Now(), env.State())
      modifies this`phase, this`tree, this`executed, this`rollbackDone, this`rollbackIntents, env, power
      ensures Undoing(Now(), env.State(), valid)
      ensures old(power.left) == None ==> power.left == None && !r.Crash?
      ensures r.Pass? ==> IsRolledBack(phase) && RolledBack(Now(), env.State())
      ensures IsForward(old(phase)) || old(phase) == RollbackInProgress ==>
                && (r.Pass? ==> !old(Refusing(Now(), env.State())))
                && (r.Conflict? ==> old(Refusing(Now(), env.State())) && phase == RollbackFailed)
                && (r.Crash? ==> phase == old(phase) || phase == RollbackInProgress)
                && (old(power.left) == Some(0) ==> r.Crash? && Now() == old(Now()) && env.State() == old(env.State()))
      // With power for a single step, the rollback is on record.
      ensures old(power.left) != Some(0) ==> !IsForward(phase)
      ensures r.Conflict? ==> tree == old(tree) && env.env == old(env.env)
      ensures IsCommitted(old(phase)) || old(phase) == RollbackFailed ==> r.Conflict? && Now() == old(Now())
      ensures IsRolledBack(old(phase)) ==> r.Pass? && Now() == old(Now())
      ensures UnfinishedPublication(Now(), env.State()) == old(UnfinishedPublication(Now(), env.State()))
    {
      hide Undoing, RolledBack, Refusing, UnfinishedPublication;
      if IsCommitted(phase) || phase.RollbackFailed? {
        return Conflict;
      }
      if IsRolledBack(phase) {
        return Pass;
      }
      r := RollBackOrFail(valid);
    }

    // ----- Forward run --------------------------------------------------------------------------

    /** The intent is durable before the operation runs: manifest first, then
        the operation itself. */
    method RecordIntent(i: nat, op: Operation, valid: Validator) returns (r: Outcome)
      requires MayRecord(Now(), env.State(), op, valid) && ManifestExact(Now()) && i == |ops|
      modifies this`ops, this`manifest, power
      ensures Running(Now(), env.State(), valid) && !r.Conflict?
      ensures old(power.left) == None ==> power.left == None && !r.Crash?
      ensures ops == if r.Pass? then old(ops) + [op] else old(ops)
      ensures r.Pass? ==> ManifestExact(Now()) && i !in executed && i !in finished
    {
      hide Running, Settled, ManifestOf, UndoEntryFor, Shape;
      IntentTorn(Now(), env.State(), op, valid);
      IntentRecorded(Now().(manifest := manifest + [UndoEntryFor(i, op)]), env.State(), op, valid);
      if op.EnvReplace? && !SavedFor(envBackup, op.change) {
        return Conflict;
      }
      if manifest != ManifestOf(ops) || i != |ops| {
        return Conflict;
      }
      :- power.Tick();
      manifest := manifest + [UndoEntryFor(i, op)];
      :- power.Tick();
      ops := ops + [op];
      return Pass;
    }

    method RecordDone(i: nat, valid: Validator) returns (r: Outcome)
      requires Running(Now(), env.State(), valid) && ManifestExact(Now()) && i < |ops| && i in executed
               && i !in finished
      modifies this`finished, power
      ensures Running(Now(), env.State(), valid) && (r.Conflict? ==> env.forward.Some?)
      ensures old(power.left) == None ==> power.left == None && !r.Crash?
      ensures finished == if r.Pass? then old(finished) + {i} else old(finished)
    {
      if env.forward.None? || !ops[i].EnvReplace? {
        DoneRecorded(Now(), env.State(), i, valid);
      }
      hide Running;
      if manifest != ManifestOf(ops) || i in finished || (env.forward.Some? && ops[i].EnvReplace?) {
        return Conflict;
      }
      :- power.Tick();
      finished := finished + {i};
      return Pass;
    }

    /** Whether the filesystem refuses to run an operation. */
    static predicate Refuses(op: Operation, t: Tree) {
      match op
      case Mkdir(p, _) => p in t || p == [] || !IsDirectory(t, Parent(p))
      case Chmod(p, kind, before, _, uid, gid) => p !in t || !Matches(t[p], kind, Authority(before, uid, gid))
      case EnvReplace(_) => false
      case _ => Source(op) !in t || !Matches(t[Source(op)], Regular, op.auth) || Target(op) in t
    }

    /** The recorded operation itself, on the tree. */
    method Mutate(i: nat, valid: Validator) returns (r: Outcome)
      requires MayRun(Now(), env.State(), valid) && i == |ops| - 1 && !ops[i].EnvReplace?
      modifies this`tree, this`executed, power
      ensures Running(Now(), env.State(), valid) && !r.Conflict?
      ensures old(power.left) == None ==> power.left == None && !r.Crash?
      ensures r.Pass? ==> tree == Apply(ops[i], old(tree)) && executed == old(executed) + {i}
    {
      MutationKept(Now(), env.State(), valid);
      hide Running, Apply;
      if Refuses(ops[i], tree) {
        return Conflict;
      }
      :- power.Tick();
      tree := Apply(ops[i], tree);
      executed := executed + {i};
      return Pass;
    }

    /** The recorded replacement of the environment file. */
    method PublishFile(i: nat, valid: Validator) returns (r: Outcome)
      requires Wired() && MayRun(Now(), env.State(), valid) && i == |ops| - 1 && ops[i].EnvReplace?
      modifies this`executed, env, power
      ensures Running(Now(), env.State(), valid) && !r.Conflict?
      ensures old(power.left) == None ==> power.left == None && !r.Crash?
      ensures r.Pass? ==>
              executed == old(executed) + {i} && Quiet(env.State()) && IsFile(env.env, None, ops[i].change.after)
    {
      ghost var j, e := Now(), env.State();
      EnvironmentIsAlone(ops, base, i, valid);
      assert EnvTrackedAt(j, e, i);
      hide Undoing;
      r := env.PublishEnvironment(ops[i].change, IdOf(env.env));
      PublicationKept(j, e, env.State(), valid);
      if IsFile(env.env, None, ops[i].change.after) {
        executed := executed + {i};
      }
    }

    /** One operation of the plan: on record, run, done on record. */
    method Perform(op: Operation, valid: Validator) returns (r: Outcome)
      requires Wired() && MayRecord(Now(), env.State(), op, valid) && ManifestExact(Now())
      modifies this`ops, this`manifest, this`tree, this`executed, this`finished, env, power
      ensures Running(Now(), env.State(), valid) && !r.Conflict?
      ensures old(power.left) == None ==> power.left == None && !r.Crash?
      ensures r.Pass? ==>
              ManifestExact(Now()) && Settled(Now(), env.State()) && ops == old(ops) + [op]
              && tree == Apply(op, old(tree))
      ensures ops == old(ops) || ops == old(ops) + [op]
      ensures r.Pass? && op.EnvReplace? ==> Quiet(env.State()) && IsFile(env.env, None, op.change.after)
    {
      var i := |ops|;
      hide Running, ManifestOf, Apply;
      :- RecordIntent(i, op, valid);
      ghost var t := tree;
      assert ops[i] == op;
      if op.EnvReplace? {
        ReplacementChangesNoTree(op, t);
        :- PublishFile(i, valid);
      } else {
        :- Mutate(i, valid);
      }
      :- RecordDone(i, valid);
      return Pass;
    }

    /** The whole group of a phase, in order. */
    method PerformAll(list: seq<Operation>, ghost all: seq<Operation>, valid: Validator) returns (r: Outcome)
      requires Wired() && Between(Now(), env.State(), valid) && Shape(all, base, valid) && ops + list <= all
               && NoEnvironment(list)
      modifies this`ops, this`manifest, this`tree, this`executed, this`finished, env, power
      ensures Running(Now(), env.State(), valid) && !r.Conflict?
      ensures old(power.left) == None ==> power.left == None && !r.Crash?
      ensures r.Pass? ==> Between(Now(), env.State(), valid) && ops == old(ops) + list
      ensures ops <= old(ops) + list
    {
      ghost var before := ops;
      hide Running, Settled, ManifestExact, Shape, ApplyAll, Apply;
      BetweenIsRunning(Now(), env.State(), valid);
      assert before + list[..0] == before;
      var k := 0;
      while k < |list|
        invariant 0 <= k <= |list|
        invariant Between(Now(), env.State(), valid) && ops == before + list[..k] <= before + list
        invariant old(power.left) == None ==> power.left == None
      {
        NextOfList(all, before, list, k, base, valid);
        :- Perform(list[k], valid);
        k := k + 1;
      }
      assert list[..k] == list;
      return Pass;
    }

    static function LastPhase(before: Phase, phases: seq<Phase>): Phase {
      if phases == [] then before else phases[|phases| - 1]
    }

    /** Consecutive phases, each a record of its own. */
    method EnterPhases(phases: seq<Phase>, valid: Validator) returns (r: Outcome)
      requires Running(Now(), env.State(), valid) && forall k :: 0 <= k < |phases| ==> IsForward(phases[k])
      modifies this`phase, power
      ensures Running(Now(), env.State(), valid) && !r.Conflict?
      ensures old(power.left) == None ==> power.left == None && r.Pass?
      ensures old(Between(Now(), env.State(), valid)) ==> Between(Now(), env.State(), valid)
      ensures r.Pass? ==> phase == LastPhase(old(phase), phases)
    {
      hide Running, Between, IsForward;
      for k := 0 to |phases|
        invariant Running(Now(), env.State(), valid)
                  && (old(Between(Now(), env.State(), valid)) ==> Between(Now(), env.State(), valid))
        invariant phase == LastPhase(old(phase), phases[..k])
        invariant old(power.left) == None ==> power.left == None
      {
        EnteringPhase(Now(), phases[k], env.State(), valid);
        :- WritePhase(phases[k]);
      }
      assert phases[..|phases|] == phases;
      return Pass;
    }

    /** A group of operations, then the phases that follow it. */
    method PerformGroup(list: seq<Operation>, ghost all: seq<Operation>, phases: seq<Phase>, valid: Validator)
      returns (r: Outcome)
      requires Wired() && Between(Now(), env.State(), valid) && Shape(all, base, valid) && ops + list <= all
               && NoEnvironment(list)
      requires forall k :: 0 <= k < |phases| ==> IsForward(phases[k])
      modifies this`phase, this`ops, this`manifest, this`tree, this`executed, this`finished, env, power
      ensures Running(Now(), env.State(), valid) && !r.Conflict?
      ensures old(power.left) == None ==> power.left == None && !r.Crash?
      ensures r.Pass? ==>
              Between(Now(), env.State(), valid) && ops == old(ops) + list && phase == LastPhase(old(phase), phases)
      ensures ops <= old(ops) + list
    {
      hide Running, Between, Shape, NoEnvironment, IsForward;
      r := PerformAll(list, all, valid);
      if r.Pass? {
        r := EnterPhases(phases, valid);
      }
    }

    /** Directories first, then the secrets to be replaced. */
    method BackUp(steps: Steps, ghost all: seq<Operation>, valid: Validator) returns (r: Outcome)
      requires Wired() && Between(Now(), env.State(), valid) && OnlyTree(steps)
      requires Shape(all, base, valid) && ops + steps.directories + steps.backups <= all
      modifies this`phase, this`ops, this`manifest, this`tree, this`executed, this`finished, env, power
      ensures Running(Now(), env.State(), valid) && !r.Conflict?
      ensures old(power.left) == None ==> power.left == None && !r.Crash?
      ensures r.Pass? ==>
              Between(Now(), env.State(), valid) && ops == old(ops) + steps.directories + steps.backups
              && phase == PublishingSecrets
      ensures ops <= old(ops) + steps.directories + steps.backups
    {
      hide Running, Between, Shape, NoEnvironment;
      r := PerformGroup(steps.directories, all, [], valid);
      if r.Pass? {
        r := PerformGroup(steps.backups, all, [BackupComplete, PublishingSecrets], valid);
      }
    }

    /** The new secrets, then the modes of those that were kept. */
    method PublishSecrets(steps: Steps, ghost all: seq<Operation>, valid: Validator) returns (r: Outcome)
      requires Wired() && Between(Now(), env.State(), valid) && OnlyTree(steps)
      requires Shape(all, base, valid) && ops + steps.publications + steps.permissions <= all
      modifies this`phase, this`ops, this`manifest, this`tree, this`executed, this`finished, env, power
      ensures Running(Now(), env.State(), valid) && !r.Conflict?
      ensures old(power.left) == None ==> power.left == None && !r.Crash?
      ensures r.Pass? ==>
              Between(Now(), env.State(), valid) && ops == old(ops) + steps.publications + steps.permissions
              && phase == EnvCommitting
      ensures ops <= old(ops) + steps.publications + steps.permissions
    {
      hide Running, Between, Shape, NoEnvironment;
      r := PerformGroup(steps.publications, all, [SecretsPublished, Verifying], valid);
      if r.Pass? {
        r := PerformGroup(steps.permissions, all, [Verified, EnvCommitting], valid);
      }
    }

    /** The tree's part of the plan. */
    method PerformPlan(steps: Steps, valid: Validator) returns (r: Outcome)
      requires Wired() && Between(Now(), env.State(), valid) && ops == [] && OnlyTree(steps)
      requires Shape(PlannedOperations(steps), base, valid)
      modifies this`phase, this`ops, this`manifest, this`tree, this`executed, this`finished, env, power
      ensures Running(Now(), env.State(), valid) && !r.Conflict?
      ensures old(power.left) == None ==> power.left == None && !r.Crash?
      ensures r.Pass? ==> Between(Now(), env.State(), valid) && ops == TreeOperations(steps)
                          && env.env == envBase && Quiet(env.State()) && phase == EnvCommitting
      ensures ops <= TreeOperations(steps)
    {
      assert ops + steps.directories == steps.directories;
      hide Running, Between, Shape, OnlyTree, Quiet;
      r := BackUp(steps, PlannedOperations(steps), valid);
      if r.Pass? {
        r := PublishSecrets(steps, PlannedOperations(steps), valid);
      }
      if r.Pass? {
        TreeLeavesEnvironment(steps, Now(), env.State(), valid);
      }
    }

    /** Saves the environment file before anything changes. */
    method PersistEnvBackup(valid: Validator) returns (r: Outcome)
      requires Running(Now(), env.State(), valid) && ops == []
      modifies this`envBackup, power
      ensures Running(Now(), env.State(), valid) && !r.Conflict?
      ensures old(power.left) == None ==> power.left == None && !r.Crash?
      ensures r.Pass? ==>
              envBackup == (if env.env.Some? then
                  EnvBackup(true, Some(env.env.value.digest), Some(env.env.value.digest))
                                        else EnvBackup(true, None, None))
    {
      ghost var j := Now();
      var digest := if env.env.Some? then Some(env.env.value.digest) else None;
      BackupIsFree(j, EnvBackup(false, digest, None), env.State(), valid);
      BackupIsFree(j, EnvBackup(false, digest, digest), env.State(), valid);
      BackupIsFree(j, EnvBackup(true, digest, digest), env.State(), valid);
      hide Undoing;
      :- power.Tick();
      envBackup := EnvBackup(false, digest, None);
      :- power.Tick();
      envBackup := envBackup.(stored := digest);
      :- power.Tick();
      envBackup := envBackup.(ready := true);
      return Pass;
    }

    /** Writes the new secrets into the staging directory. */
    method StageSecrets(staged: seq<StagedFile>, valid: Validator) returns (r: Outcome)
      requires Running(Now(), env.State(), valid) && ManifestExact(Now()) && Settled(Now(), env.State()) && ops == []
      requires forall k :: 0 <= k < |staged| ==>
                 StagedInto(staged[k], companion) && Parent(staged[k].path) in base
      modifies this`tree, this`base, power
      ensures Running(Now(), env.State(), valid) && !r.Conflict?
      ensures old(power.left) == None ==> power.left == None && !r.Crash?
      ensures r.Pass? ==> base == WithStaged(old(base), staged)
      ensures r.Pass? ==> ManifestExact(Now()) && Settled(Now(), env.State())
      ensures PartlyStaged(old(base), base, staged)
    {
      hide Running, ManifestExact, Settled, WithStaged, PartlyStaged, StagedInto;
      NothingStaged(base, staged);
      var k := 0;
      while k < |staged|
        invariant 0 <= k <= |staged|
        invariant Running(Now(), env.State(), valid) && ManifestExact(Now()) && Settled(Now(), env.State())
        invariant base == WithStaged(old(base), staged[..k]) && PartlyStaged(old(base), base, staged)
        invariant forall p :: p in old(base) ==> p in base
        invariant old(power.left) == None ==> power.left == None
      {
        StagedNext(old(base), staged, k);
        assert StagedInto(staged[k], companion);
        StagedIsBelow(staged[k], companion);
        StagedKept(Now(), staged[k], env.State(), valid);
        :- power.Tick();
        tree := tree[staged[k].path := staged[k].node];
        base := base[staged[k].path := staged[k].node];
        k := k + 1;
      }
      assert staged[..k] == staged;
      return Pass;
    }

    /** The saved environment file, before anything changes. */
    method SaveEnvironment(valid: Validator) returns (r: Outcome)
      requires Running(Now(), env.State(), valid) && ops == []
      modifies this`phase, this`envBackup, power
      ensures Running(Now(), env.State(), valid) && !r.Conflict?
      ensures old(power.left) == None ==> power.left == None && !r.Crash?
      ensures r.Pass? ==> phase == Staging && forall change: EnvChange :: BeforeState(env.env, change) ==>
              SavedFor(envBackup, change)
    {
      hide Running;
      r := PersistEnvBackup(valid);
      if r.Pass? {
        r := EnterPhases([Staging], valid);
      }
    }

    /** Everything is staged and nothing has been done yet. */
    method BeginBackingUp(valid: Validator) returns (r: Outcome)
      requires Running(Now(), env.State(), valid) && ManifestExact(Now()) && Settled(Now(), env.State()) && ops == []
      modifies this`phase, power
      ensures Running(Now(), env.State(), valid) && !r.Conflict?
      ensures old(power.left) == None ==> power.left == None && r.Pass?
      ensures r.Pass? ==> Between(Now(), env.State(), valid) && phase == BackingUp
    {
      hide Running, Settled, ManifestExact, Between;
      StandsBetween(Now(), env.State(), valid);
      r := EnterPhases([Staged, BackingUp], valid);
    }

    /** What comes before the first operation: the saved environment file and the
        staged secrets. */
    method Prepare(steps: Steps, valid: Validator) returns (r: Outcome)
      requires Untouched(Now(), env.State()) && Fits(steps, base, env.env, companion, valid)
      modifies this`phase, this`envBackup, this`tree, this`base, power
      ensures Running(Now(), env.State(), valid) && !r.Conflict?
      ensures old(power.left) == None ==> power.left == None && !r.Crash?
      ensures r.Pass? ==>
              Between(Now(), env.State(), valid) && base == WithStaged(old(base), steps.staged) && phase == BackingUp
      ensures r.Pass? && steps.environment.Some? ==> SavedFor(envBackup, steps.environment.value)
      ensures PartlyStaged(old(base), base, steps.staged)
    {
      NothingStaged(base, steps.staged);
      UntouchedIsRunning(Now(), env.State(), valid);
      hide Running, Shape, PartlyStaged, WithStaged, Quiet, Valid, BeforeState, SavedFor, Settled, ManifestExact,
           Between, StagedInto;
      r := SaveEnvironment(valid);
      if r.Pass? {
        r := StageSecrets(steps.staged, valid);
      }
      if r.Pass? {
        r := BeginBackingUp(valid);
      }
    }

    /** The last operation: the environment file. */
    method CommitEnvironment(steps: Steps, valid: Validator) returns (r: Outcome)
      requires Wired() && Between(Now(), env.State(), valid) && OnlyTree(steps) && ops == TreeOperations(steps)
      requires Quiet(env.State()) && env.env == envBase && Shape(PlannedOperations(steps), base, valid)
      requires steps.environment.Some? ==>
               BeforeState(env.env, steps.environment.value) && SavedFor(envBackup, steps.environment.value)
      modifies this`phase, this`ops, this`manifest, this`tree, this`executed, this`finished, env, power
      ensures Running(Now(), env.State(), valid) && !r.Conflict?
      ensures old(power.left) == None ==> power.left == None && !r.Crash?
      ensures r.Pass? ==> Deployed(steps, Now(), env.State()) && phase == EnvCommitted
      ensures ops <= PlannedOperations(steps)
    {
      hide Running, Shape, ApplyAll, Apply;
      BetweenIsRunning(Now(), env.State(), valid);
      if steps.environment.Some? {
        var op := EnvReplace(steps.environment.value);
        assert PlannedOperations(steps) == ops + [op];
        assert [op][..0] == [] && ops + [] == ops;
        NextOfList(PlannedOperations(steps), ops, [op], 0, base, valid);
        assert NoEnvironment(ops);
        :- Perform(op, valid);
      }
      r := EnterPhases([EnvCommitted], valid);
    }

    /** The forward run, short of the commit. */
    method RunForward(steps: Steps, valid: Validator) returns (r: Outcome)
      requires Wired() && Untouched(Now(), env.State()) && Fits(steps, base, env.env, companion, valid)
      modifies this, env, power
      ensures Running(Now(), env.State(), valid) && !r.Conflict?
      ensures old(power.left) == None ==> power.left == None && r.Pass?
      ensures r.Pass? ==>
              Deployed(steps, Now(), env.State()) && base == WithStaged(old(base), steps.staged)
              && phase == EnvCommitted
      ensures PartlyStaged(old(base), base, steps.staged) && envBase == old(env.env)
      ensures ops <= PlannedOperations(steps) && (ops != [] ==> base == WithStaged(old(base), steps.staged))
    {
      TreeComesFirst(steps);
      hide Running, Deployed, Between, OnlyTree, PlannedOperations, TreeOperations, PartlyStaged, WithStaged, Shape,
           BeforeState, SavedFor;
      r := Prepare(steps, valid);
      if r.Pass? {
        r := PerformPlan(steps, valid);
      }
      if r.Pass? {
        r := CommitEnvironment(steps, valid);
      }
    }

    /** The forward run, up to the durable commit. */
    method Execute(steps: Steps, valid: Validator) returns (r: Outcome)
      requires Wired() && Untouched(Now(), env.State()) && Fits(steps, base, env.env, companion, valid)
      modifies this, env, power
      ensures !r.Conflict?
      ensures old(power.left) == None ==> power.left == None && r.Pass?
      // Interrupted anywhere, it has left a journal that can be rolled back.
      ensures r.Crash? ==> Running(Now(), env.State(), valid)
      // Completed, it is committed and everything planned is in place.
      ensures r.Pass? ==>
              phase == Committed && Deployed(steps, Now(), env.State()) && base == WithStaged(old(base), steps.staged)
      ensures PartlyStaged(old(base), base, steps.staged) && envBase == old(env.env)
      ensures ops <= PlannedOperations(steps) && (ops != [] ==> base == WithStaged(old(base), steps.staged))
    {
      hide Running, Untouched, Fits, PlannedOperations, PartlyStaged, WithStaged;
      r := RunForward(steps, valid);
      if r.Pass? {
        r := WritePhase(Committed);
      }
    }

    // ----- Opening a journal found on disk ---------------------------------------------------------

    /** Drops the one manifest entry an interrupted intent may have left. */
    method RepairManifest() returns (r: Outcome)
      modifies this`manifest, power
      ensures r.Conflict? <==> !old(ManifestExact(Now())) && !old(ManifestTorn(Now()) && IsForward(phase))
      ensures if r.Pass? then ManifestExact(Now()) else manifest == old(manifest)
      ensures old(power.left) == None ==> power.left == None && !r.Crash?
    {
      if manifest != ManifestOf(ops) {
        if !IsForward(phase) || |manifest| != |ops| + 1 || manifest[..|ops|] != ManifestOf(ops)
            || manifest[|ops|].sequence != |ops| {
          return Conflict;
        }
        :- power.Tick();
        manifest := manifest[..|ops|];
      }
      return Pass;
    }

    /** Settles a saved copy of the environment file that was left in preparation. */
    method RepairEnvBackup(valid: Validator) returns (r: Outcome)
      requires Undoing(Now(), env.State(), valid)
      modifies this`envBackup, power
      ensures Undoing(Now(), env.State(), valid) && !r.Conflict? && (r.Pass? ==> envBackup.ready)
      ensures old(power.left) == None ==> power.left == None && !r.Crash?
    {
      ghost var j := Now();
      SavedCopyIsFree(j, env.State(), valid);
      hide Undoing;
      if envBackup.ready {
        return if envBackup.stored != envBackup.digest then Conflict else Pass;
      }
      if envBackup.digest.None? && envBackup.stored.Some? {
        BackupIsFree(j, envBackup.(stored := None), env.State(), valid);
        :- power.Tick();
        envBackup := envBackup.(stored := None);
      }
      if envBackup.stored.Some? && envBackup.stored != envBackup.digest {
        return Conflict;
      }
      BackupIsFree(j, EnvBackup(true, envBackup.stored, envBackup.stored), env.State(), valid);
      :- power.Tick();
      envBackup := EnvBackup(true, envBackup.stored, envBackup.stored);
      return Pass;
    }

    /** Both records an interruption may have left half written.  A manifest
        torn before a rollback that is on record is not repaired. */
    method RepairRecords(valid: Validator) returns (r: Outcome)
      requires Wired() && Recoverable(Now(), env.State(), valid)
      modifies this`manifest, this`envBackup, power
      ensures Recoverable(Now(), env.State(), valid)
      ensures old(power.left) == None ==> power.left == None && !r.Crash?
      ensures r.Pass? ==> ManifestExact(Now()) && envBackup.ready
      ensures r.Conflict? <==> old(Stranded(Now()))
      ensures Stranded(Now()) == old(Stranded(Now()))
    {
      ghost var j := Now();
      hide ManifestOf, Undoing;
      TornIsNotExact(j);
      r := RepairManifest();
      ManifestIrrelevant(j, manifest, env.State(), valid);
      TornIsNotExact(Now());
      hide *;
      if r.Pass? {
        r := RepairEnvBackup(valid);
      }
    }

    /** Opening a journal: repairs its records and refuses a companion that is
        not private. */
    method Reopen(valid: Validator) returns (r: Outcome)
      requires Wired() && Recoverable(Now(), env.State(), valid)
      modifies this`manifest, this`envBackup, power
      ensures Recoverable(Now(), env.State(), valid)
      ensures old(power.left) == None ==> power.left == None && !r.Crash?
      ensures r.Pass? ==> ManifestExact(Now()) && envBackup.ready && CompanionPrivate(tree, companion)
      ensures !r.Crash? ==> (r.Conflict? <==> !CompanionPrivate(tree, companion) || old(Stranded(Now())))
      ensures old(Stranded(Now())) ==> r.Conflict?
      ensures Stranded(Now()) == old(Stranded(Now()))
    {
      hide CompanionPrivate, ManifestOf, ManifestTorn, Undoing, Stranded;
      r := RepairRecords(valid);
      if r.Pass? && (env.rollback.Some? || env.forward.Some?) {
        var i := FindEnvironmentChange();
        RecordsBelong(Now(), env.State(), i, valid);
        if i == |ops| || i in rollbackDone || IsRolledBack(phase) {
          return Conflict;
        }
      }
      if r.Pass? && !CompanionPrivate(tree, companion) {
        return Conflict;
      }
    }
  }

  /** What the file system lets through has its effect in full, and the tree
      stays a tree. */
  lemma WhatRunsShows(op: Operation, t: Tree, valid: Validator)
    requires !op.EnvReplace? && ParentClosed(t) && !TransactionJournal.Refuses(op, t)
    requires op.Chmod? ==> op.before != op.after
    requires op.Publish? ==> op.staging in t && valid(op.active, t[op.staging].digest)
    ensures Ran(op, Apply(op, t), valid)
    ensures op.Mkdir? || op.Chmod? ==> ParentClosed(Apply(op, t))
    ensures op.Mkdir? ==>
            |op.path| > 0 && op.path[..|op.path| - 1] in t && t[op.path[..|op.path| - 1]].kind == Directory
    ensures IsMove(op) ==> t[Source(op)].kind == Regular && t[Source(op)].auth == op.auth && Target(op) !in t
  {
    var u := Apply(op, t);
    if op.Mkdir? {
      forall q | q in u && |q| > 0
        ensures q[..|q| - 1] != op.path
      {
        assert q != op.path ==> q in t && Parent(q) in t;
      }
    }
  }
}
