/** The states in which recovery has to give up: exactly when, and an input that
    leads there. */
module Windows {
  import opened Wrappers
  import opened Disk
  import opened Operations
  import opened Environment
  import opened Journal
  import opened Transaction
  import opened Recovery
  import opened Secrets
  import Cleanup
  import FinalTree

  // ----- A rotation interrupted twice ------------------------------------------------------

  /** The window is open exactly while a backup is undone whose publication is
      on record as undone before it. */
  lemma WindowExactly(j: Journal, e: EnvState, valid: Validator)
    requires Undoing(j, e, valid) && e.forward.None?
    ensures RotationWindow(j) <==>
            exists b, i :: 0 <= b < |j.ops| && i in j.rollbackDone && i < |j.ops| && Paired(j.ops, b, i)
                && b !in j.executed
  {
    if RotationWindow(j) {
      var i :| i in j.rollbackDone && i < |j.ops| && j.ops[i].Publish? && j.ops[i].active in j.tree;
      CompletedCheck(j, e, i, valid);
      var b :| 0 <= b < |j.ops| && Paired(j.ops, b, i) && b !in j.executed;
    }
    if b, i :| 0 <= b < |j.ops| && i in j.rollbackDone && i < |j.ops| && Paired(j.ops, b, i) && b !in j.executed {
      CompletedCheck(j, e, i, valid);
    }
  }

  /** What the window leaves: every new secret is back in staging, and every old
      one that has not come back yet is missing from its place and only in the
      companion.  The tree is the starting one exactly if nothing is left to undo. */
  lemma WindowLeaves(j: Journal, e: EnvState, valid: Validator)
    requires Undoing(j, e, valid) && e.forward.None? && RotationWindow(j)
    ensures forall k :: k in j.executed ==> k < |j.ops| && !j.ops[k].EnvReplace? && !j.ops[k].Publish?
    ensures forall k :: k in j.executed && j.ops[k].Backup? ==>
              j.ops[k].active in j.base && j.ops[k].active !in j.tree
              && Lookup(j.tree, j.ops[k].backup) == Some(j.base[j.ops[k].active])
    ensures j.tree == j.base <==> j.executed == {}
  {
    WindowExactly(j, e, valid);
    var b, i :| 0 <= b < |j.ops| && i in j.rollbackDone && i < |j.ops| && Paired(j.ops, b, i) && b !in j.executed;
    PublicationsUndone(j, b, i);
    hide RotationWindow, Undoing;
    forall k | k in j.executed && j.ops[k].Backup?
      ensures j.ops[k].active in j.base && j.ops[k].active !in j.tree
              && Lookup(j.tree, j.ops[k].backup) == Some(j.base[j.ops[k].active])
    {
      OldSecretAway(j, e, k, valid);
    }
    StartingAgain(j, e, valid);
    assert forall k :: k in j.executed ==> k < |j.ops| by { ExecutedAreRecorded(j, e, valid); }
  }

  /** The environment file and all publications are undone before any backup. */
  lemma PublicationsUndone(j: Journal, b: nat, i: nat)
    requires Progress(j) && b < |j.ops| && i < |j.ops| && Paired(j.ops, b, i) && b !in j.executed
    requires forall k: nat :: k < |j.ops| - 1 ==> k in j.finished
    ensures forall k: nat :: k in j.executed && k < |j.ops| ==> !j.ops[k].EnvReplace? && !j.ops[k].Publish?
  {
    forall k: nat | k in j.executed && k < |j.ops|
      ensures !j.ops[k].EnvReplace? && !j.ops[k].Publish?
    {
      assert Before(j.ops, k, b) ==> k in j.rollbackDone;
    }
  }

  lemma OldSecretAway(j: Journal, e: EnvState, k: nat, valid: Validator)
    requires Undoing(j, e, valid) && k in j.executed && k < |j.ops| && j.ops[k].Backup?
    requires forall i: nat :: i in j.executed && i < |j.ops| ==> !j.ops[i].Publish?
    ensures j.ops[k].active in j.base && j.ops[k].active !in j.tree
            && Lookup(j.tree, j.ops[k].backup) == Some(j.base[j.ops[k].active])
  {
    VacatedPath(j.ops, j.base, j.executed, k, valid);
    MovedFile(j.ops, j.base, j.executed, k, valid);
  }

  /** The environment file before a deployment, with nothing under way. */
  function Still(env: Option<Node>): EnvState {
    EnvState(env, false, None, None, None, None, None, if env.Some? then env.value.id + 1 else 0)
  }

  function DigestOf(env: Option<Node>): Option<nat> {
    if env.Some? then Some(env.value.digest) else None
  }

  /** What comes after operation `b` in a rollback. */
  function Later(ops: seq<Operation>, b: nat): set<nat>
    requires b < |ops|
  { set k | 0 <= k < |ops| && Before(ops, b, k) }

  function Earlier(ops: seq<Operation>, b: nat): set<nat>
    requires b < |ops|
  { set k | 0 <= k < |ops| && Before(ops, k, b) }

  /** A complete run whose rollback has come to operation `b`: on record as
      intended, and its effect still there or just gone. */
  ghost function ComeTo(ops: seq<Operation>, base: Tree, env: Option<Node>, b: nat, gone: bool): Journal
    requires b < |ops|
  {
    var executed := if gone then Later(ops, b) else Later(ops, b) + {b};
    Journal(RollbackInProgress, ops, Below(|ops|), ManifestOf(ops), Earlier(ops, b), {b},
        EnvBackup(true, DigestOf(env), DigestOf(env)),
            Image(ops, base, executed, |ops|), base, env, executed)
  }

  lemma BeforeIsTransitive(ops: seq<Operation>, i: nat, k: nat, l: nat)
    requires i < |ops| && k < |ops| && l < |ops| && Before(ops, i, k) && Before(ops, k, l)
    ensures Before(ops, i, l)
  {
  }

  lemma ComeToIsWritten(ops: seq<Operation>, base: Tree, env: Option<Node>, b: nat, valid: Validator)
    requires Shape(ops, base, valid) && b < |ops| && ops[b].Backup?
    requires forall i :: 0 <= i < |ops| && ops[i].EnvReplace? ==> BeforeState(env, ops[i].change)
    ensures WrittenAhead(ComeTo(ops, base, env, b, false), valid)
  {
    hide Shape, Image;
    assert Closed(ops, Later(ops, b) + {b});
  }

  lemma ComeToProgress(ops: seq<Operation>, base: Tree, env: Option<Node>, b: nat)
    requires b < |ops|
    ensures Progress(ComeTo(ops, base, env, b, false))
  {
    hide Image, ManifestOf;
    var j := ComeTo(ops, base, env, b, false);
    forall i: nat, k: nat | i < |ops| && k < |ops| && Before(ops, i, k)
        && (k in j.rollbackDone || k in j.rollbackIntents)
      ensures i in j.rollbackDone
    {
      if k != b { BeforeIsTransitive(ops, i, k, b); }
    }
  }

  lemma ComeToTracks(ops: seq<Operation>, base: Tree, env: Option<Node>, b: nat)
    requires b < |ops| && ops[b].Backup?
    requires forall i :: 0 <= i < |ops| && ops[i].EnvReplace? ==>
               BeforeState(env, ops[i].change) && BeforeDigest(ops[i].change) != Some(ops[i].change.after.digest)
    ensures EnvTracked(ComeTo(ops, base, env, b, false), Still(env))
  {
    hide Image, ManifestOf;
  }

  /** The rollback of a complete run that comes to a backup is in a state it can
      be resumed from, and giving the old secret back is the next step. */
  lemma ComeToIsRecoverable(ops: seq<Operation>, base: Tree, env: Option<Node>, b: nat, valid: Validator)
    requires Shape(ops, base, valid) && b < |ops| && ops[b].Backup?
    requires forall i :: 0 <= i < |ops| && ops[i].EnvReplace? ==>
               BeforeState(env, ops[i].change) && BeforeDigest(ops[i].change) != Some(ops[i].change.after.digest)
    ensures var j, k := ComeTo(ops, base, env, b, false), ComeTo(ops, base, env, b, true);
            Recoverable(j, Still(env), valid) && Recoverable(k, Still(env), valid)
            && Reverse(ops[b], j.tree, valid) == Some(k.tree)
  {
    var j, k := ComeTo(ops, base, env, b, false), ComeTo(ops, base, env, b, true);
    ComeToIsWritten(ops, base, env, b, valid);
    ComeToProgress(ops, base, env, b);
    ComeToTracks(ops, base, env, b);
    assert j.executed - {b} == k.executed;
    hide WrittenAhead, Progress, EnvTracked, Image, ManifestOf, Reverse, Shape;
    ReversalKept(j, Still(env), b, valid);
    ComeToUndone(j, Still(env), b, valid);
  }

  /** The tree after a reversal is the one without the operation. */
  lemma ComeToUndone(j: Journal, e: EnvState, b: nat, valid: Validator)
    requires Undoing(j, e, valid) && b < |j.ops| && !j.ops[b].EnvReplace? && b in j.executed
             && Reached(j.ops, j.rollbackDone, b)
    ensures Reverse(j.ops[b], j.tree, valid) == Some(Image(j.ops, j.base, j.executed - {b}, |j.ops|))
  {
    DependenciesStand(j, b, valid);
    UndoStep(j.ops, j.base, j.executed, b, valid);
  }

  /** Every rotation has the window: one atomic step, the return of the first
      old secret, closes the way for every later recovery, and all other old
      secrets are missing from their places then. */
  lemma SecondCrashStopsARotation(
    ops: seq<Operation>, base: Tree, env: Option<Node>, companion: Path, b: nat, i: nat, valid: Validator)
    requires Shape(ops, base, valid) && b < |ops| && i < |ops| && Paired(ops, b, i)
    requires forall c :: 0 <= c < |ops| && ops[c].Backup? ==> c <= b
    requires forall c :: 0 <= c < |ops| && ops[c].EnvReplace? ==>
               BeforeState(env, ops[c].change) && BeforeDigest(ops[c].change) != Some(ops[c].change.after.digest)
    ensures var j, k, e := ComeTo(ops, base, env, b, false), ComeTo(ops, base, env, b, true), Still(env);
            && Recoverable(j, e, valid) && (CompanionPrivate(j.tree, companion) ==> !Blocked(j, e, companion))
            && Reverse(ops[b], j.tree, valid) == Some(k.tree)
            && Recoverable(k, e, valid) && Blocked(k, e, companion) && RotationWindow(k)
            && ops[b].active in base && Lookup(k.tree, ops[b].active) == Some(base[ops[b].active])
            && (forall c :: 0 <= c < |ops| && ops[c].Backup? && c != b ==>
                  ops[c].active in base && ops[c].active !in k.tree
                  && Lookup(k.tree, ops[c].backup) == Some(base[ops[c].active]))
  {
    var j, k, e := ComeTo(ops, base, env, b, false), ComeTo(ops, base, env, b, true), Still(env);
    ComeToIsRecoverable(ops, base, env, b, valid);
    PublishedIsEarlier(ops, b, i);
    hide Shape, Reverse, ManifestOf, Image, Recoverable, RotationWindow, Undoing, UnfinishedPublication;
    assert Undoing(j, e, valid)
        && Undoing(k, e, valid) by { RecoverableIsUndoing(j, e, valid); RecoverableIsUndoing(k, e, valid); }
    WindowExactly(j, e, valid);
    WindowExactly(k, e, valid);
    WindowLeaves(k, e, valid);
    SecretsConserved(k, e, b, valid);
    NothingUnfinished(j, e);
    TornIsNotExact(j);
    forall c | 0 <= c < |ops| && ops[c].Backup? && c != b
      ensures c in Later(ops, b)
    {
      assert Before(ops, b, c);
    }
  }

  lemma PublishedIsEarlier(ops: seq<Operation>, b: nat, i: nat)
    requires b < |ops| && i < |ops| && Paired(ops, b, i)
    ensures i in Earlier(ops, b) && b !in Later(ops, b)
  {
  }

  lemma RecoverableIsUndoing(j: Journal, e: EnvState, valid: Validator)
    requires Recoverable(j, e, valid)
    ensures Undoing(j, e, valid)
  {
  }

  lemma NothingUnfinished(j: Journal, e: EnvState)
    requires e.forward.None?
    ensures !UnfinishedPublication(j, e)
  {
  }

  const COMPANION: Path := ["companion"]
  const ACTIVE: Path := ["secrets", "key"]
  const BACKUP: Path := ["companion", "backup", "key"]
  const STAGING: Path := ["companion", "staging", "key"]

  function Directories(): Tree {
    var d := Node(0, Directory, 0, Authority(PRIVATE_DIR, 0, 0));
    map[[] := d, ["secrets"] := d, ["companion"] := d, ["companion", "backup"] := d, ["companion", "staging"] := d]
  }

  function Rotated(mode: nat): Tree {
    Directories()[ACTIVE := Node(1, Regular, 1, Authority(mode, 0, 0))][STAGING :=
        Node(2, Regular, 2, Authority(PRIVATE_FILE, 0, 0))]
  }

  function Rotation(mode: nat): seq<Operation> {
    [Backup(ACTIVE, BACKUP, Authority(mode, 0, 0)), Publish(STAGING, ACTIVE, Authority(PRIVATE_FILE, 0, 0))]
  }

  /** Nothing of the environment file is involved in these examples. */
  const STILL: EnvState := EnvState(None, false, None, None, None, None, None, 0)

  const ACCEPT_ALL: Validator := (p, d) => true

  lemma RotatedIsClosed(mode: nat)
    ensures ParentClosed(Rotated(mode))
  {
    assert Parent(ACTIVE) == ["secrets"] && Parent(STAGING) == ["companion", "staging"];
    assert Parent(["companion", "backup"]) == Parent(["companion", "staging"]) == ["companion"];
    assert Parent(["secrets"]) == Parent(["companion"]) == [];
  }

  lemma RotationIsSound(mode: nat)
    ensures var ops, base := Rotation(mode), Rotated(mode);
            Paired(ops, 0, 1) && Sound(ops, 0, base, ACCEPT_ALL) && Sound(ops, 1, base, ACCEPT_ALL)
            && Sound(ops[..1], 0, base, ACCEPT_ALL)
  {
    var ops, base := Rotation(mode), Rotated(mode);
    assert Parent(BACKUP) == ["companion", "backup"] && Parent(ACTIVE) == ["secrets"];
    assert Paired(ops, 0, 1);
  }

  lemma RotationIsPlanned(mode: nat)
    ensures Shape(Rotation(mode), Rotated(mode), ACCEPT_ALL) && Shape(Rotation(mode)[..1], Rotated(mode), ACCEPT_ALL)
  {
    RotatedIsClosed(mode);
    RotationIsSound(mode);
    hide ParentClosed, Rotated, Sound, Enabled;
  }

  // ----- A secret that is not private ----------------------------------------------------------

  /** A backed-up secret of mode 0644 keeps its journal from being reopened,
      although rolling back without reopening would give it back. */
  lemma PublicSecretStopsReopening()
    ensures var ops, base := Rotation(0x1A4), Rotated(0x1A4);
            Shape(ops, base, ACCEPT_ALL) && CompanionPrivate(base, COMPANION)
            && !CompanionPrivate(Image(ops, base, {0}, 2), COMPANION)
            && UndoAll(ops, Image(ops, base, {0}, 2), [1, 0], {0}, ACCEPT_ALL) == Some(base)
  {
    var ops, base := Rotation(0x1A4), Rotated(0x1A4);
    RotationIsPlanned(0x1A4);
    assert !Within(ACTIVE, COMPANION) by { assert ACTIVE[0] != COMPANION[0]; }
    assert Image(ops, base, {0}, 0) == base;
    assert Image(ops, base, {0}, 1) == Apply(ops[0], base);
    assert BACKUP in Image(ops, base, {0}, 2) && Within(BACKUP, COMPANION);
    UndoAllRestores(ops, base, [1, 0], {0}, ACCEPT_ALL);
  }

  /** A committed journal with this companion. */
  function Committed(contents: Tree): Cleanup.Remains {
    Cleanup.Remains(Phase.Committed, false, false, map[], Some(map[]), Some(contents), None, false, None, false, None)
  }

  /** After the commit the same secret keeps its companion from being deleted:
      the scan fails before cleanup has begun. */
  lemma PublicSecretStopsCleanup()
    ensures var committed := Image(Rotation(0x1A4), Rotated(0x1A4), {0, 1}, 2);
            var s := Committed(FinalTree.Holdings(committed, COMPANION));
            CompanionPrivate(Rotated(0x1A4), COMPANION) && Cleanup.CommittedCleanup(s)
            && Cleanup.Scan(s) == Cleanup.Error
            && Lookup(s.companion.value, ["backup", "key"]) == Some(Rotated(0x1A4)[ACTIVE])
  {
    var base, committed := Rotated(0x1A4), Image(Rotation(0x1A4), Rotated(0x1A4), {0, 1}, 2);
    RotationInPlace();
    hide Image, Rotated, FinalTree.Holdings, CompanionPrivate;
    FinalTree.HoldingsAt(committed, COMPANION, ["backup", "key"]);
    FinalTree.HoldingsAt(committed, COMPANION, Cleanup.STAGING);
    FinalTree.HoldingsAt(committed, COMPANION, Cleanup.BACKUP);
    assert COMPANION + ["backup", "key"] == BACKUP;
    assert COMPANION + Cleanup.STAGING == ["companion", "staging"]
        && COMPANION + Cleanup.BACKUP == ["companion", "backup"];
  }

  lemma RotationInPlace()
    ensures var base, committed := Rotated(0x1A4), Image(Rotation(0x1A4), Rotated(0x1A4), {0, 1}, 2);
            CompanionPrivate(base, COMPANION) && Lookup(committed, BACKUP) == Some(base[ACTIVE])
            && !IsPrivate(base[ACTIVE])
            && ["companion", "staging"] in committed && ["companion", "backup"] in committed
  {
    var ops, base := Rotation(0x1A4), Rotated(0x1A4);
    assert !Within(ACTIVE, COMPANION) by { assert ACTIVE[0] != COMPANION[0]; }
    assert Image(ops, base, {0, 1}, 0) == base;
    assert Image(ops, base, {0, 1}, 1) == Apply(ops[0], base);
    assert Image(ops, base, {0, 1}, 2) == Apply(ops[1], Apply(ops[0], base));
  }

  // ----- A torn intent -----------------------------------------------------------------------------

  /** Between the two records of an intent the manifest is one entry ahead: a
      rollback that does not reopen its journal refuses it. */
  lemma TornIntentStopsRollback(j: Journal, e: EnvState, op: Operation, valid: Validator)
    requires MayRecord(j, e, op, valid) && ManifestExact(j)
    ensures var k := j.(manifest := j.manifest + [UndoEntryFor(|j.ops|, op)]);
            Running(k, e, valid) && Refusing(k, e) && ManifestTorn(k) && !Refusing(j, e)
  {
    IntentTorn(j, e, op, valid);
    RunningIsRecoverable(j, e, valid);
    assert !UnfinishedPublication(j, e) by {
      assert e.forward.None?;
    }
  }

  /** If that rollback goes on record before power is lost, the journal can
      never be opened again, although it could have been a step earlier; the
      disk stays where the run stopped. */
  lemma TornIntentIsStranded(j: Journal, e: EnvState, op: Operation, companion: Path, valid: Validator)
    requires MayRecord(j, e, op, valid) && ManifestExact(j) && CompanionPrivate(j.tree, companion)
    ensures var k := j.(manifest := j.manifest + [UndoEntryFor(|j.ops|, op)]); var l := k.(phase := RollbackInProgress);
            Recoverable(k, e, valid) && !Blocked(k, e, companion)
            && Recoverable(l, e, valid) && Stranded(l) && Blocked(l, e, companion) && l.phase != RollbackFailed
               && l.tree == j.tree
  {
    IntentTorn(j, e, op, valid);
    var k := j.(manifest := j.manifest + [UndoEntryFor(|j.ops|, op)]);
    RunningIsRecoverable(k, e, valid);
    PhaseIrrelevant(k, RollbackInProgress, e, valid);
    TornIntentStopsRollback(j, e, op, valid);
    hide Undoing, MayRecord, CompanionPrivate, Running, UnfinishedPublication;
    assert !UnfinishedPublication(k, e) by { NothingPublished(k, e, valid); }
  }

  lemma NothingPublished(j: Journal, e: EnvState, valid: Validator)
    requires Settled(j, e)
    ensures !UnfinishedPublication(j, e)
  {
  }

  /** Where a rotation stands when everything is staged and nothing is done. */
  function RotationStaged(): Journal {
    Journal(BackingUp, [], {}, [], {}, {}, EnvBackup(true, None, None), Rotated(PRIVATE_FILE), Rotated(PRIVATE_FILE),
        None, {})
  }

  /** An input for the two results above: the first intent of a rotation. */
  lemma FirstIntentOfARotation()
    ensures MayRecord(RotationStaged(), STILL, Rotation(PRIVATE_FILE)[0], ACCEPT_ALL) && ManifestExact(RotationStaged())
    ensures CompanionPrivate(RotationStaged().tree, COMPANION)
  {
    var j, op := RotationStaged(), Rotation(PRIVATE_FILE)[0];
    RotationIsPlanned(PRIVATE_FILE);
    RotatedIsClosed(PRIVATE_FILE);
    StagedIsPrivate();
    hide ParentClosed, Rotated, Sound, CompanionPrivate;
    assert j.ops + [op] == Rotation(PRIVATE_FILE)[..1];
    assert Image([], j.base, {}, 0) == j.tree;
    hide Image;
  }

  lemma StagedIsPrivate()
    ensures CompanionPrivate(Rotated(PRIVATE_FILE), COMPANION)
  {
    assert ACTIVE[0] != COMPANION[0];
  }

  // ----- A forward candidate left unfinished -------------------------------------------------------

  /** Created but not yet written, the candidate is not recognised. */
  lemma UnfinishedCandidateStopsRecovery()
    ensures var change := EnvChange(None, EnvContent(5, Authority(PRIVATE_FILE, 0, 0)));
            var e := STILL.(staged := Some(Node(0, Regular, EMPTY, change.after.auth)),
                forward := Some(ForwardPreparing(None)), nextId := 1);
            Publishing(change, e) && UnfinishedCandidate(change, e)
            && ForwardVerdict(change, e.forward.value, e.env, e.staged) == None
  {
  }
}
