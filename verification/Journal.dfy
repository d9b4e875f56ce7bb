/** The durable state of a deployment transaction and what is always true of it. */
module Journal {
  import opened Wrappers
  import opened Disk
  import opened Operations
  import opened Environment

  datatype Phase =
    | Planned | Staging | Staged | BackingUp | BackupComplete | PublishingSecrets | SecretsPublished
    | Verifying | Verified | EnvCommitting | EnvCommitted | Committed | CommittedCleanupRequired
    | RollbackInProgress | RollbackComplete | RollbackCleanupRequired | RollbackFailed

  predicate IsCommitted(phase: Phase) {
    phase.Committed? || phase.CommittedCleanupRequired?
  }

  predicate IsRolledBack(phase: Phase) {
    phase.RollbackComplete? || phase.RollbackCleanupRequired?
  }

  predicate IsForward(phase: Phase) {
    !IsCommitted(phase) && !IsRolledBack(phase) && !phase.RollbackInProgress? && !phase.RollbackFailed?
  }

  /** What the undo manifest says of one operation. */
  datatype UndoEntry = UndoEntry(
    sequence: nat, action: Operation, path: Option<Path>, original: Option<Authority>, backupName: Option<string>)

  function NameOf(p: Path): Option<string> {
    if p == [] then None else Some(p[|p| - 1])
  }

  function UndoEntryFor(i: nat, op: Operation): UndoEntry {
    match op
    case Mkdir(p, _) => UndoEntry(i, op, Some(p), None, None)
    case Chmod(p, _, before, _, uid, gid) => UndoEntry(i, op, Some(p), Some(Authority(before, uid, gid)), None)
    case Backup(a, b, auth) => UndoEntry(i, op, Some(a), Some(auth), NameOf(b))
    case Publish(_, a, _) => UndoEntry(i, op, Some(a), None, None)
    case Unlink(p, b, auth) => UndoEntry(i, op, Some(p), Some(auth), NameOf(b))
    case EnvReplace(change) =>
      match change.before
      case Some(before) => UndoEntry(i, op, None, Some(before.auth), Some("env-backup"))
      case None => UndoEntry(i, op, None, None, None)
  }

  function ManifestOf(ops: seq<Operation>): seq<UndoEntry> {
    seq(|ops|, i requires 0 <= i < |ops| => UndoEntryFor(i, ops[i]))
  }

  /** The saved copy of the environment file and its metadata. */
  datatype EnvBackup = EnvBackup(ready: bool, digest: Option<nat>, stored: Option<nat>)

  function BeforeDigest(change: EnvChange): Option<nat> {
    match change.before
    case Some(c) => Some(c.digest)
    case None => None
  }

  /** A stored copy is the one the metadata names. */
  predicate Coherent(b: EnvBackup) {
    if b.ready then b.stored == b.digest else b.stored.Some? && b.digest.Some? ==> b.stored == b.digest
  }

  /** The saved copy agrees with what an operation recorded. */
  predicate SavedFor(b: EnvBackup, change: EnvChange) {
    b == EnvBackup(true, BeforeDigest(change), BeforeDigest(change))
  }

  /** The durable cells of a journal, the managed tree, and, for the statements
      below, where the run started (`base`, `envBase`) and which operations have
      their effect on disk (`executed`).  `finished` holds the operations whose
      recorded status is done. */
  datatype Journal = Journal(
    phase: Phase, ops: seq<Operation>, finished: set<nat>, manifest: seq<UndoEntry>,
    rollbackDone: set<nat>, rollbackIntents: set<nat>, envBackup: EnvBackup,
    tree: Tree, base: Tree, envBase: Option<Node>, executed: set<nat>)

  // ----- What is always true ------------------------------------------------------------

  /** The journal is written ahead: the disk is the starting tree with exactly
      the executed operations applied, all of them on record, and at most the
      last recorded one not yet done. */
  ghost predicate WrittenAhead(j: Journal, valid: Validator) {
    && Shape(j.ops, j.base, valid)
    && Closed(j.ops, j.executed)
    && j.tree == Image(j.ops, j.base, j.executed, |j.ops|)
    && (forall i: nat :: i < |j.ops| - 1 ==> i in j.finished)
    && (forall i :: i in j.finished ==> i < |j.ops|)
    && (forall i: nat :: i < |j.ops| && j.ops[i].EnvReplace? ==> SavedFor(j.envBackup, j.ops[i].change))
    && Coherent(j.envBackup)
  }

  /** How far a rollback has come: what is on record as undone is undone, what
      is undone is on record at least as intended (or never ran), and nothing
      is touched before everything ordered before it is done. */
  ghost predicate Progress(j: Journal) {
    && (forall i :: i in j.rollbackDone || i in j.rollbackIntents ==> i < |j.ops|)
    && (forall i :: i in j.rollbackDone ==> i !in j.executed)
    && (forall i: nat :: i < |j.ops| && i !in j.executed ==>
          i in j.rollbackDone || i in j.rollbackIntents || i !in j.finished)
    && (forall i: nat, k: nat ::
          i < |j.ops| && k < |j.ops| && Before(j.ops, i, k) && (k in j.rollbackDone || k in j.rollbackIntents) ==>
            i in j.rollbackDone)
  }

  /** The environment file with respect to its recorded replacement. */
  ghost predicate EnvTracked(j: Journal, e: EnvState) {
    && Valid(e)
    && (NoEnvironment(j.ops) ==> Quiet(e) && e.env == j.envBase)
    && (forall i: nat :: i < |j.ops| && j.ops[i].EnvReplace? ==> EnvTrackedAt(j, e, i))
  }

  predicate NoEnvironment(list: seq<Operation>) {
    forall k :: 0 <= k < |list| ==> !list[k].EnvReplace?
  }

  predicate EnvTrackedAt(j: Journal, e: EnvState, i: nat)
    requires i < |j.ops| && j.ops[i].EnvReplace?
  {
    var change := j.ops[i].change;
    if e.forward.Some? then
      && Publishing(change, e)
      && i !in j.rollbackDone && i !in j.rollbackIntents && i !in j.finished
      && (i in j.executed <==> IsFile(e.env, None, change.after))
    else
      && Restorable(change, e)
      && (i in j.executed <==> e.rollback.Some? || IsFile(e.env, None, change.after))
      && (e.rollback.Some? ==> i in j.rollbackIntents)
      && (i !in j.executed ==> BeforeState(e.env, change))
  }

  /** Every state a rollback can start from, or be interrupted in. */
  ghost predicate Undoing(j: Journal, e: EnvState, valid: Validator) {
    WrittenAhead(j, valid) && EnvTracked(j, e) && Progress(j)
  }

  predicate ManifestExact(j: Journal) {
    j.manifest == ManifestOf(j.ops)
  }

  /** An intent was interrupted between its two records. */
  predicate ManifestTorn(j: Journal) {
    |j.manifest| == |j.ops| + 1 && j.manifest[..|j.ops|] == ManifestOf(j.ops) && j.manifest[|j.ops|].sequence == |j.ops|
  }

  /** Every state a forward run can be interrupted in once its journal exists. */
  ghost predicate Running(j: Journal, e: EnvState, valid: Validator) {
    && Undoing(j, e, valid) && j.rollbackDone == {} && j.rollbackIntents == {}
    && (ManifestExact(j) || ManifestTorn(j)) && IsForward(j.phase)
  }

  /** Every recorded operation is done, and done on record. */
  ghost predicate Settled(j: Journal, e: EnvState) {
    (forall i: nat :: i < |j.ops| ==> i in j.finished && i in j.executed) && e.forward.None? && e.rollback.None?
  }

  /** Everything is as before the first operation. */
  ghost predicate RolledBack(j: Journal, e: EnvState) {
    && j.tree == j.base && j.executed == {} && Quiet(e)
    && (forall i: nat :: i < |j.ops| ==> i in j.rollbackDone)
    && (forall i: nat :: i < |j.ops| && j.ops[i].EnvReplace? ==> BeforeState(e.env, j.ops[i].change))
    && (NoEnvironment(j.ops) ==> e.env == j.envBase)
  }

  /** Everything ordered before operation `i` is on record as undone. */
  ghost predicate Reached(ops: seq<Operation>, done: set<nat>, i: nat)
    requires i < |ops|
  {
    forall k: nat :: k < |ops| && Before(ops, k, i) ==> k in done
  }

  /** A rotated secret is back at its active path while its publication is on
      record as undone: a resumed rollback refuses this state. */
  predicate RotationWindow(j: Journal) {
    exists i :: i in j.rollbackDone && i < |j.ops| && j.ops[i].Publish? && j.ops[i].active in j.tree
  }

  /** A publication of the environment file stopped where recovery refuses it. */
  predicate UnfinishedPublication(j: Journal, e: EnvState) {
    exists i: nat :: i < |j.ops| && j.ops[i].EnvReplace? && UnfinishedCandidate(j.ops[i].change, e)
  }

  /** The manifest names exactly one object at the path of an unlink. */
  predicate UniqueUndoEntry(manifest: seq<UndoEntry>, p: Path) {
    exists k | 0 <= k < |manifest| ::
      manifest[k].path == Some(p)
      && forall l | 0 <= l < |manifest| :: manifest[l].path == Some(p) ==> l == k
  }

  /** Nothing of the tree is left to undo. */
  ghost predicate TreeUndone(j: Journal) {
    forall k :: k in j.executed && k < |j.ops| ==> j.ops[k].EnvReplace?
  }

  /** The tree is the starting one exactly if nothing of it is left to undo. */
  lemma StartingAgain(j: Journal, e: EnvState, valid: Validator)
    requires Undoing(j, e, valid)
    ensures j.tree == j.base <==> TreeUndone(j)
  {
    StartingTree(j.ops, j.base, j.executed, valid);
  }

  lemma ExecutedAreRecorded(j: Journal, e: EnvState, valid: Validator)
    requires Undoing(j, e, valid)
    ensures forall k :: k in j.executed ==> k < |j.ops|
  {
  }

  // ----- Steps of a rollback ----------------------------------------------------------------

  lemma ManifestNamesUnlinkOnce(j: Journal, i: nat, valid: Validator)
    requires ManifestExact(j) && Shape(j.ops, j.base, valid) && i < |j.ops| && j.ops[i].Unlink?
    ensures UniqueUndoEntry(j.manifest, j.ops[i].path)
    ensures forall l :: 0 <= l < |j.manifest| ==> (j.manifest[l].path == Some(j.ops[i].path) <==> l == i)
  {
    var p := j.ops[i].path;
    assert p in Footprint(j.ops[i]);
    assert j.manifest[i].path == Some(p);
    forall l | 0 <= l < |j.manifest| && j.manifest[l].path == Some(p)
      ensures l == i
    {
      assert p in Footprint(j.ops[l]);
    }
  }

  /** The manifest has one entry for each operation, with its number; of an object
      that the run found at its path the entry has the mode, owner and group it
      was found with, and nothing of any other. */
  lemma ManifestRecordsOriginals(j: Journal, i: nat, valid: Validator)
    requires ManifestExact(j) && Shape(j.ops, j.base, valid) && i < |j.ops|
    ensures |j.manifest| == |j.ops| && j.manifest[i].sequence == i && j.manifest[i].action == j.ops[i]
    ensures j.manifest[i].path.Some?
            && (j.ops[i].Publish? ==> forall k :: 0 <= k < |j.ops| ==> !Paired(j.ops, k, i)) ==>
              j.manifest[i].original ==
              var p := j.manifest[i].path.value; if p in j.base then Some(j.base[p].auth) else None
    ensures j.ops[i].Backup? || j.ops[i].Unlink? ==>
              j.ops[i].backup == [] || j.manifest[i].backupName == Some(j.ops[i].backup[|j.ops[i].backup| - 1])
  {
    assert Sound(j.ops, i, j.base, valid);
    if exists k :: 0 <= k < |j.ops| && Paired(j.ops, k, i) {
      assert j.ops[i].Publish?;
    }
  }

  /** Before the environment file's replacement is on record, and as long as it
      is, there is a complete copy of what the file held. */
  lemma CopyIsKept(j: Journal, i: nat, valid: Validator)
    requires WrittenAhead(j, valid) && i < |j.ops| && j.ops[i].EnvReplace?
    ensures j.envBackup.ready
    ensures j.envBackup.stored ==
            match j.ops[i].change.before
            case None => None
            case Some(content) => Some(content.digest)
  {
  }

  /** While operation `i` is untouched, a backup it is paired with still is
      executed; once all before it are undone, nothing that depends on it is. */
  lemma DependenciesStand(j: Journal, i: nat, valid: Validator)
    requires WrittenAhead(j, valid) && Progress(j) && i < |j.ops| && i !in j.rollbackDone
    ensures forall b :: 0 <= b < |j.ops| && Paired(j.ops, b, i) ==> b in j.executed
    ensures Reached(j.ops, j.rollbackDone, i) ==> forall k :: k in j.executed && k < |j.ops| ==>
            !Paired(j.ops, i, k) && !Nested(j.ops[i], j.ops[k])
  {
    forall b | 0 <= b < |j.ops| && Paired(j.ops, b, i)
      ensures b in j.executed
    {
      assert Before(j.ops, i, b);
    }
  }

  /** What the disk shows of an operation that is next to be undone. */
  lemma ObservedState(j: Journal, e: EnvState, i: nat, valid: Validator)
    requires Undoing(j, e, valid) && i < |j.ops| && i !in j.rollbackDone && Reached(j.ops, j.rollbackDone, i)
    requires j.ops[i].EnvReplace? ==> e.forward.None? && e.rollback.None?
    ensures Classify(j.ops[i], j.tree, e.env, valid) == if i in j.executed then Executed else NotExecuted
    ensures ReverseStateSafe(j.ops[i], j.tree, e.env, valid) <==> i !in j.executed
  {
    if j.ops[i].EnvReplace? {
      assert EnvTrackedAt(j, e, i) && Sound(j.ops, i, j.base, valid);
    } else {
      DependenciesStand(j, i, valid);
      if i in j.executed {
        UndoStep(j.ops, j.base, j.executed, i, valid);
      } else {
        NotRunIsSafe(j.ops, j.base, j.executed, i, valid);
      }
    }
  }

  /** Putting the undo of an executed operation on record. */
  lemma IntentKept(j: Journal, e: EnvState, i: nat, valid: Validator)
    requires Undoing(j, e, valid) && i < |j.ops| && i in j.executed && Reached(j.ops, j.rollbackDone, i)
    requires j.ops[i].EnvReplace? ==> e.forward.None?
    ensures Undoing(j.(rollbackIntents := j.rollbackIntents + {i}), e, valid)
  {
  }

  /** Recording an operation that is not (or no longer) executed as undone. */
  lemma DoneKept(j: Journal, e: EnvState, i: nat, valid: Validator)
    requires Undoing(j, e, valid) && i < |j.ops| && i !in j.executed && Reached(j.ops, j.rollbackDone, i)
    requires j.ops[i].EnvReplace? ==> e.forward.None?
    ensures Undoing(j.(rollbackDone := j.rollbackDone + {i}), e, valid)
    ensures Undoing(j.(rollbackDone := j.rollbackDone + {i}, rollbackIntents := j.rollbackIntents - {i}), e, valid)
  {
    assert j.ops[i].EnvReplace? ==> EnvTrackedAt(j, e, i);
  }

  /** Reversing an operation of the tree, once that is on record as intended. */
  lemma ReversalKept(j: Journal, e: EnvState, i: nat, valid: Validator)
    requires Undoing(j, e, valid) && ManifestExact(j) && i < |j.ops| && !j.ops[i].EnvReplace?
    requires i in j.executed && i in j.rollbackIntents && Reached(j.ops, j.rollbackDone, i)
    ensures Reverse(j.ops[i], j.tree, valid).Some?
    ensures Undoing(j.(tree := Reverse(j.ops[i], j.tree, valid).value, executed := j.executed - {i}), e, valid)
    ensures j.ops[i].Unlink? ==> UniqueUndoEntry(j.manifest, j.ops[i].path)
  {
    DependenciesStand(j, i, valid);
    UndoStep(j.ops, j.base, j.executed, i, valid);
    if j.ops[i].Unlink? { ManifestNamesUnlinkOnce(j, i, valid); }
    hide Shape, Reverse, Image, Reached, ManifestOf;
    var k := j.(tree := Reverse(j.ops[i], j.tree, valid).value, executed := j.executed - {i});
    assert WrittenAhead(k, valid) && Progress(k);
    forall n: nat | n < |k.ops| && k.ops[n].EnvReplace?
      ensures EnvTrackedAt(k, e, n)
    {
      assert EnvTrackedAt(j, e, n);
    }
  }

  lemma EnvironmentIsAlone(ops: seq<Operation>, base: Tree, i: nat, valid: Validator)
    requires Shape(ops, base, valid) && i < |ops| && ops[i].EnvReplace?
    ensures forall k: nat :: k < |ops| && ops[k].EnvReplace? ==> k == i
    ensures Enabled(ops[i], base, valid)
  {
    assert Sound(ops, i, base, valid);
  }

  /** Restoring the environment file: still to be undone while interrupted,
      no longer executed once restored. */
  lemma RestorationKept(j: Journal, e: EnvState, f: EnvState, i: nat, valid: Validator)
    requires Undoing(j, e, valid) && i < |j.ops| && j.ops[i].EnvReplace? && i in j.executed && i in j.rollbackIntents
    requires e.forward.None? && Restorable(j.ops[i].change, f)
    ensures f.rollback.Some? || (f.env == e.env && e.rollback.None?) ==> Undoing(j, f, valid)
    ensures Restored(j.ops[i].change, f) ==> Undoing(j.(executed := j.executed - {i}), f, valid)
  {
    EnvironmentIsAlone(j.ops, j.base, i, valid);
    ImageWithoutEnv(j.ops, j.base, j.executed, |j.ops|, i);
    assert EnvTrackedAt(j, e, i);
    assert Closed(j.ops, j.executed - {i});
  }

  /** Settling an interrupted publication changes nothing for the rollback. */
  lemma ResolutionKept(j: Journal, e: EnvState, f: EnvState, i: nat, valid: Validator)
    requires Undoing(j, e, valid) && i < |j.ops| && j.ops[i].EnvReplace? && e.forward.Some?
    requires Publishing(j.ops[i].change, f) && f.env == e.env
    ensures Undoing(j, f, valid)
  {
    EnvironmentIsAlone(j.ops, j.base, i, valid);
    assert EnvTrackedAt(j, e, i);
  }

  /** An operation on record as undone passes its check unless it publishes a
      secret whose backup has been undone as well. */
  lemma CompletedCheck(j: Journal, e: EnvState, i: nat, valid: Validator)
    requires Undoing(j, e, valid) && e.forward.None? && i in j.rollbackDone
    ensures ReverseStateSafe(j.ops[i], j.tree, e.env, valid) ==
              (forall b :: 0 <= b < |j.ops| && Paired(j.ops, b, i) ==> b in j.executed)
    ensures (j.ops[i].Publish? && j.ops[i].active in j.tree) == !ReverseStateSafe(j.ops[i], j.tree, e.env, valid)
  {
    if j.ops[i].EnvReplace? {
      assert Sound(j.ops, i, j.base, valid) && EnvTrackedAt(j, e, i);
    } else if b :| 0 <= b < |j.ops| && Paired(j.ops, b, i) && b !in j.executed {
      EnabledInImage(j.ops, j.base, j.executed, b, valid);
    } else {
      NotRunIsSafe(j.ops, j.base, j.executed, i, valid);
    }
  }

  lemma AllUndone(j: Journal, e: EnvState, valid: Validator)
    requires Undoing(j, e, valid) && e.forward.None? && forall i: nat :: i < |j.ops| ==> i in j.rollbackDone
    ensures RolledBack(j, e)
  {
    assert j.executed == {} by {
      assert forall i :: i in j.executed ==> i < |j.ops|;
    }
    ImageOfNone(j.ops, j.base, j.executed, |j.ops|);
    forall i: nat | i < |j.ops| && j.ops[i].EnvReplace?
      ensures Quiet(e) && BeforeState(e.env, j.ops[i].change)
    {
      assert EnvTrackedAt(j, e, i) && Sound(j.ops, i, j.base, valid);
    }
  }

  // ----- The order of a resumed rollback ----------------------------------------------------

  lemma OrderReaches(j: Journal, order: seq<nat>, at: nat)
    requires OrderedForRollback(j.ops, order) && at < |order|
    requires forall l :: 0 <= l < at ==> order[l] in j.rollbackDone
    ensures order[at] < |j.ops| && Reached(j.ops, j.rollbackDone, order[at])
  {
    forall k: nat | k < |j.ops| && Before(j.ops, k, order[at])
      ensures k in j.rollbackDone
    {
      assert k in order;
      var m :| 0 <= m < |order| && order[m] == k;
    }
  }

  /** Publications on record as undone, from position `at` of the order on, all
      still have their backups to be undone. */
  ghost predicate NoWindowFrom(j: Journal, order: seq<nat>, at: nat)
    requires OrderedForRollback(j.ops, order)
  {
    forall l, b :: at <= l < |order| && order[l] in j.rollbackDone && 0 <= b < |j.ops| && Paired(j.ops, b, order[l]) ==>
      b in j.executed
  }

  lemma NoWindowAhead(j: Journal, e: EnvState, order: seq<nat>, valid: Validator)
    requires Undoing(j, e, valid) && e.forward.None? && OrderedForRollback(j.ops, order) && !RotationWindow(j)
    ensures NoWindowFrom(j, order, 0)
  {
    forall l, b | 0 <= l < |order| && order[l] in j.rollbackDone && 0 <= b < |j.ops| && Paired(j.ops, b, order[l])
      ensures b in j.executed
    {
      CompletedCheck(j, e, order[l], valid);
    }
  }

  /** Undoing one more operation opens no window ahead: a backup is ordered
      after the publication it is paired with. */
  lemma WindowStaysShut(j: Journal, k: Journal, order: seq<nat>, at: nat)
    requires OrderedForRollback(j.ops, order) && at < |order| && NoWindowFrom(j, order, at) && k.ops == j.ops
    requires k.rollbackDone == j.rollbackDone + {order[at]}
    requires k.executed == j.executed || k.executed == j.executed - {order[at]}
    ensures NoWindowFrom(k, order, at + 1)
  {
    forall l, b | at + 1 <= l < |order| && order[l] in k.rollbackDone && 0 <= b < |k.ops| && Paired(k.ops, b, order[l])
      ensures b in k.executed
    {
      assert order[l] != order[at];
      assert Before(j.ops, order[at], order[l]);
    }
  }

  /** The operation a resumed rollback refuses: everything before it is already
      on record as undone. */
  ghost predicate RefusedAt(j: Journal, e: EnvState, order: seq<nat>, stop: nat, valid: Validator)
    requires OrderedForRollback(j.ops, order)
  {
    && stop < |order| && order[stop] in j.rollbackDone && !ReverseStateSafe(j.ops[order[stop]], j.tree, e.env, valid)
    && forall l :: 0 <= l < stop ==> order[l] in j.rollbackDone
  }

  lemma WindowPosition(j: Journal, e: EnvState, order: seq<nat>, valid: Validator) returns (stop: nat)
    requires Undoing(j, e, valid) && e.forward.None? && OrderedForRollback(j.ops, order) && RotationWindow(j)
    ensures RefusedAt(j, e, order, stop, valid)
  {
    var i :| i in j.rollbackDone && i < |j.ops| && j.ops[i].Publish? && j.ops[i].active in j.tree;
    CompletedCheck(j, e, i, valid);
    var b :| 0 <= b < |j.ops| && Paired(j.ops, b, i) && b !in j.executed;
    assert i in order;
    stop :| 0 <= stop < |order| && order[stop] == i;
    forall l | 0 <= l < stop
      ensures order[l] in j.rollbackDone
    {
      assert Before(j.ops, order[l], i) && Before(j.ops, i, b);
      assert Before(j.ops, order[l], b);
    }
  }

  /** The rollback loop about to take turn `at`: everything before is done.
      Either it started in the window and is on its way to the operation it will
      refuse, with nothing changed, or no window lies ahead. */
  ghost predicate InLoop(
    j0: Journal, e0: EnvState, j: Journal, e: EnvState, order: seq<nat>, at: nat, stop: nat, valid: Validator)
    requires OrderedForRollback(j0.ops, order)
  {
    && Undoing(j, e, valid) && e.forward.None? && ManifestExact(j) && j.ops == j0.ops
    && at <= stop <= |order|
    && (forall l :: 0 <= l < at ==> order[l] in j.rollbackDone)
    && if RotationWindow(j0) then j == j0 && e == e0 && RefusedAt(j0, e0, order, stop, valid)
       else stop == |order| && NoWindowFrom(j, order, at)
  }

  lemma LoopStarts(j: Journal, e: EnvState, order: seq<nat>, valid: Validator) returns (stop: nat)
    requires Undoing(j, e, valid) && e.forward.None? && ManifestExact(j) && OrderedForRollback(j.ops, order)
    ensures InLoop(j, e, j, e, order, 0, stop, valid)
  {
    if RotationWindow(j) {
      stop := WindowPosition(j, e, order, valid);
    } else {
      NoWindowAhead(j, e, order, valid);
      stop := |order|;
    }
  }

  lemma LoopTurn(
    j0: Journal, e0: EnvState, j: Journal, e: EnvState, order: seq<nat>, at: nat, stop: nat, valid: Validator)
    requires OrderedForRollback(j0.ops, order) && InLoop(j0, e0, j, e, order, at, stop, valid) && at < |order|
    ensures Undoing(j, e, valid) && e.forward.None? && ManifestExact(j)
    ensures order[at] < |j.ops| && Reached(j.ops, j.rollbackDone, order[at])
    ensures order[at] in j.rollbackDone && !ReverseStateSafe(j.ops[order[at]], j.tree, e.env, valid) ==>
              RotationWindow(j0) && j == j0 && e == e0
  {
    OrderReaches(j, order, at);
    if order[at] in j.rollbackDone { CompletedCheck(j, e, order[at], valid); }
  }

  lemma LoopAdvances(
    j0: Journal, e0: EnvState, j: Journal, e: EnvState, k: Journal, f: EnvState, order: seq<nat>, at: nat, stop: nat,
    valid: Validator)
    requires OrderedForRollback(j0.ops, order) && InLoop(j0, e0, j, e, order, at, stop, valid) && at < |order|
    requires Undoing(k, f, valid) && f.forward.None? && ManifestExact(k) && k.ops == j.ops
    requires k.rollbackDone == j.rollbackDone + {order[at]}
    requires k.executed == j.executed || k.executed == j.executed - {order[at]}
    requires order[at] in j.rollbackDone ==>
             k == j && f == e && ReverseStateSafe(j.ops[order[at]], j.tree, e.env, valid)
    ensures InLoop(j0, e0, k, f, order, at + 1, stop, valid)
  {
    if !RotationWindow(j0) {
      WindowStaysShut(j, k, order, at);
    }
  }

  lemma LoopEnds(
    j0: Journal, e0: EnvState, j: Journal, e: EnvState, order: seq<nat>, stop: nat, valid: Validator)
    requires OrderedForRollback(j0.ops, order) && InLoop(j0, e0, j, e, order, |order|, stop, valid)
    ensures Undoing(j, e, valid) && e.forward.None? && !RotationWindow(j0)
    ensures forall i: nat :: i < |j.ops| ==> i in j.rollbackDone
  {
    forall i: nat | i < |j.ops|
      ensures i in j.rollbackDone
    {
      assert i in order;
    }
  }

  // ----- Steps of a forward run ----------------------------------------------------------------

  lemma ManifestGrows(ops: seq<Operation>, op: Operation)
    ensures ManifestOf(ops + [op]) == ManifestOf(ops) + [UndoEntryFor(|ops|, op)]
  {
  }

  /** What an operation's intent presupposes. */
  ghost predicate MayRecord(j: Journal, e: EnvState, op: Operation, valid: Validator) {
    && Running(j, e, valid) && Settled(j, e) && Shape(j.ops + [op], j.base, valid)
    && (op.EnvReplace? ==> NoEnvironment(j.ops) && BeforeState(e.env, op.change) && SavedFor(j.envBackup, op.change))
  }

  lemma IntentTorn(j: Journal, e: EnvState, op: Operation, valid: Validator)
    requires MayRecord(j, e, op, valid) && ManifestExact(j)
    ensures MayRecord(j.(manifest := j.manifest + [UndoEntryFor(|j.ops|, op)]), e, op, valid)
  {
  }

  lemma IntentRecorded(j: Journal, e: EnvState, op: Operation, valid: Validator)
    requires MayRecord(j, e, op, valid) && j.manifest == ManifestOf(j.ops) + [UndoEntryFor(|j.ops|, op)]
    ensures var k := j.(ops := j.ops + [op]);
            Running(k, e, valid) && ManifestExact(k) && |j.ops| !in k.executed && |j.ops| !in k.finished
  {
    IntentWritten(j, e, op, valid);
    IntentTracked(j, e, op, valid);
    ManifestGrows(j.ops, op);
    hide WrittenAhead, EnvTracked, Progress, ManifestOf;
  }

  lemma IntentWritten(j: Journal, e: EnvState, op: Operation, valid: Validator)
    requires MayRecord(j, e, op, valid)
    ensures var k := j.(ops := j.ops + [op]);
            WrittenAhead(k, valid) && Progress(k) && |j.ops| !in k.executed && |j.ops| !in k.finished
  {
    JournalGrows(j.ops, op, j.base, j.executed, valid);
    hide Shape, Image;
    assert |j.ops| !in j.executed && |j.ops| !in j.finished;
  }

  lemma IntentTracked(j: Journal, e: EnvState, op: Operation, valid: Validator)
    requires MayRecord(j, e, op, valid)
    ensures EnvTracked(j.(ops := j.ops + [op]), e)
  {
    var k, n := j.(ops := j.ops + [op]), |j.ops|;
    if op.EnvReplace? {
      EnvironmentIsAlone(k.ops, k.base, n, valid);
      assert EnvTrackedAt(k, e, n);
    } else {
      assert NoEnvironment(k.ops) ==> NoEnvironment(j.ops) by {
        assert forall i :: 0 <= i < n ==> k.ops[i] == j.ops[i];
      }
      forall i: nat | i < |k.ops| && k.ops[i].EnvReplace?
        ensures EnvTrackedAt(k, e, i)
      {
        assert EnvTrackedAt(j, e, i);
      }
    }
  }

  /** The last recorded operation is about to run, everything before it has. */
  ghost predicate MayRun(j: Journal, e: EnvState, valid: Validator) {
    && Running(j, e, valid) && ManifestExact(j) && |j.ops| > 0 && e.forward.None? && e.rollback.None?
    && |j.ops| - 1 !in j.executed && |j.ops| - 1 !in j.finished
    && (forall k: nat :: k < |j.ops| - 1 ==> k in j.executed)
  }

  lemma MutationKept(j: Journal, e: EnvState, valid: Validator)
    requires MayRun(j, e, valid) && !j.ops[|j.ops| - 1].EnvReplace?
    ensures var op := j.ops[|j.ops| - 1];
            Enabled(op, j.tree, valid)
            && (op.Mkdir? ==> op.path != [] && IsDirectory(j.tree, Parent(op.path)))
            && Running(j.(tree := Apply(op, j.tree), executed := j.executed + {|j.ops| - 1}), e, valid)
  {
    var n := |j.ops| - 1;
    var before, op := j.ops[..n], j.ops[n];
    assert before + [op] == j.ops;
    assert Closed(before, j.executed);
    JournalGrows(before, op, j.base, j.executed, valid);
    if op.Mkdir? { ParentStands(before, op, j.base, j.executed, valid); }
    var k := j.(tree := Apply(op, j.tree), executed := j.executed + {n});
    assert WrittenAhead(k, valid);
    forall i: nat | i < |k.ops| && k.ops[i].EnvReplace?
      ensures EnvTrackedAt(k, e, i)
    {
      assert EnvTrackedAt(j, e, i);
    }
  }

  /** The publication of the environment file: executed as soon as the new file
      stands in its place. */
  lemma PublicationKept(j: Journal, e: EnvState, f: EnvState, valid: Validator)
    requires MayRun(j, e, valid) && j.ops[|j.ops| - 1].EnvReplace? && Publishing(j.ops[|j.ops| - 1].change, f)
    ensures var n := |j.ops| - 1;
            Running(if IsFile(f.env, None, j.ops[n].change.after) then j.(executed := j.executed + {n})
                else j, f, valid)
  {
    var n := |j.ops| - 1;
    EnvironmentIsAlone(j.ops, j.base, n, valid);
    ImageWithoutEnv(j.ops, j.base, j.executed + {n}, |j.ops|, n);
    ImageWithoutEnv(j.ops, j.base, j.executed, |j.ops|, n);
    assert j.executed + {n} - {n} == j.executed - {n};
    var k := if IsFile(f.env, None, j.ops[n].change.after) then j.(executed := j.executed + {n}) else j;
    assert Closed(k.ops, k.executed);
    assert EnvTrackedAt(k, f, n);
  }

  lemma DoneRecorded(j: Journal, e: EnvState, i: nat, valid: Validator)
    requires Running(j, e, valid) && i < |j.ops| && i in j.executed && (e.forward.Some? ==> !j.ops[i].EnvReplace?)
    ensures Running(j.(finished := j.finished + {i}), e, valid)
  {
    var k := j.(finished := j.finished + {i});
    forall n: nat | n < |k.ops| && k.ops[n].EnvReplace?
      ensures EnvTrackedAt(k, e, n)
    {
      assert EnvTrackedAt(j, e, n);
    }
  }

  // ----- Recovery ---------------------------------------------------------------------------------

  /** Every state an uncommitted transaction can be found in. */
  ghost predicate Recoverable(j: Journal, e: EnvState, valid: Validator) {
    && Undoing(j, e, valid) && !IsCommitted(j.phase)
    && (IsRolledBack(j.phase) ==> RolledBack(j, e))
    && (ManifestExact(j) || ManifestTorn(j))
  }

  /** A torn intent that a rollback in the same process did not outlive: with
      the rollback on record nothing repairs the manifest any more. */
  predicate Stranded(j: Journal) {
    ManifestTorn(j) && !IsForward(j.phase)
  }

  lemma RunningIsRecoverable(j: Journal, e: EnvState, valid: Validator)
    requires Running(j, e, valid)
    ensures Recoverable(j, e, valid) && !RotationWindow(j)
  {
  }

  /** No secret is rotated, and what is backed up is private. */
  ghost predicate PlainPlan(ops: seq<Operation>, base: Tree, companion: Path) {
    && (forall i, k :: 0 <= i < |ops| && 0 <= k < |ops| ==> !Paired(ops, i, k))
    && CompanionBoundary(ops, companion) && CompanionPrivate(base, companion)
    && (forall i :: 0 <= i < |ops| && (ops[i].Backup? || ops[i].Unlink?) ==> ops[i].auth.mode == PRIVATE_FILE)
  }

  lemma UnobstructedMeans(j: Journal, e: EnvState, companion: Path, valid: Validator)
    requires Undoing(j, e, valid) && PlainPlan(j.ops, j.base, companion)
    ensures CompanionPrivate(j.tree, companion) && !RotationWindow(j)
  {
    ReopenableWhenPrivate(j.ops, j.base, j.executed, companion, valid);
    if RotationWindow(j) {
      var i :| i in j.rollbackDone && i < |j.ops| && j.ops[i].Publish? && j.ops[i].active in j.tree;
      NotRunIsSafe(j.ops, j.base, j.executed, i, valid);
    }
  }

  lemma RecordsBelong(j: Journal, e: EnvState, i: nat, valid: Validator)
    requires Undoing(j, e, valid) && i <= |j.ops| && (e.rollback.Some? || e.forward.Some?)
    requires if i < |j.ops| then j.ops[i].EnvReplace? else NoEnvironment(j.ops)
    ensures i < |j.ops| && i !in j.rollbackDone && !Quiet(e)
  {
    assert i < |j.ops| ==> EnvTrackedAt(j, e, i);
  }
}
