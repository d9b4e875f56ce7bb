/** Removing what a finished transaction leaves: its journal, its tombstone, its
    companion and the record that says so. */
module Cleanup {
  import opened Wrappers
  import opened Disk
  import opened Operations
  import opened Journal
  import opened Bootstrap

  datatype Receipt = Pending | Complete

  /** A directory's contents, by path below it. */
  predicate AllPrivate(contents: Option<Tree>) {
    contents.Some? ==> forall p :: p in contents.value ==> IsPrivate(contents.value[p])
  }

  /** Some of the contents are gone, none of them refused. */
  predicate Remaining(now: Tree, was: Tree) {
    && (forall p :: p in now ==> p in was && now[p] == was[p])
    && (forall p :: p in was && !IsPrivate(was[p]) ==> p in now)
  }

  /** Everything of one transaction that can be left behind.  `whole` are the
      contents of an intact journal directory, `allUndone` whether every recorded
      operation is on record as undone, `settling` whether the record of the
      bootstrap directories is in preparation or in cleanup. */
  datatype Remains = Remains(
    phase: Phase, allUndone: bool, settling: bool, whole: Tree, root: Option<Tree>, companion: Option<Tree>,
    receipt: Option<Receipt>, metadata: bool, tombstone: Option<Tree>,
    rollbackMetadata: bool, rollbackTombstone: Option<Tree>)

  const STAGING: Path := ["staging"]
  const BACKUP: Path := ["backup"]

  predicate Intact(companion: Option<Tree>) {
    companion.Some? && STAGING in companion.value && BACKUP in companion.value
  }

  /** Whether opening the journal tolerates an incomplete companion. */
  predicate AllowsPartial(s: Remains) {
    s.receipt.Some? || ((IsRolledBack(s.phase) || s.phase.RollbackInProgress?) && s.allUndone) || s.settling
  }

  /** An incomplete companion may be tolerated, one that is not private never is. */
  predicate Openable(s: Remains, journal: Option<Tree>) {
    journal == Some(s.whole) && AllPrivate(s.companion) && (Intact(s.companion) || AllowsPartial(s))
  }

  datatype Finding = Nothing | Incomplete | Error

  /** What the scan of both namespaces, of the history and of the companions
      reports for one transaction. */
  function Scan(s: Remains): Finding {
    var present := s.root.Some?;
    if present && !Openable(s, s.root) then Error
    else if s.rollbackMetadata && present && (s.rollbackTombstone.Some? || !IsRolledBack(s.phase)) then Error
    else if s.metadata && (s.rollbackMetadata || s.receipt.None? || (present && s.tombstone.Some?)) then Error
    else if s.rollbackTombstone.Some? && !s.rollbackMetadata then Error
    else if s.tombstone.Some? && !s.metadata
            && (present || s.rollbackMetadata || !Openable(s, s.tombstone) || s.receipt.None?
               || !IsCommitted(s.phase)) then Error
    else if s.companion.Some? && !present && !s.rollbackMetadata && !s.metadata && s.tombstone.None? then Error
    else if present || s.rollbackMetadata || s.metadata || s.tombstone.Some? then Incomplete
    else Nothing
  }

  /** Nothing is left but, of a committed transaction, its receipt. */
  predicate Clean(s: Remains) {
    s.root.None? && s.companion.None? && s.tombstone.None? && !s.metadata && s.rollbackTombstone.None?
    && !s.rollbackMetadata
  }

  /** Every state of the cleanup after a commit. */
  predicate CommittedCleanup(s: Remains) {
    && IsCommitted(s.phase) && !s.rollbackMetadata && s.rollbackTombstone.None?
    && AllPrivate(Some(s.whole)) && AllPrivate(s.tombstone)
    && (s.root.Some? ==> s.root == Some(s.whole) && s.tombstone.None?)
    && (s.root.None? ==> s.companion.None? && s.receipt == Some(Complete))
    && (s.metadata ==> s.receipt.Some?)
    && (s.tombstone.Some? ==> s.metadata)
    && (!Intact(s.companion) ==> s.receipt.Some?)
    && (s.receipt == Some(Complete) ==> s.companion.None?)
  }

  /** Every state of the cleanup after a rollback. */
  predicate RollbackCleanup(s: Remains) {
    && IsRolledBack(s.phase) && s.allUndone && !s.metadata && s.tombstone.None? && s.receipt.None?
    && AllPrivate(Some(s.whole)) && AllPrivate(s.rollbackTombstone)
    && (s.root.Some? ==> s.root == Some(s.whole) && s.rollbackTombstone.None?)
    && (s.root.None? ==> s.companion.None?)
    && (s.rollbackTombstone.Some? ==> s.rollbackMetadata)
  }

  /** Whatever there is: the scan finds nothing exactly if nothing is left, and of
      what is left it makes sense exactly if each part has what belongs to it. */
  lemma ScanExactly(s: Remains)
    ensures Scan(s) == Nothing <==> Clean(s)
    ensures Scan(s) == Incomplete <==>
            && !Clean(s)
            // An intact journal beside a private companion, moved away at most once.
            && (s.root.Some? ==>
               && s.root.value == s.whole && AllPrivate(s.companion) && (Intact(s.companion) || AllowsPartial(s))
               && (s.rollbackMetadata ==> s.rollbackTombstone.None? && IsRolledBack(s.phase))
               && (s.metadata || s.tombstone.Some? ==> s.metadata && s.tombstone.None?))
            // One kind of cleanup, that of a commit with its receipt.
            && !(s.metadata && s.rollbackMetadata) && (s.metadata ==> s.receipt.Some?)
            && (s.rollbackTombstone.Some? ==> s.rollbackMetadata)
            && (s.tombstone.Some? && !s.metadata ==>
               && s.tombstone.value == s.whole && AllPrivate(s.companion) && (Intact(s.companion) || AllowsPartial(s))
               && s.receipt.Some? && IsCommitted(s.phase) && !s.rollbackMetadata)
            // No companion without a transaction.
            && (s.companion.Some? ==> s.root.Some? || s.tombstone.Some? || s.metadata || s.rollbackMetadata)
  {
  }

  /** At every point of either cleanup the scan reports the transaction, and
      ceases to exactly when nothing is left of it; it fails exactly while the
      companion holds something that is not private. */
  lemma NeverLost(s: Remains)
    requires CommittedCleanup(s) || RollbackCleanup(s)
    ensures Scan(s) == if !AllPrivate(s.companion) then Error else if Clean(s) then Nothing else Incomplete
    ensures s.root.Some? || s.metadata || s.rollbackMetadata || Clean(s)
  {
  }

  /** Once a conflict of the bootstrap directories has been recorded beside the
      cleanup metadata, the scan itself refuses the transaction from then on. */
  lemma FailureBesideMetadataIsRefused(s: Remains)
    requires RollbackCleanup(s) && s.root.Some?
    ensures Scan(s.(phase := RollbackFailed)) == Error
       <==> s.rollbackMetadata || !AllPrivate(s.companion) || (!Intact(s.companion) && !s.settling)
  {
  }

  /** A private directory, deleted entry by entry, each when nothing is below it
      and everything above it is private. */
  class PrivateDirectory {
    const power: Power
    var entries: Option<Tree>

    constructor (power: Power, entries: Option<Tree>)
      ensures this.power == power && this.entries == entries
    { this.power, this.entries := power, entries; }

    /** Refused exactly when something in it is not private; that stays. */
    method Remove() returns (r: Outcome)
      modifies this, power
      ensures old(power.left) == None ==> power.left == None && !r.Crash?
      ensures !r.Crash? ==> (r.Pass? <==> old(AllPrivate(entries)))
      ensures if r.Pass? then entries.None?
              else entries.Some? && old(entries).Some? && Remaining(entries.value, old(entries).value)
      ensures !r.Pass? ==> AllPrivate(entries) == old(AllPrivate(entries))
    {
      if entries.None? {
        return Pass;
      }
      while entries.value != map[]
        invariant entries.Some? && Remaining(entries.value, old(entries).value)
        invariant old(power.left) == None ==> power.left == None
        decreases entries.value.Keys
      {
        assert entries.value.Keys != {};
        LeafExists(entries.value.Keys);
        var p :| p in entries.value.Keys && forall q | q in entries.value.Keys :: !ChildOf(q, p);
        if q :| q in entries.value.Keys && q <= p && !IsPrivate(entries.value[q]) {
          return Conflict;
        }
        assert IsPrivate(entries.value[p]);
        :- power.Tick();
        entries := Some(entries.value - {p});
      }
      :- power.Tick();
      entries := None;
      return Pass;
    }
  }

  lemma {:induction false} Deepest(s: set<Path>) returns (p: Path)
    requires s != {}
    ensures p in s && forall q :: q in s ==> |q| <= |p|
  {
    p :| p in s;
    if s != {p} {
      var q := Deepest(s - {p});
      if |q| > |p| { p := q; }
    }
  }

  lemma LeafExists(s: set<Path>)
    requires s != {}
    ensures exists p :: p in s && forall q | q in s :: !ChildOf(q, p)
  {
    var p := Deepest(s);
    assert forall q | q in s :: !ChildOf(q, p);
  }

  predicate Settling(record: Option<Record>) {
    record.Some? && (record.value.state.Preparing? || record.value.state.CleanupInProgress?)
  }

  class TransactionRemains {
    const power: Power
    const whole: Tree
    const companion: PrivateDirectory
    const tombstone: PrivateDirectory
    const rollbackTombstone: PrivateDirectory
    const bootstrap: BootstrapDirectories
    var phase: Phase
    var allUndone: bool
    var root: Option<Tree>
    var receipt: Option<Receipt>
    var metadata: bool
    var rollbackMetadata: bool

    /** As a committed or rolled back transaction leaves it. */
    constructor (
      power: Power, whole: Tree, companion: PrivateDirectory, bootstrap: BootstrapDirectories, phase: Phase,
      allUndone: bool)
      requires companion.power == power && bootstrap.power == power && bootstrap.companion == companion.entries.Some?
      requires Valid(bootstrap.State())
      ensures this.power == power && this.companion == companion && this.bootstrap == bootstrap && Wired()
      ensures State() == Remains(phase, allUndone, Settling(bootstrap.record), whole, Some(whole), companion.entries,
                                 None, false, None, false, None)
      ensures fresh(tombstone) && fresh(rollbackTombstone)
    {
      this.power, this.whole, this.companion, this.bootstrap := power, whole, companion, bootstrap;
      this.phase, this.allUndone, root, receipt, metadata, rollbackMetadata := phase, allUndone, Some(whole), None,
          false, false;
      tombstone := new PrivateDirectory(power, None);
      rollbackTombstone := new PrivateDirectory(power, None);
    }

    ghost predicate Wired()
      reads this, companion, bootstrap
    {
      && companion.power == power && tombstone.power == power && rollbackTombstone.power == power
         && bootstrap.power == power
      && companion != tombstone && companion != rollbackTombstone && tombstone != rollbackTombstone
      && Valid(bootstrap.State()) && bootstrap.companion == companion.entries.Some?
    }

    function State(): Remains
      reads this, companion, tombstone, rollbackTombstone, bootstrap
    {
      Remains(phase, allUndone, Settling(bootstrap.record), whole, root, companion.entries, receipt, metadata,
          tombstone.entries,
              rollbackMetadata, rollbackTombstone.entries)
    }

    /** The companion, and with it what kept its parent from being empty. */
    method RemoveCompanion() returns (r: Outcome)
      requires Wired()
      modifies companion, bootstrap`companion, power
      ensures Wired() && (old(power.left) == None ==> power.left == None && !r.Crash?)
      ensures !r.Crash? ==> (r.Pass? <==> old(AllPrivate(companion.entries)))
      ensures Kept(companion.entries, old(companion.entries)) && (r.Pass? <==> companion.entries.None?)
      ensures !r.Pass? ==> AllPrivate(companion.entries) == old(AllPrivate(companion.entries))
      ensures bootstrap.record.Some? ==> Stuck(bootstrap.State()) == old(Stuck(bootstrap.State()))
    {
      r := companion.Remove();
      if r.Pass? {
        bootstrap.companion := false;
      }
    }

    method Enter(phase: Phase) returns (r: Outcome)
      modifies this`phase, power
      ensures !r.Conflict? && (old(power.left) == None ==> power.left == None && r.Pass?)
      ensures this.phase == if r.Pass? then phase else old(this.phase)
    {
      r := power.Tick();
      if r.Pass? {
        this.phase := phase;
      }
    }

    // ----- After a commit ----------------------------------------------------------------

    /** The receipt and the cleanup metadata, before anything is deleted. */
    method AnnounceCleanup() returns (r: Outcome)
      requires Wired() && CommittedCleanup(State()) && root.Some?
      modifies this`receipt, this`metadata, power
      ensures Wired() && CommittedCleanup(State()) && !r.Conflict?
      ensures old(power.left) == None ==> power.left == None && r.Pass?
      ensures r.Pass? ==> receipt.Some? && metadata
    {
      hide Valid, AllPrivate;
      if receipt.None? {
        :- power.Tick();
        receipt := Some(Pending);
      }
      if !metadata {
        :- power.Tick();
        metadata := true;
      }
      return Pass;
    }

    /** The receipt is complete, the journal moves aside. */
    method SetAside() returns (r: Outcome)
      requires Wired() && CommittedCleanup(State()) && root.Some? && companion.entries.None? && receipt.Some?
               && metadata
      modifies this`receipt, this`root, tombstone, power
      ensures Wired() && CommittedCleanup(State()) && !r.Conflict?
      ensures old(power.left) == None ==> power.left == None && r.Pass?
      ensures if r.Pass? then root.None? else root.Some?
    {
      hide Valid, AllPrivate;
      if receipt.value.Pending? {
        :- power.Tick();
        receipt := Some(Complete);
      }
      if tombstone.entries.Some? {
        return Conflict;
      }
      :- power.Tick();
      tombstone.entries, root := root, None;
      return Pass;
    }

    /** From the committed journal to the tombstone: receipt, metadata, companion,
        receipt complete, journal moved aside. */
    method RetireCommitted() returns (r: Outcome)
      requires Wired() && CommittedCleanup(State()) && root.Some?
      modifies this`receipt, this`metadata, this`root, companion, tombstone, bootstrap`companion, power
      ensures Wired() && CommittedCleanup(State())
      ensures old(power.left) == None ==> power.left == None && !r.Crash?
      ensures !r.Crash? ==> (r.Pass? <==> old(AllPrivate(companion.entries)))
      ensures Kept(companion.entries, old(companion.entries))
              && AllPrivate(companion.entries) == old(AllPrivate(companion.entries))
      ensures if r.Pass? then root.None? && metadata else root.Some?
    {
      hide Valid, Stuck, Remaining, AllPrivate, Kept;
      KeptAsItIs(companion.entries);
      EmptyIsPrivate();
      :- AnnounceCleanup();
      :- RemoveCompanion();
      r := SetAside();
    }

    /** What remains once the journal is out of the way. */
    method DropTombstone() returns (r: Outcome)
      requires Wired() && CommittedCleanup(State()) && root.None? && metadata
      modifies this`metadata, companion, tombstone, bootstrap`companion, power
      ensures Wired() && CommittedCleanup(State()) && !r.Conflict?
      ensures old(power.left) == None ==> power.left == None && r.Pass?
      ensures if r.Pass? then Clean(State()) else metadata
    {
      hide Valid, Stuck, Remaining, AllPrivate;
      EmptyIsPrivate();
      r := RemoveCompanion(); // gone already, or there would be no tombstone
      :- tombstone.Remove();
      :- power.Tick();
      metadata := false;
      return Pass;
    }

    /** Cleanup after a commit, from wherever an earlier one stopped; without the
        journal it goes on from the cleanup metadata.  A companion that holds
        something not private is refused, and what is refused stays. */
    method FinalizeCommitted() returns (r: Outcome)
      requires Wired() && CommittedCleanup(State())
      modifies this`phase, this`receipt, this`metadata, this`root, companion, tombstone, bootstrap`companion, power
      ensures Wired() && CommittedCleanup(State())
      ensures old(power.left) == None ==> power.left == None && !r.Crash?
      ensures !r.Crash? ==> (r.Pass? <==> old(AllPrivate(companion.entries)))
      ensures Kept(companion.entries, old(companion.entries))
              && AllPrivate(companion.entries) == old(AllPrivate(companion.entries))
      ensures if r.Pass? then Clean(State()) && receipt == Some(Complete) else !Clean(State())
      ensures r.Conflict? ==> root.Some? && phase == CommittedCleanupRequired
    {
      hide Valid, Stuck, Remaining, AllPrivate;
      EmptyIsPrivate();
      if root.Some? {
        r := RetireCommitted();
        if r.Conflict? {
          :- Enter(CommittedCleanupRequired);
          return Conflict;
        }
        :- r;
      } else if !metadata {
        return if tombstone.entries.Some? || receipt != Some(Complete) then Conflict else Pass;
      }
      r := DropTombstone();
    }

    /** The same after a restart, which begins with the scan. */
    method ResumeCommitted() returns (r: Outcome)
      requires Wired() && CommittedCleanup(State())
      modifies this`phase, this`receipt, this`metadata, this`root, companion, tombstone, bootstrap`companion, power
      ensures Wired() && CommittedCleanup(State())
      ensures old(power.left) == None ==> power.left == None && !r.Crash?
      ensures Kept(companion.entries, old(companion.entries))
              && AllPrivate(companion.entries) == old(AllPrivate(companion.entries))
      ensures !old(AllPrivate(companion.entries)) ==> r.Conflict? && State() == old(State())
      ensures old(AllPrivate(companion.entries)) ==> !r.Conflict?
      ensures r.Pass? ==> Clean(State()) && receipt == Some(Complete)
    {
      hide Valid, Stuck, Remaining, AllPrivate, CommittedCleanup, RollbackCleanup, Scan, Clean;
      NeverLost(State());
      KeptAsItIs(companion.entries);
      if Scan(State()) == Error {
        return Conflict;
      }
      r := FinalizeCommitted();
    }

    // ----- After a rollback ----------------------------------------------------------------

    /** Where a rollback's cleanup can be: besides the journal's remains, the two
        bootstrap directories are given back before the journal moves aside. */
    ghost predicate Retiring()
      reads this, companion, tombstone, rollbackTombstone, bootstrap
    {
      Wired() && RollbackCleanup(State()) && (root.None? ==> GivenBack(bootstrap.State()))
    }

    /** What a rollback's cleanup refuses of the bootstrap directories. */
    ghost predicate Stopped()
      requires Valid(bootstrap.State())
      reads this, bootstrap
    {
      root.Some? && bootstrap.record.Some? && Stuck(bootstrap.State())
    }

    /** The bootstrap directories, once the companion is gone, then the journal
        moved aside. */
    method LeaveBootstrap() returns (r: Outcome)
      requires Retiring() && root.Some? && rollbackMetadata && companion.entries.None?
      modifies this`phase, this`root, rollbackTombstone, bootstrap`record, bootstrap`dirs, bootstrap`companion, power
      ensures Wired() && (if phase == RollbackFailed then r.Conflict? else Retiring())
      ensures old(power.left) == None ==> power.left == None && !r.Crash?
      ensures if r.Pass? then root.None? else root.Some?
      ensures if r.Crash? then Stopped() == old(Stopped()) && phase == old(phase)
              else r.Conflict? <==> old(Stopped())
      ensures r.Conflict? ==> phase == RollbackFailed && Scan(State()) == Error
    {
      hide Valid, Stuck, GivenBack, AllPrivate;
      r := bootstrap.FinishCleanup();
      if r.Conflict? {
        :- Enter(RollbackFailed);
        return Conflict;
      }
      :- r;
      :- power.Tick();
      rollbackTombstone.entries, root := root, None;
      return Pass;
    }

    /** From the rolled back journal to the tombstone: metadata, companion,
        bootstrap directories, journal moved aside. */
    method RetireRolledBack() returns (r: Outcome)
      requires Retiring() && root.Some?
      modifies this`phase, this`rollbackMetadata, this`root, companion, rollbackTombstone, bootstrap`record,
               bootstrap`dirs, bootstrap`companion, power
      ensures Wired() && (if phase == RollbackFailed then r.Conflict? else Retiring())
      ensures old(power.left) == None ==> power.left == None && !r.Crash?
      ensures if r.Pass? then root.None? && rollbackMetadata && companion.entries.None? else root.Some?
      ensures if r.Crash? then Stopped() == old(Stopped()) && phase == old(phase)
              else r.Conflict? <==> old(!AllPrivate(companion.entries) || Stopped())
      ensures Kept(companion.entries, old(companion.entries))
              && AllPrivate(companion.entries) == old(AllPrivate(companion.entries))
      ensures r.Conflict? && old(AllPrivate(companion.entries)) ==> phase == RollbackFailed && Scan(State()) == Error
      ensures r.Conflict? && !old(AllPrivate(companion.entries)) ==>
              phase == RollbackCleanupRequired && Stopped() == old(Stopped())
    {
      hide Valid, Stuck, GivenBack, Remaining, AllPrivate, Kept, Scan;
      KeptAsItIs(companion.entries);
      EmptyIsPrivate();
      if !rollbackMetadata {
        :- power.Tick();
        rollbackMetadata := true;
      }
      r := RemoveCompanion();
      if r.Conflict? {
        :- Enter(RollbackCleanupRequired);
        return Conflict;
      }
      :- r;
      r := LeaveBootstrap();
    }

    method DropRollbackTombstone() returns (r: Outcome)
      requires Retiring() && root.None? && rollbackMetadata
      modifies this`rollbackMetadata, companion, rollbackTombstone, bootstrap`companion, power
      ensures Retiring() && !r.Conflict?
      ensures old(power.left) == None ==> power.left == None && r.Pass?
      ensures if r.Pass? then Clean(State()) else rollbackMetadata
    {
      hide Stuck, Remaining, AllPrivate;
      EmptyIsPrivate();
      r := RemoveCompanion(); // gone already, or there would be no tombstone
      :- rollbackTombstone.Remove();
      :- power.Tick();
      rollbackMetadata := false;
      return Pass;
    }

    /** Cleanup after a rollback, from wherever an earlier one stopped. */
    method FinalizeRolledBack() returns (r: Outcome)
      requires Retiring()
      modifies this`phase, this`rollbackMetadata, this`root, companion, rollbackTombstone, bootstrap`record,
               bootstrap`dirs, bootstrap`companion, power
      ensures Wired() && (if phase == RollbackFailed then r.Conflict? else Retiring())
      ensures old(power.left) == None ==> power.left == None && !r.Crash?
      ensures r.Pass? ==> Clean(State()) && GivenBack(bootstrap.State())
      ensures if r.Crash? then Stopped() == old(Stopped())
              else r.Conflict? <==> old(!AllPrivate(companion.entries) || Stopped())
      ensures Kept(companion.entries, old(companion.entries))
              && AllPrivate(companion.entries) == old(AllPrivate(companion.entries))
      ensures r.Conflict? && old(AllPrivate(companion.entries)) ==> phase == RollbackFailed && Scan(State()) == Error
      ensures r.Conflict? && !old(AllPrivate(companion.entries)) ==>
              phase == RollbackCleanupRequired && Stopped() == old(Stopped())
    {
      hide Valid, Stuck, Remaining, AllPrivate, Kept, Scan;
      EmptyIsPrivate();
      KeptAsItIs(companion.entries);
      if root.Some? {
        r := RetireRolledBack();
        if !r.Pass? {
          return r;
        }
      } else if !rollbackMetadata {
        return if rollbackTombstone.entries.Some? then Conflict else Pass;
      }
      r := DropRollbackTombstone();
    }

    /** The same after a restart, which begins with the scan. */
    method ResumeRolledBack() returns (r: Outcome)
      requires Retiring()
      modifies this`phase, this`rollbackMetadata, this`root, companion, rollbackTombstone, bootstrap`record,
               bootstrap`dirs, bootstrap`companion, power
      ensures Wired() && (if phase == RollbackFailed then r.Conflict? else Retiring())
      ensures old(power.left) == None ==> power.left == None && !r.Crash?
      ensures r.Pass? ==> Clean(State()) && GivenBack(bootstrap.State())
      ensures if r.Crash? then Stopped() == old(Stopped())
              else r.Conflict? <==> old(!AllPrivate(companion.entries) || Stopped())
      ensures Kept(companion.entries, old(companion.entries))
              && AllPrivate(companion.entries) == old(AllPrivate(companion.entries))
      ensures r.Conflict? ==> Scan(State()) == Error
      ensures !old(AllPrivate(companion.entries)) ==> r.Conflict? && State() == old(State())
    {
      hide Valid, Stuck, GivenBack, Remaining, AllPrivate, CommittedCleanup, Scan, Clean;
      assert IsRolledBack(phase) && RollbackCleanup(State());
      hide RollbackCleanup;
      NeverLost(State());
      KeptAsItIs(companion.entries);
      if Scan(State()) == Error {
        return Conflict;
      }
      r := FinalizeRolledBack();
    }
  }

  /** A companion while it is being deleted. */
  predicate Kept(now: Option<Tree>, was: Option<Tree>) {
    now.Some? ==> was.Some? && Remaining(now.value, was.value)
  }

  lemma EmptyIsPrivate()
    ensures AllPrivate(None)
  {
  }

  lemma KeptAsItIs(contents: Option<Tree>)
    ensures Kept(contents, contents)
  {
  }

  lemma KeptSince(now: Option<Tree>, since: Option<Tree>, was: Option<Tree>)
    requires Kept(now, since) && Kept(since, was)
    ensures Kept(now, was)
  {
  }

  /** Cleanup after a commit, first in the process that committed, until power is
      lost after `handledFor` steps, then after restarts.  However often it is
      interrupted, nothing is left exactly if the companion was private; else
      everything in it that was not stays, and every later scan fails. */
  method CommittedThroughCrashes(remains: TransactionRemains, handledFor: Option<nat>, interruptions: seq<nat>)
    returns (r: Outcome)
    requires remains.Wired() && CommittedCleanup(remains.State())
    modifies remains`phase, remains`receipt, remains`metadata, remains`root, remains.companion, remains.tombstone,
             remains.bootstrap`companion, remains.power
    ensures remains.Wired() && CommittedCleanup(remains.State())
    ensures r == if old(AllPrivate(remains.companion.entries)) then Pass else Conflict
    ensures if r.Pass? then
              Clean(remains.State()) && remains.receipt == Some(Complete) && Scan(remains.State()) == Nothing
            else Scan(remains.State()) == Error && remains.companion.entries.Some?
                 && Kept(remains.companion.entries, old(remains.companion.entries))
  {
    hide Valid, Stuck, Remaining, AllPrivate, CommittedCleanup, RollbackCleanup, Scan, Clean, Kept;
    EmptyIsPrivate();
    remains.power.left := handledFor;
    r := remains.FinalizeCommitted();
    if r.Crash? {
      for k := 0 to |interruptions|
        invariant remains.Wired() && CommittedCleanup(remains.State())
        invariant Kept(remains.companion.entries, old(remains.companion.entries))
        invariant AllPrivate(remains.companion.entries) == old(AllPrivate(remains.companion.entries))
      {
        remains.power.left := Some(interruptions[k]);
        ghost var before := remains.companion.entries;
        r := remains.ResumeCommitted();
        KeptSince(remains.companion.entries, before, old(remains.companion.entries));
      }
      remains.power.left := None;
      ghost var before := remains.companion.entries;
      r := remains.ResumeCommitted();
      KeptSince(remains.companion.entries, before, old(remains.companion.entries));
    }
    NeverLost(remains.State());
  }

  /** Cleanup after a rollback ends with nothing left and the two directories as
      found, however often interrupted, unless the companion is not private or
      one of the directories cannot be given back. */
  method RolledBackThroughCrashes(remains: TransactionRemains, handledFor: Option<nat>, interruptions: seq<nat>)
    returns (r: Outcome)
    requires remains.Retiring()
    modifies remains`phase, remains`rollbackMetadata, remains`root, remains.companion, remains.rollbackTombstone,
             remains.bootstrap`record, remains.bootstrap`dirs, remains.bootstrap`companion, remains.power
    ensures remains.Wired() && (r.Conflict? <==> old(!AllPrivate(remains.companion.entries) || remains.Stopped()))
    ensures if r.Pass? then
              Clean(remains.State()) && Scan(remains.State()) == Nothing && GivenBack(remains.bootstrap.State())
            else
              r.Conflict? && Scan(remains.State()) == Error
              && Kept(remains.companion.entries, old(remains.companion.entries))
  {
    hide Valid, Stuck, GivenBack, Remaining, AllPrivate, CommittedCleanup, Scan, Clean, Kept;
    KeptAsItIs(remains.companion.entries);
    remains.power.left := handledFor;
    r := remains.FinalizeRolledBack();
    if !r.Crash? {
      if remains.phase != RollbackFailed { NeverLost(remains.State()); }
      return;
    }
    for k := 0 to |interruptions|
      invariant remains.Retiring() && remains.Stopped() == old(remains.Stopped())
      invariant Kept(remains.companion.entries, old(remains.companion.entries))
      invariant AllPrivate(remains.companion.entries) == old(AllPrivate(remains.companion.entries))
    {
      remains.power.left := Some(interruptions[k]);
      ghost var before := remains.companion.entries;
      r := remains.ResumeRolledBack();
      KeptSince(remains.companion.entries, before, old(remains.companion.entries));
      if !r.Crash? {
        if remains.phase != RollbackFailed { NeverLost(remains.State()); }
        return;
      }
    }
    remains.power.left := None;
    ghost var before := remains.companion.entries;
    r := remains.ResumeRolledBack();
    KeptSince(remains.companion.entries, before, old(remains.companion.entries));
    if remains.phase != RollbackFailed { NeverLost(remains.State()); }
  }
}
