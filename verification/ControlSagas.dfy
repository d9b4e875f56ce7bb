/** Operator commands that move one object under a write-ahead log of their own:
    clearing the start marker, and quarantining a damaged transaction. */
module ControlSagas {
  import opened Wrappers

  /** A file by identity and content. */
  datatype Marker = Marker(id: nat, digest: nat)

  datatype Wal<D> = Wal(phase: nat, details: D)

  /** The control directory: its log and the one other file kept in it. */
  class ControlJournal<D(==)> {
    const power: Power
    /** Index of the command's last phase. */
    const last: nat
    var dir: bool
    var wal: Option<Wal<D>>
    var file: Option<Marker>

    constructor (power: Power, last: nat)
      ensures this.power == power && this.last == last && !dir && wal.None? && file.None?
    { this.power, this.last, dir, wal, file := power, last, false, None, None; }

    /** A new log at its first phase, or the one that is there; a directory
        without a log is refused. */
    method Create(details: D) returns (r: Outcome)
      requires wal.Some? ==> dir
      modifies this`dir, this`wal, power
      ensures r.Conflict? <==> old(dir && wal.None?)
      ensures old(power.left) == None ==> power.left == None && !r.Crash?
      ensures r.Pass? ==> dir && wal == if old(dir) then old(wal) else Some(Wal(0, details))
      ensures !r.Pass? ==> wal == old(wal) && (old(dir) ==> dir)
      ensures !old(dir) && old(power.left).Some? && old(power.left).value >= 2 ==>
                r.Pass? && power.left == Some(old(power.left).value - 2)
    {
      if dir {
        return if wal.None? then Conflict else Pass;
      }
      :- power.Tick();
      dir := true;
      :- power.Tick();
      wal := Some(Wal(0, details));
      return Pass;
    }

    /** A phase is kept or followed by the next one, never by another. */
    method Advance(phase: nat, details: D) returns (r: Outcome)
      requires wal.Some?
      modifies this`wal, power
      ensures r.Conflict? <==> phase > last || (phase != old(wal).value.phase && phase != old(wal).value.phase + 1)
      ensures wal == if r.Pass? then Some(Wal(phase, details)) else old(wal)
      ensures old(power.left) == None ==> power.left == None && !r.Crash?
      ensures r.Pass? && old(power.left).Some? ==>
              old(power.left).value > 0 && power.left == Some(old(power.left).value - 1)
      ensures r.Crash? ==> old(power.left) == Some(0)
    {
      if phase > last || (phase != wal.value.phase && phase != wal.value.phase + 1) {
        return Conflict;
      }
      :- power.Tick();
      wal := Some(Wal(phase, details));
      return Pass;
    }

    /** Deletes the directory with all it holds, in either order. */
    method Remove(logFirst: bool) returns (r: Outcome)
      modifies this, power
      ensures !r.Conflict? && (old(power.left) == None ==> power.left == None && r.Pass?)
      ensures r.Pass? ==> !dir && wal.None? && file.None?
      ensures r.Crash? ==>
              (wal == old(wal) || wal.None?) && (file == old(file) || file.None?) && dir == old(dir) && old(dir)
      ensures old(dir && power.left == Some(0)) ==> r.Crash? && wal == old(wal) && file == old(file)
      // The order shows after the first step.
      ensures old(dir && wal.Some? && power.left == Some(1)) && (logFirst || old(file).None?) ==>
                r.Crash? && wal.None? && file == old(file)
      ensures old(dir && file.Some? && power.left == Some(1)) && (!logFirst || old(wal).None?) ==>
                r.Crash? && file.None? && wal == old(wal)
    {
      if !dir {
        wal, file := None, None;
        return Pass;
      }
      if logFirst && wal.Some? {
        :- power.Tick();
        wal := None;
      }
      if file.Some? {
        :- power.Tick();
        file := None;
      }
      if wal.Some? {
        :- power.Tick();
        wal := None;
      }
      :- power.Tick();
      dir := false;
      return Pass;
    }
  }

  // ----- Clearing the start marker -----------------------------------------------------------

  const CLEAR_PLANNED: nat := 0
  const RUNTIME_CHECKED: nat := 1
  const MARKER_BACKED_UP: nat := 2
  const RECEIPT_WRITTEN: nat := 3
  const CLEAR_COMPLETE: nat := 4

  datatype ClearState = ClearState(
    dir: bool, wal: Option<Wal<Option<Marker>>>, backup: Option<Marker>, active: Option<Marker>, receipt: bool)

  /** The marker `m` is at exactly one place, or a receipt accounts for it. */
  predicate Conserved(s: ClearState, m: Option<Marker>) {
    s.receipt || (s.active == m && s.backup.None?) || (s.active.None? && s.backup == m)
  }

  predicate Lost(s: ClearState, m: Option<Marker>) {
    !s.receipt && m.Some? && s.active.None? && s.backup.None?
  }

  /** Every state between two atomic steps, `m` being the marker when the
      command was first given. */
  predicate Clearing(s: ClearState, m: Option<Marker>) {
    && (s.wal.Some? || s.backup.Some? ==> s.dir)
    && (s.receipt ==> m.Some? && s.active.None?)
    && (Conserved(s, m) || Lost(s, m))
    && match s.wal
       case None => s.backup.Some? ==> !s.receipt
       case Some(Wal(phase, details)) =>
         && phase <= CLEAR_COMPLETE
         && (phase == CLEAR_PLANNED ==> s.backup.None? && !s.receipt)
         && (phase >= RUNTIME_CHECKED ==> m.Some? && details == m)
         && (phase == RUNTIME_CHECKED ==> !s.receipt)
         && (phase == MARKER_BACKED_UP ==> !Lost(s, m) && (s.receipt ==> s.backup == m))
         && (phase >= RECEIPT_WRITTEN ==> s.receipt && (s.backup == m || s.backup.None?))
         && (phase == CLEAR_COMPLETE ==> s.backup.None?)
  }

  /** There is no log, or it is at its first phase. */
  predicate NothingChecked(wal: Option<Wal<Option<Marker>>>) {
    wal.Some? ==> wal.value.phase == CLEAR_PLANNED
  }

  /** Moved but not yet recorded as moved: a gate failing now removes the log
      together with the only copy of the marker. */
  predicate ClearWindow(s: ClearState) {
    !s.receipt && s.backup.Some? && s.wal.Some? && s.wal.value.phase == RUNTIME_CHECKED
  }

  /** The marker is back although it is on record as moved, or the log is gone
      and its directory is not: nothing is lost, and no attempt goes on. */
  predicate Jammed(s: ClearState) {
    (s.dir && s.wal.None?) || (s.wal.Some? && s.wal.value.phase == MARKER_BACKED_UP && s.active.Some?)
  }

  class ClearStartMarker {
    const power: Power
    const journal: ControlJournal<Option<Marker>>
    var active: Option<Marker>
    var receipt: bool

    constructor (power: Power, active: Option<Marker>)
      ensures Wired() && State() == ClearState(false, None, None, active, false) && Clearing(State(), active)
      ensures this.power == power && fresh(journal)
    {
      this.power, this.active, receipt := power, active, false;
      journal := new ControlJournal(power, CLEAR_COMPLETE);
    }

    ghost predicate Wired() { journal.power == power && journal.last == CLEAR_COMPLETE }

    ghost function State(): ClearState
      reads this, journal
    { ClearState(journal.dir, journal.wal, journal.file, active, receipt) }

    /** A failed gate before the receipt: the marker is put back if it is on
        record as moved, and the log is removed. */
    method Withdraw(logFirst: bool, ghost m: Option<Marker>) returns (r: Outcome)
      requires Wired() && Clearing(State(), m) && !receipt && journal.wal.Some?
      requires journal.wal.value.phase == RUNTIME_CHECKED || journal.wal.value.phase == MARKER_BACKED_UP
      modifies this`active, journal, power
      ensures Clearing(State(), m) && !r.Pass?
      ensures old(power.left) == None ==> power.left == None && !r.Crash?
      ensures receipt == old(receipt)
      ensures Lost(State(), m) ==> old(Lost(State(), m) || ClearWindow(State()))
      ensures old(Lost(State(), m)) ==> Lost(State(), m)
      ensures r.Conflict? && old(ClearWindow(State())) ==> Lost(State(), m)
      ensures r.Conflict? && !old(Lost(State(), m) || ClearWindow(State())) ==> active == m
    {
      if journal.wal.value.phase == MARKER_BACKED_UP {
        if active.Some? || journal.file.None? || journal.file.value.id != journal.wal.value.details.value.id {
          return Conflict;
        }
        :- power.Tick();
        active, journal.file := journal.file, None;
      }
      :- journal.Remove(logFirst);
      return Conflict;
    }

    /** Moves the marker into the control directory, or accepts that a previous
        run did. */
    method BackUpMarker(ghost m: Option<Marker>) returns (r: Outcome)
      requires Wired() && Clearing(State(), m) && journal.wal.Some? && journal.wal.value.phase == RUNTIME_CHECKED
      modifies this`active, journal`file, journal`wal, power
      ensures Clearing(State(), m) && Lost(State(), m) == old(Lost(State(), m))
      ensures r.Conflict? <==> old(Lost(State(), m))
      ensures old(power.left) == None ==> power.left == None && !r.Crash?
      ensures r.Pass? ==>
              journal.wal.Some? && journal.wal.value.phase == MARKER_BACKED_UP && active.None? && journal.file == m
      ensures old(active) == m && old(power.left) == Some(1) ==> ClearWindow(State())
    {
      var details := journal.wal.value.details;
      if journal.file.None? {
        if active.None? || active != details {
          return Conflict;
        }
        :- power.Tick();
        journal.file, active := active, None;
      } else if journal.file.value.id != details.value.id || active.Some? {
        return Conflict;
      }
      r := journal.Advance(MARKER_BACKED_UP, details);
    }

    /** From the moved marker to the receipt, the end of the backup, and the
        end of the log. */
    method Conclude(logFirst: bool, ghost m: Option<Marker>) returns (r: Outcome)
      requires Wired() && Clearing(State(), m) && journal.wal.Some? && journal.wal.value.phase >= MARKER_BACKED_UP
      modifies this`receipt, journal, power
      ensures Clearing(State(), m) && !Lost(State(), m)
      ensures r.Conflict? <==> old(Jammed(State()))
      ensures old(power.left) == None ==> power.left == None && !r.Crash?
      ensures r.Pass? ==> receipt && !journal.dir && journal.file.None? && active.None?
      // The log is complete before it goes.
      ensures old(journal.wal.value.phase == RECEIPT_WRITTEN && journal.file.None? && power.left == Some(1)) ==>
                r.Crash? && journal.wal == Some(Wal(CLEAR_COMPLETE, old(journal.wal.value.details)))
    {
      var details := journal.wal.value.details;
      if journal.wal.value.phase == MARKER_BACKED_UP {
        if active.Some? {
          return Conflict;
        }
        if !receipt {
          :- power.Tick();
          receipt := true;
        }
        :- journal.Advance(RECEIPT_WRITTEN, details);
      }
      if journal.wal.value.phase == RECEIPT_WRITTEN {
        if journal.file.Some? {
          if journal.file.value.id != details.value.id {
            return Conflict;
          }
          :- power.Tick();
          journal.file := None;
        }
        :- journal.Advance(CLEAR_COMPLETE, details);
      }
      :- journal.Remove(logFirst);
      return if receipt then Pass else Conflict;
    }

    /** From passed gates on. */
    method Proceed(logFirst: bool, ghost m: Option<Marker>) returns (r: Outcome)
      requires Wired() && Clearing(State(), m) && journal.wal.Some? && journal.wal.value.phase >= RUNTIME_CHECKED
      modifies this, journal, power
      ensures Clearing(State(), m) && Lost(State(), m) == old(Lost(State(), m))
      ensures r.Conflict? <==> old(Jammed(State()) || Lost(State(), m))
      ensures old(power.left) == None ==> power.left == None && !r.Crash?
      ensures r.Pass? ==> receipt && !journal.dir && active.None?
      ensures old(active == m && journal.wal.value.phase == RUNTIME_CHECKED && power.left == Some(1)) ==>
              ClearWindow(State())
    {
      if journal.wal.value.phase == RUNTIME_CHECKED {
        :- BackUpMarker(m);
      }
      r := Conclude(logFirst, m);
    }

    /** The command, first given or resumed; `planned` and `gates` are what the
        two examinations of the deployment find. */
    method Clear(planned: bool, gates: bool, logFirst: bool, ghost m: Option<Marker>) returns (r: Outcome)
      requires Wired() && Clearing(State(), m)
      modifies this, journal, power
      ensures Clearing(State(), m)
      ensures r.Pass? ==> receipt && !journal.dir && active.None?
      // A failing gate lets nothing through, and but for the window the marker
      // is in its place afterwards.
      ensures !gates && !old(receipt) ==> !r.Pass? && !receipt
      ensures !gates && !old(receipt) && !r.Crash?
              && !old(Lost(State(), m) || ClearWindow(State()) || Jammed(State())) ==>
                active == m
      // Before anything has been checked, a failing examination leaves
      // everything as it is.
      ensures !planned && old(!receipt && NothingChecked(journal.wal)) ==>
                !r.Pass? && !receipt && NothingChecked(journal.wal) && active == old(active)
                && journal.file == old(journal.file)
      // The marker is only ever lost in the window, and there it is.
      ensures Lost(State(), m) ==> old(Lost(State(), m)) || (old(ClearWindow(State())) && !gates)
      ensures old(ClearWindow(State())) && !gates && !r.Crash? ==> r.Conflict? && Lost(State(), m)
      ensures old(Lost(State(), m)) ==> Lost(State(), m)
      ensures old(power.left) == None ==> !r.Crash?
      // Given for the first time and stopped after its fourth step, it is there.
      ensures planned && gates
              && old(m.Some? && State() == ClearState(false, None, None, m, false) && power.left == Some(4)) ==>
                ClearWindow(State())
      // Left alone and with nothing against it, it succeeds.
      ensures old(power.left) == None && planned && gates && m.Some? && !old(Lost(State(), m) || Jammed(State())) ==>
                r.Pass?
    {
      var existing := receipt;
      if existing && !journal.dir {
        return if active.Some? then Conflict else Pass;
      }
      :- journal.Create(None);
      if journal.wal.value.phase == CLEAR_PLANNED {
        if active.None? || !planned {
          return Conflict;
        }
        :- journal.Advance(RUNTIME_CHECKED, active);
      }
      if !existing && !gates
          && (journal.wal.value.phase == RUNTIME_CHECKED || journal.wal.value.phase == MARKER_BACKED_UP) {
        r := Withdraw(logFirst, m);
        return;
      }
      r := Proceed(logFirst, m);
    }
  }

  /** One attempt: the steps until power fails, what the gates find, and the
      order in which a directory is emptied. */
  datatype Attempt = Attempt(steadyFor: Option<nat>, planned: bool, gates: bool, logFirst: bool)

  /** Whether the gates of an attempt fail while the marker is in the window. */
  predicate Exposes(attempt: Attempt, before: ClearState) {
    !attempt.gates && ClearWindow(before)
  }

  /** However often the command is interrupted and resumed, the marker is kept
      or accounted for, unless an attempt begun in the window meets a failing
      gate; if such an attempt is left alone, the marker is lost for good.
      `before` are the states in which the attempts began. */
  method ClearThroughCrashes(command: ClearStartMarker, attempts: seq<Attempt>, ghost m: Option<Marker>)
    returns (ghost before: seq<ClearState>)
    requires command.Wired() && Clearing(command.State(), m) && !Lost(command.State(), m)
    modifies command, command.journal, command.power
    ensures Clearing(command.State(), m) && |before| == |attempts|
            && (before != [] ==> before[0] == old(command.State()))
    ensures Lost(command.State(), m) ==> exists k :: 0 <= k < |attempts| && Exposes(attempts[k], before[k])
    // A receipt is only ever written by an attempt whose gates held, and not
    // before one whose first examination passed.
    ensures command.receipt && !old(command.receipt) ==> exists k :: 0 <= k < |attempts| && attempts[k].gates
    ensures command.receipt && old(!command.receipt && NothingChecked(command.journal.wal)) ==>
              exists k :: 0 <= k < |attempts| && attempts[k].planned
    ensures !Lost(command.State(), m) ==> Conserved(command.State(), m)
    ensures (exists k :: 0 <= k < |attempts| && attempts[k].steadyFor.None? && Exposes(attempts[k], before[k])) ==>
              Lost(command.State(), m)
  {
    before := [];
    for k := 0 to |attempts|
      invariant Clearing(command.State(), m) && |before| == k
      invariant if k == 0 then command.State() == old(command.State()) else before[0] == old(command.State())
      invariant Lost(command.State(), m) ==> exists i :: 0 <= i < k && Exposes(attempts[i], before[i])
      invariant command.receipt && !old(command.receipt) ==> exists i :: 0 <= i < k && attempts[i].gates
      invariant old(!command.receipt && NothingChecked(command.journal.wal)) ==>
                  || (!command.receipt && NothingChecked(command.journal.wal))
                  || exists i :: 0 <= i < k && attempts[i].planned
      invariant (exists i :: 0 <= i < k && attempts[i].steadyFor.None? && Exposes(attempts[i], before[i])) ==>
                Lost(command.State(), m)
    {
      ghost var s, earlier := command.State(), before;
      before := before + [s];
      command.power.left := attempts[k].steadyFor;
      var _ := command.Clear(attempts[k].planned, attempts[k].gates, attempts[k].logFirst, m);
      assert forall i :: 0 <= i < k ==> before[i] == earlier[i];
      if Lost(command.State(), m) && !Lost(s, m) {
        assert Exposes(attempts[k], before[k]);
      } else if i :| 0 <= i < k && Exposes(attempts[i], earlier[i]) {
        assert Exposes(attempts[i], before[i]);
      }
    }
  }

  /** Every marker can be lost: a first attempt that stops in the window, and
      one more that meets a failing gate. */
  method LoseMarker(m: Marker) returns (command: ClearStartMarker)
    ensures command.Wired() && Clearing(command.State(), Some(m)) && Lost(command.State(), Some(m))
  {
    var power := new Power(Some(4));
    command := new ClearStartMarker(power, Some(m));
    var _ := command.Clear(true, true, true, Some(m));
    power.left := None;
    var _ := command.Clear(true, false, true, Some(m));
  }

  // ----- Acknowledging a repair ---------------------------------------------------------------

  const ACKNOWLEDGEMENT_PLANNED: nat := 0
  const ACTIVE_STATE_CHECKED: nat := 1
  const TRANSACTION_QUARANTINED: nat := 2
  const ACKNOWLEDGEMENT_RECEIPTED: nat := 3
  const ACKNOWLEDGEMENT_COMPLETE: nat := 4

  datatype Acknowledgement = Acknowledgement(evidence: nat, source: Option<nat>, quarantine: Option<nat>)

  datatype QuarantineReceipt = QuarantineReceipt(evidence: nat, quarantine: Option<nat>)

  /** `source` and `target` are the identities of the directories at the two
      places a transaction can be. */
  datatype QuarantineState = QuarantineState(
    dir: bool, wal: Option<Wal<Acknowledgement>>, file: Option<Marker>, source: Option<nat>, target: Option<nat>,
    receipt: Option<QuarantineReceipt>)

  /** The transaction with identity `x` is at exactly one of the two places. */
  predicate AtOnePlace(s: QuarantineState, x: nat) {
    (s.source == Some(x) && s.target != Some(x)) || (s.source.None? && s.target == Some(x))
  }

  predicate Quarantining(s: QuarantineState, x: nat) {
    && AtOnePlace(s, x) && s.file.None? && (s.wal.Some? ==> s.dir)
    && (s.receipt.Some? ==> s.target == Some(x) && s.receipt.value.quarantine == Some(x))
    && match s.wal
       case None => s.receipt.None? ==> s.source == Some(x)
       case Some(Wal(phase, details)) =>
         && phase <= ACKNOWLEDGEMENT_COMPLETE
         && (phase == ACKNOWLEDGEMENT_PLANNED ==> s.receipt.None? && s.source == Some(x))
         && (phase >= ACTIVE_STATE_CHECKED ==> details.source == Some(x))
         && (phase == ACTIVE_STATE_CHECKED ==> s.receipt.None?)
         && (phase >= TRANSACTION_QUARANTINED ==> details.quarantine == Some(x) && s.target == Some(x))
         && (s.receipt.Some? ==> s.receipt.value.evidence == details.evidence)
         && (phase >= ACKNOWLEDGEMENT_RECEIPTED ==> s.receipt.Some?)
  }

  /** Nothing but the examination can refuse the command: only one place is
      taken, the log is readable, and the evidence is the one given before. */
  predicate Acceptable(s: QuarantineState, evidence: nat) {
    && (s.source.None? || s.target.None?) && (s.dir ==> s.wal.Some?)
    && (s.receipt.Some? ==> s.receipt.value.evidence == evidence)
    && (s.wal.Some? ==> s.wal.value.details.evidence == evidence)
  }

  class AcknowledgeRepaired {
    const power: Power
    const journal: ControlJournal<Acknowledgement>
    var source: Option<nat>
    var target: Option<nat>
    var receipt: Option<QuarantineReceipt>

    constructor (power: Power, source: nat, target: Option<nat>)
      requires target != Some(source)
      ensures Wired() && Quarantining(State(), source) && this.power == power && fresh(journal)
      ensures State() == QuarantineState(false, None, None, Some(source), target, None)
    {
      this.power, this.source, this.target, receipt := power, Some(source), target, None;
      journal := new ControlJournal(power, ACKNOWLEDGEMENT_COMPLETE);
    }

    ghost predicate Wired() { journal.power == power && journal.last == ACKNOWLEDGEMENT_COMPLETE }

    ghost function State(): QuarantineState
      reads this, journal
    { QuarantineState(journal.dir, journal.wal, journal.file, source, target, receipt) }

    /** The move itself, or the finding that a previous run made it. */
    method MoveToQuarantine(ghost x: nat) returns (r: Outcome)
      requires Wired() && Quarantining(State(), x) && journal.wal.Some?
               && journal.wal.value.phase == ACTIVE_STATE_CHECKED
      modifies this`source, this`target, journal`wal, power
      ensures Quarantining(State(), x) && journal.wal.Some?
              && journal.wal.value.details.evidence == old(journal.wal.value.details.evidence)
      ensures r.Pass? ==> journal.wal.value.phase == TRANSACTION_QUARANTINED
      ensures r.Conflict? <==> old(source.Some? && target.Some?)
      ensures old(power.left) == None ==> power.left == None && !r.Crash?
    {
      var details := journal.wal.value.details;
      if source.Some? && target.None? {
        if source != details.source {
          return Conflict;
        }
        :- power.Tick();
        target, source := source, None;
      } else if source.None? && target.Some? {
        if target != details.source {
          return Conflict;
        }
      } else {
        return Conflict;
      }
      r := journal.Advance(TRANSACTION_QUARANTINED, details.(quarantine := target));
    }

    /** From the quarantined transaction to its receipt and the end of the log. */
    method WriteReceipt(evidence: nat, ghost x: nat) returns (r: Outcome)
      requires Wired() && Quarantining(State(), x) && journal.wal.Some?
               && journal.wal.value.phase >= TRANSACTION_QUARANTINED
      requires journal.wal.value.details.evidence == evidence
      modifies this`receipt, journal, power
      ensures Quarantining(State(), x) && !r.Conflict?
      ensures r.Pass? ==> receipt == Some(QuarantineReceipt(evidence, Some(x))) && !journal.dir
      ensures old(power.left) == None ==> power.left == None && !r.Crash?
      // The receipt is on record, and the log complete, before the log goes.
      ensures old(journal.wal.value.phase == TRANSACTION_QUARANTINED && receipt.Some? && power.left == Some(1)) ==>
                r.Crash? && journal.wal == Some(Wal(ACKNOWLEDGEMENT_RECEIPTED, old(journal.wal.value.details)))
      ensures old(journal.wal.value.phase == ACKNOWLEDGEMENT_RECEIPTED && power.left == Some(1)) ==>
                r.Crash? && journal.wal == Some(Wal(ACKNOWLEDGEMENT_COMPLETE, old(journal.wal.value.details)))
    {
      var details := journal.wal.value.details;
      if journal.wal.value.phase != ACKNOWLEDGEMENT_COMPLETE && target != details.quarantine {
        return Conflict;
      }
      if journal.wal.value.phase == TRANSACTION_QUARANTINED {
        if receipt.Some? {
          if receipt != Some(QuarantineReceipt(evidence, details.quarantine)) {
            return Conflict;
          }
        } else {
          :- power.Tick();
          receipt := Some(QuarantineReceipt(evidence, details.quarantine));
        }
        :- journal.Advance(ACKNOWLEDGEMENT_RECEIPTED, details);
      }
      if journal.wal.value.phase == ACKNOWLEDGEMENT_RECEIPTED {
        :- journal.Advance(ACKNOWLEDGEMENT_COMPLETE, details);
      }
      :- journal.Remove(true);
      return if receipt.Some? then Pass else Conflict;
    }

    /** The command, first given or resumed; `sound` is what the examination of
        the active state finds. */
    method Acknowledge(evidence: nat, sound: bool, ghost x: nat) returns (r: Outcome)
      requires Wired() && Quarantining(State(), x)
      modifies this, journal, power
      // Interrupted, refused or complete: the transaction is at exactly one
      // place, and a receipt is bound to its identity there.
      ensures Quarantining(State(), x)
      ensures r.Pass? ==>
              source.None? && target == Some(x) && receipt == Some(QuarantineReceipt(evidence, Some(x))) && !journal.dir
      ensures old(power.left) == None && sound && old(Acceptable(State(), evidence)) ==> r.Pass?
      // Unless the command was complete, an examination that fails lets nothing
      // through, and nothing is moved or written; nor with other evidence.
      ensures (!sound && !old(receipt.Some? && !journal.dir))
              || old(journal.wal.Some? && journal.wal.value.details.evidence != evidence) ==>
                !r.Pass? && source == old(source) && target == old(target) && receipt == old(receipt)
    {
      if receipt.Some? && !journal.dir {
        return if receipt.value.evidence != evidence || target != receipt.value.quarantine then Conflict else Pass;
      }
      :- journal.Create(Acknowledgement(evidence, None, None));
      if journal.wal.value.details.evidence != evidence || !sound {
        return Conflict;
      }
      if journal.wal.value.phase == ACKNOWLEDGEMENT_PLANNED {
        if source.None? {
          return Conflict;
        }
        :- journal.Advance(ACTIVE_STATE_CHECKED, journal.wal.value.details.(source := source));
      }
      if journal.wal.value.phase == ACTIVE_STATE_CHECKED {
        :- MoveToQuarantine(x);
      }
      r := WriteReceipt(evidence, x);
    }
  }
}
