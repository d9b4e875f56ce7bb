/** The two protocols that replace and restore the environment file, each with a
    write-ahead record of its own.

    Every assignment below that follows a `power.Tick()` is one atomic step of
    the disk; the run may lose power before any of them. */
module Environment {
  import opened Wrappers
  import opened Disk
  import opened Operations

  /** The digest of the empty file. */
  const EMPTY: nat := 0

  /** Progress of a rollback of the environment file, with the identities of the
      file being replaced and of its replacement once both exist. */
  datatype RollbackRecord =
    | Preparing
    | ExchangePending(source: nat, candidate: nat)
    | Exchanged(source: nat, candidate: nat)
    | AbsencePending(source: nat, candidate: nat)
    | Vacated(source: nat, candidate: nat)

  /** Progress of a forward publication of the environment file. */
  datatype ForwardRecord =
    | ForwardPreparing(source: Option<nat>)
    | CandidateReady(source: Option<nat>, candidate: nat)
    | PublishPending(source: Option<nat>, candidate: nat)
    | Published(source: Option<nat>, candidate: nat)

  predicate IsFile(f: Option<Node>, id: Option<nat>, content: EnvContent) {
    f.Some? && f.value.kind == Regular && f.value.auth == content.auth && f.value.digest == content.digest
    && (id.Some? ==> f.value.id == id.value)
  }

  function IdOf(f: Option<Node>): Option<nat> {
    if f.Some? then Some(f.value.id) else None
  }

  /** What stands in for the restored file until it takes its place: the file
      itself, or an empty file when there was none. */
  function Replacement(change: EnvChange): EnvContent {
    match change.before
    case Some(before) => before
    case None => EnvContent(EMPTY, change.after.auth)
  }

  predicate BeforeState(env: Option<Node>, change: EnvChange) {
    match change.before
    case Some(before) => IsFile(env, None, before)
    case None => env.None?
  }

  /** A file a rollback may delete: the published one, identified by the record
      or by standing at the environment path when the rollback began; the empty
      stand-in; or a replacement left unfinished in the private directory. */
  predicate Expendable(
    change: EnvChange, record: Option<RollbackRecord>, env: Option<Node>, candidate: Option<Node>, f: Node)
  {
    (f.kind == Regular && f.digest == change.after.digest && f.auth == change.after.auth
     && (if record.Some? && !record.value.Preparing? then f.id == record.value.source else env == Some(f)))
    || (change.before.None? && f.digest == EMPTY && f.auth == change.after.auth
        && (record.Some? && !record.value.Preparing? ==> f.id == record.value.candidate))
    || ((record.None? || record.value.Preparing?) && candidate == Some(f) && f.auth == Replacement(change).auth)
  }

  /** A rollback that has just put itself on record may discard no more. */
  lemma ExpendableEither(
    change: EnvChange, record: Option<RollbackRecord>, later: Option<RollbackRecord>, env: Option<Node>,
    candidate: Option<Node>)
    requires later == record || (record.None? && later == Some(Preparing))
    ensures forall f :: Expendable(change, later, env, candidate, f) <==> Expendable(change, record, env, candidate, f)
  {
  }

  /** Everything either protocol keeps on disk. */
  datatype EnvState = EnvState(
    /** The environment file. */
    env: Option<Node>,
    /** The private rollback directory and its two possible entries. */
    room: bool, candidate: Option<Node>, removed: Option<Node>, rollback: Option<RollbackRecord>,
    /** The forward candidate beside the environment file, and its record. */
    staged: Option<Node>, forward: Option<ForwardRecord>,
    /** Next unused file identity. */
    nextId: nat)

  function Contents(f: Option<Node>): set<Node> {
    if f.Some? then {f.value} else {}
  }

  function Files(e: EnvState): set<Node> {
    Contents(e.env) + Contents(e.candidate) + Contents(e.removed) + Contents(e.staged)
  }

  /** Identities are unused before they are handed out, and the private
      directory's entries exist only inside it. */
  predicate Valid(e: EnvState) {
    && (forall f :: f in Files(e) ==> f.id < e.nextId)
    && (!e.room ==> e.candidate.None? && e.removed.None?)
  }

  /** No sub-protocol under way. */
  predicate Quiet(e: EnvState) {
    !e.room && e.candidate.None? && e.removed.None? && e.rollback.None? && e.staged.None? && e.forward.None?
  }

  /** Every state a rollback of `change` can be in between two atomic steps,
      from the published file in place to the earlier state restored. */
  predicate Restorable(change: EnvChange, e: EnvState) {
    var stand := Replacement(change);
    && Valid(e) && e.staged.None? && e.forward.None?
    && match e.rollback
       case None => !e.room && (IsFile(e.env, None, change.after) || BeforeState(e.env, change))
       case Some(Preparing) =>
         IsFile(e.env, None, change.after) && e.removed.None?
         && (e.candidate.Some? ==>
               e.candidate.value.kind == Regular && e.candidate.value.auth == stand.auth
               && (e.candidate.value.digest == EMPTY || e.candidate.value.digest == stand.digest)
               && e.candidate.value.id != e.env.value.id)
       case Some(ExchangePending(s, c)) =>
         s != c && e.removed.None?
         && ((IsFile(e.env, Some(s), change.after) && IsFile(e.candidate, Some(c), stand))
             || (IsFile(e.env, Some(c), stand) && IsFile(e.candidate, Some(s), change.after)))
       case Some(Exchanged(s, c)) =>
         s != c && e.removed.None? && IsFile(e.env, Some(c), stand)
         && (IsFile(e.candidate, Some(s), change.after) || (change.before.Some? && e.candidate.None?))
       case Some(AbsencePending(s, c)) =>
         change.before.None? && IsFile(e.candidate, Some(s), change.after)
         && ((IsFile(e.env, Some(c), stand) && e.removed.None?)
             || (e.env.None? && IsFile(e.removed, Some(c), stand)))
       case Some(Vacated(s, c)) =>
         change.before.None? && e.env.None?
         && (e.candidate.Some? ==> e.removed.Some? && IsFile(e.candidate, Some(s), change.after))
         && (e.removed.Some? ==> IsFile(e.removed, Some(c), stand))
  }

  /** The earlier file (or its absence) is back and nothing is left behind. */
  predicate Restored(change: EnvChange, e: EnvState) {
    Quiet(e) && BeforeState(e.env, change)
  }

  /** The recorded replacement is in place of the environment file. */
  predicate Swapped(change: EnvChange, e: EnvState) {
    Restorable(change, e) && e.rollback.Some? && e.rollback.value.Exchanged?
    && IsFile(e.candidate, Some(e.rollback.value.source), change.after)
  }

  /** The file (or absence) a publication starts from, by identity. */
  predicate BeforeSource(change: EnvChange, env: Option<Node>, source: Option<nat>) {
    match change.before
    case Some(before) => source.Some? && IsFile(env, source, before)
    case None => source.None? && env.None?
  }

  /** The candidate is in place; the earlier file waits beside it, if at all. */
  predicate Moved(change: EnvChange, e: EnvState, source: Option<nat>, c: nat) {
    IsFile(e.env, Some(c), change.after) && source.Some? == change.before.Some?
    && (e.staged.Some? ==> change.before.Some? && IsFile(e.staged, source, change.before.value))
  }

  /** Every state a publication of `change` can be in between two atomic steps. */
  predicate Publishing(change: EnvChange, e: EnvState) {
    && Valid(e) && !e.room && e.rollback.None?
    && match e.forward
       case None => e.staged.None? && (BeforeState(e.env, change) || IsFile(e.env, None, change.after))
       case Some(ForwardPreparing(source)) =>
         BeforeSource(change, e.env, source)
         && (e.staged.Some? ==>
               e.staged.value.kind == Regular && e.staged.value.auth == change.after.auth
               && (e.staged.value.digest == EMPTY || e.staged.value.digest == change.after.digest))
       case Some(CandidateReady(source, c)) =>
         source != Some(c) && BeforeSource(change, e.env, source)
         && (e.staged.None? || IsFile(e.staged, Some(c), change.after))
       case Some(PublishPending(source, c)) =>
         source != Some(c)
         && ((BeforeSource(change, e.env, source) && (e.staged.None? || IsFile(e.staged, Some(c), change.after)))
             || Moved(change, e, source, c))
       case Some(Published(source, c)) => source != Some(c) && Moved(change, e, source, c)
  }

  /** The one state recovery refuses: a candidate whose content was never
      finished, under a record that does not identify it yet. */
  predicate UnfinishedCandidate(change: EnvChange, e: EnvState) {
    e.forward.Some? && e.forward.value.ForwardPreparing? && e.staged.Some?
    && e.staged.value.digest != change.after.digest
  }

  /** Whether an interrupted publication's candidate is to be removed; `None`
      is a conflict. */
  function ForwardVerdict(
    change: EnvChange, record: ForwardRecord, env: Option<Node>, staged: Option<Node>): Option<bool>
  {
    var source := record.source;
    var c := if record.ForwardPreparing? then None else Some(record.candidate);
    var envBefore :=
      match change.before
      case None => env.None?
      case Some(before) => IsFile(env, source, before);
    var envAfter := c.Some? && IsFile(env, c, change.after);
    var candidateAfter := c.Some? && IsFile(staged, c, change.after);
    var candidateBefore := source.Some? && change.before.Some? && IsFile(staged, source, change.before.value);
    match record
    case ForwardPreparing(_) =>
      if !envBefore then None
      else if staged.None? then Some(false)
      else if IsFile(staged, None, change.after) then Some(true)
      else None
    case CandidateReady(_, _) =>
      if !envBefore || !(candidateAfter || staged.None?) then None else Some(candidateAfter)
    case _ =>
      var pre := envBefore && (candidateAfter || staged.None?);
      var post := envAfter && (staged.None? || (change.before.Some? && candidateBefore));
      if (record.Published? && !post) || !(pre || post) then None
      else if staged.None? then Some(false)
      else if (pre && candidateAfter) || (post && candidateBefore) then Some(true)
      else None
  }

  /** The environment file is the one from before the publication. */
  ghost predicate NotYet(change: EnvChange, record: ForwardRecord, env: Option<Node>) {
    if change.before.None? then env.None?
    else HoldsEnvironment(env, change.before.value) && (record.source.Some? ==> env.value.id == record.source.value)
  }

  /** The candidate, new content and permissions, under its identity once recorded. */
  ghost predicate IsCandidate(change: EnvChange, record: ForwardRecord, f: Option<Node>) {
    HoldsEnvironment(f, change.after) && (!record.ForwardPreparing? ==> f.value.id == record.candidate)
  }

  /** Whatever there is, recovery of a publication goes on exactly if both files
      are ones the record accounts for, and then removes the one beside the
      environment file if it is there. */
  lemma ForwardExactly(change: EnvChange, record: ForwardRecord, env: Option<Node>, staged: Option<Node>)
    ensures var waiting := NotYet(change, record, env) && (staged.None? || IsCandidate(change, record, staged));
            var moved :=
              && !record.ForwardPreparing? && !record.CandidateReady? && IsCandidate(change, record, env)
              && (staged.None? || (change.before.Some? && record.source.Some? && NotYet(change, record, staged)));
            ForwardVerdict(change, record, env, staged) ==
            if (waiting && !record.Published?) || moved then Some(staged.Some?) else None
  {
  }

  class EnvironmentStore {
    const power: Power
    /** Whether two files can be exchanged in one step; otherwise a publication
        replaces the earlier file. */
    const exchanges: bool
    /** The environment file. */
    var env: Option<Node>
    /** The private rollback directory and its two possible entries. */
    var room: bool
    var candidate: Option<Node>
    var removed: Option<Node>
    var rollback: Option<RollbackRecord>
    /** The forward candidate beside the environment file, and its record. */
    var staged: Option<Node>
    var forward: Option<ForwardRecord>
    /** Next unused file identity. */
    var nextId: nat

    constructor (power: Power, exchanges: bool, env: Option<Node>)
      ensures Valid(State()) && this.power == power && this.exchanges == exchanges && this.env == env && Quiet(State())
    {
      this.power, this.exchanges, this.env := power, exchanges, env;
      room, candidate, removed, rollback, staged, forward := false, None, None, None, None, None;
      nextId := if env.Some? then env.value.id + 1 else 0;
    }

    ghost function State(): EnvState
      reads this
    {
      EnvState(env, room, candidate, removed, rollback, staged, forward, nextId)
    }

    // ----- Rollback of the environment file ------------------------------------------

    method OpenRoom() returns (r: Outcome)
      modifies this`room, power
      ensures !r.Conflict? && (r.Pass? ==> room) && (r.Crash? ==> room == old(room))
      ensures old(power.left) == None ==> power.left == None && r.Pass?
    {
      if !room {
        :- power.Tick();
        room := true;
      }
      return Pass;
    }

    method Record(record: Option<RollbackRecord>) returns (r: Outcome)
      modifies this`rollback, power
      ensures !r.Conflict? && (if r.Pass? then rollback == record else rollback == old(rollback))
      ensures old(power.left) == None ==> power.left == None && r.Pass?
    {
      r := power.Tick();
      if r.Pass? {
        rollback := record;
      }
    }

    /** Creates the replacement in the private directory, or accepts the one a
        previous run finished; an unfinished one is replaced. */
    method CreateOrVerifyCandidate(content: EnvContent) returns (r: Outcome)
      requires Valid(State()) && room
      modifies this`candidate, this`nextId, power
      ensures Valid(State()) && nextId >= old(nextId)
      ensures old(power.left) == None ==> power.left == None && !r.Crash?
      ensures r.Conflict? <==>
              old(candidate.Some? && (candidate.value.kind != Regular || candidate.value.auth != content.auth))
      ensures r.Conflict? ==> candidate == old(candidate)
      ensures r.Pass? ==> IsFile(candidate, None, content)
      ensures candidate == old(candidate) || candidate.None?
              || (candidate.value.id >= old(nextId) && candidate.value.kind == Regular
                  && candidate.value.auth == content.auth
                     && (candidate.value.digest == EMPTY || candidate.value.digest == content.digest))
      ensures candidate != old(candidate) && old(candidate).Some? ==> old(candidate).value.auth == content.auth
      // A finished one is kept, an unfinished one removed before anything else.
      ensures old(IsFile(candidate, None, content)) ==> r.Pass? && candidate == old(candidate)
      ensures !r.Conflict?
              && old(power.left == Some(1) && candidate.Some? && candidate.value.digest != content.digest) ==>
                candidate.None?
    {
      if candidate.Some? {
        if candidate.value.kind != Regular || candidate.value.auth != content.auth {
          return Conflict;
        }
        if candidate.value.digest == content.digest {
          return Pass;
        }
        :- power.Tick();
        candidate := None;
      }
      :- power.Tick();
      candidate, nextId := Some(Node(nextId, Regular, EMPTY, content.auth)), nextId + 1;
      :- power.Tick();
      candidate := Some(candidate.value.(digest := content.digest));
      return Pass;
    }

    /** From the first record to the one that names both files. */
    method PrepareExchange(change: EnvChange, expected: Option<nat>) returns (r: Outcome)
      requires Valid(State()) && room && rollback == Some(Preparing)
      modifies this`candidate, this`rollback, this`nextId, power
      ensures Valid(State())
      ensures old(power.left) == None ==> power.left == None && !r.Crash?
      ensures old(Restorable(change, State()) && IsFile(env, expected, change.after)) ==>
                !r.Conflict? && Restorable(change, State())
      ensures r.Pass? ==> IsFile(env, None, change.after) && rollback.Some? && rollback.value.ExchangePending?
                          && rollback.value.source == env.value.id
                             && rollback.value.source != rollback.value.candidate
                             && IsFile(candidate, Some(rollback.value.candidate), Replacement(change))
      ensures !r.Pass? ==> rollback == Some(Preparing)
      ensures forall f :: f in old(Files(State())) && f !in Files(State()) ==>
                old(candidate) == Some(f) && f.auth == Replacement(change).auth
    {
      if !IsFile(env, expected, change.after) || removed.Some? {
        return Conflict;
      }
      var source := env.value.id;
      :- CreateOrVerifyCandidate(Replacement(change));
      if source == candidate.value.id {
        return Conflict; // the record refuses a duplicate identity
      }
      :- Record(Some(ExchangePending(source, candidate.value.id)));
      return Pass;
    }

    /** Both files are as recorded before the exchange. */
    static ghost predicate Ready(change: EnvChange, e: EnvState, record: RollbackRecord)
      requires !record.Preparing?
    {
      && IsFile(e.env, Some(record.source), change.after)
      && IsFile(e.candidate, Some(record.candidate), Replacement(change))
    }

    /** They are so after it. */
    static ghost predicate Made(change: EnvChange, e: EnvState, record: RollbackRecord)
      requires !record.Preparing?
    {
      && IsFile(e.env, Some(record.candidate), Replacement(change))
      && IsFile(e.candidate, Some(record.source), change.after)
    }

    /** After it, but the displaced file turns out to hold something else. */
    static ghost predicate Mistaken(change: EnvChange, e: EnvState, record: RollbackRecord)
      requires !record.Preparing?
    {
      && IsFile(e.env, Some(record.candidate), Replacement(change)) && IdOf(e.candidate) == Some(record.source)
      && e.candidate.value.kind == Regular && e.candidate.value.auth == change.after.auth
      && e.candidate.value.digest != change.after.digest
    }

    /** The exchange itself, unless a previous run made it. */
    method Exchange(change: EnvChange) returns (r: Outcome)
      requires Valid(State()) && room && rollback.Some? && rollback.value.ExchangePending?
      modifies this`env, this`candidate, this`rollback, power
      ensures Valid(State()) && Files(State()) == old(Files(State()))
      ensures old(power.left) == None ==> power.left == None && !r.Crash?
      ensures old(Restorable(change, State())) ==>
              !r.Conflict? && Restorable(change, State()) && (r.Pass? ==> Swapped(change, State()))
      ensures rollback == if r.Pass? then Some(Exchanged(old(rollback.value.source), old(rollback.value.candidate)))
              else old(rollback)
      // From any state at all: it passes exactly from the two sides of the
      // exchange, and a displaced file with other content is given back.
      ensures r.Pass? ==> Made(change, State(), rollback.value)
      ensures old(rollback.value.source != rollback.value.candidate) && !r.Crash? ==>
                (r.Pass? <==> old(Ready(change, State(), rollback.value) || Made(change, State(), rollback.value)))
                && (r.Conflict? ==> if old(Mistaken(change, State(), rollback.value))
                                    then env == old(candidate) && candidate == old(env)
                                    else env == old(env) && candidate == old(candidate))
    {
      var s, c, stand := rollback.value.source, rollback.value.candidate, Replacement(change);
      if IdOf(env) == Some(s) && IdOf(candidate) == Some(c) {
        if !IsFile(env, Some(s), change.after) || !IsFile(candidate, Some(c), stand) {
          return Conflict;
        }
        :- power.Tick();
        env, candidate := candidate, env;
      } else if !(IdOf(env) == Some(c) && IdOf(candidate) == Some(s)) {
        return Conflict;
      }
      if !IsFile(env, Some(c), stand) {
        return Conflict;
      }
      if !IsFile(candidate, Some(s), change.after) {
        // The displaced file is not the one recorded: give it its place back.
        if candidate.value.kind == Regular && candidate.value.auth == change.after.auth && s != c {
          :- power.Tick();
          env, candidate := candidate, env;
        }
        return Conflict;
      }
      :- Record(Some(Exchanged(s, c)));
      return Pass;
    }

    /** Puts the replacement in place of the published file: from a record that
        is new or still pending to one that says the exchange is done. */
    method ExchangeIn(change: EnvChange, expected: Option<nat>) returns (r: Outcome)
      requires Valid(State()) && room && rollback.Some?
      modifies this`env, this`candidate, this`rollback, this`nextId, power
      ensures Valid(State())
      ensures old(power.left) == None ==> power.left == None && !r.Crash?
      ensures old(Restorable(change, State()))
              && old(rollback.value.Preparing? ==> IsFile(env, expected, change.after)) ==>
                !r.Conflict? && Restorable(change, State())
                && (r.Pass? ==> if old(rollback.value.Preparing? || rollback.value.ExchangePending?)
                                then Swapped(change, State())
                                else State() == old(State()))
      ensures r.Pass? ==> rollback.Some? && !rollback.value.Preparing? && !rollback.value.ExchangePending?
      ensures forall f :: f in old(Files(State())) && f !in Files(State()) ==>
                old(rollback.value.Preparing? && candidate == Some(f)) && f.auth == Replacement(change).auth
      ensures r.Pass? && !old(rollback.value.Preparing?) ==>
                rollback.value.source == old(rollback.value.source)
                && rollback.value.candidate == old(rollback.value.candidate)
      ensures r.Pass? && old(rollback.value.Preparing?) ==>
                IsFile(old(env), None, change.after) && rollback.value.source == old(env).value.id
    {
      if rollback.value.Preparing? {
        :- PrepareExchange(change, expected);
      }
      if rollback.value.ExchangePending? {
        :- Exchange(change);
      }
      return Pass;
    }

    /** Deletes an entry of the private directory, if it is there and is the
        recorded file. */
    method UnlinkCandidate(id: nat, content: EnvContent) returns (r: Outcome)
      modifies this`candidate, power
      ensures old(power.left) == None ==> power.left == None && !r.Crash?
      ensures r.Conflict? <==> old(candidate).Some? && !IsFile(old(candidate), Some(id), content)
      ensures if r.Pass? then candidate.None? else candidate == old(candidate)
    {
      if candidate.Some? {
        if !IsFile(candidate, Some(id), content) {
          return Conflict;
        }
        :- power.Tick();
        candidate := None;
      }
      return Pass;
    }

    method UnlinkRemoved(id: nat, content: EnvContent) returns (r: Outcome)
      modifies this`removed, power
      ensures old(power.left) == None ==> power.left == None && !r.Crash?
      ensures r.Conflict? <==> old(removed).Some? && !IsFile(old(removed), Some(id), content)
      ensures if r.Pass? then removed.None? else removed == old(removed)
    {
      if removed.Some? {
        if !IsFile(removed, Some(id), content) {
          return Conflict;
        }
        :- power.Tick();
        removed := None;
      }
      return Pass;
    }

    /** After the exchange, when there was a file before. */
    method FinishExisting(change: EnvChange) returns (r: Outcome)
      requires Valid(State()) && rollback.Some? && !rollback.value.Preparing? && change.before.Some?
      modifies this`candidate, power
      ensures Valid(State())
      ensures old(power.left) == None ==> power.left == None && !r.Crash?
      ensures old(Restorable(change, State()) && rollback.value.Exchanged?) ==>
              !r.Conflict? && Restorable(change, State())
      ensures r.Pass? ==> candidate.None? && removed.None? && rollback.value.Exchanged? && BeforeState(env, change)
      ensures forall f :: f in old(Files(State())) && f !in Files(State()) ==>
                Expendable(change, old(rollback), old(env), old(candidate), f)
    {
      if !rollback.value.Exchanged? {
        return Conflict;
      }
      if !IsFile(env, Some(rollback.value.candidate), Replacement(change)) {
        return Conflict;
      }
      :- UnlinkCandidate(rollback.value.source, change.after);
      if removed.Some? {
        return Conflict;
      }
      return Pass;
    }

    /** Gives a moved stand-in its place back if the move is found to be wrong. */
    method RestoreRemoved() returns (r: Outcome)
      requires Valid(State())
      modifies this`env, this`removed, power
      ensures Valid(State()) && !r.Conflict? && Files(State()) == old(Files(State()))
      ensures old(power.left) == None ==> power.left == None && r.Pass?
      ensures if r.Pass? && old(env.None? && removed.Some?) then env == old(removed) && removed.None?
              else env == old(env) && removed == old(removed)
    {
      if env.None? && removed.Some? {
        :- power.Tick();
        env, removed := removed, None;
      }
      return Pass;
    }

    /** Moves the stand-in out of the way, under records of its own. */
    method VacatePath(change: EnvChange) returns (r: Outcome)
      requires Valid(State()) && room && rollback.Some? && !rollback.value.Preparing? && change.before.None?
      modifies this`env, this`removed, this`rollback, power
      ensures Valid(State()) && Files(State()) == old(Files(State()))
      ensures old(power.left) == None ==> power.left == None && !r.Crash?
      ensures old(Restorable(change, State()) && !rollback.value.ExchangePending?) ==>
              !r.Conflict? && Restorable(change, State())
      ensures rollback.Some? && !rollback.value.Preparing?
              && rollback.value.source == old(rollback.value.source)
                 && rollback.value.candidate == old(rollback.value.candidate)
      ensures r.Pass? ==> env.None? && rollback.value.Vacated?
      // From any state at all: only the stand-in is moved away, and what turns
      // out not to be it is given back.
      ensures r.Pass? && !old(rollback.value.Vacated?) ==>
                IsFile(removed, Some(rollback.value.candidate), Replacement(change))
                && IsFile(candidate, Some(rollback.value.source), change.after)
      ensures old(env).Some? && env.None? ==>
                old(removed).None? && IsFile(old(env), Some(rollback.value.candidate), Replacement(change))
                && IsFile(candidate, Some(rollback.value.source), change.after)
      ensures old(rollback.value.AbsencePending? && env.None? && removed.Some?
                  && IsFile(candidate, Some(rollback.value.source), change.after)
                  && !IsFile(removed, Some(rollback.value.candidate), Replacement(change))) && !r.Crash? ==>
                r.Conflict? && env == old(removed) && removed.None?
      ensures old(rollback.value.Exchanged?) && !old(Made(change, State(), rollback.value) && removed.None?) ==>
                r.Conflict? && State() == old(State())
    {
      var s, c, stand := rollback.value.source, rollback.value.candidate, Replacement(change);
      if rollback.value.Exchanged? {
        if !IsFile(env, Some(c), stand) || !IsFile(candidate, Some(s), change.after) || removed.Some? {
          return Conflict;
        }
        :- Record(Some(AbsencePending(s, c)));
      }
      if rollback.value.AbsencePending? {
        if !IsFile(candidate, Some(s), change.after) {
          return Conflict;
        }
        if IdOf(env) == Some(c) && removed.None? {
          if !IsFile(env, Some(c), stand) {
            return Conflict;
          }
          :- power.Tick();
          removed, env := env, None;
        } else if !(env.None? && IdOf(removed) == Some(c)) {
          :- RestoreRemoved();
          return Conflict;
        }
        if !IsFile(removed, Some(c), stand) {
          :- RestoreRemoved();
          return Conflict;
        }
        :- Record(Some(Vacated(s, c)));
      }
      if !rollback.value.Vacated? || env.Some? {
        return Conflict;
      }
      return Pass;
    }

    /** After the exchange, when there was no file before: the stand-in is moved
        away, then both files are deleted. */
    method FinishAbsent(change: EnvChange) returns (r: Outcome)
      requires Valid(State()) && room && rollback.Some? && !rollback.value.Preparing? && change.before.None?
      modifies this`env, this`candidate, this`removed, this`rollback, power
      ensures Valid(State())
      ensures old(power.left) == None ==> power.left == None && !r.Crash?
      ensures old(Restorable(change, State()) && !rollback.value.ExchangePending?) ==>
              !r.Conflict? && Restorable(change, State())
      ensures r.Pass? ==> candidate.None? && removed.None? && env.None? && rollback.Some? && rollback.value.Vacated?
      ensures forall f :: f in old(Files(State())) && f !in Files(State()) ==>
                Expendable(change, old(rollback), old(env), old(candidate), f)
    {
      var s, c := rollback.value.source, rollback.value.candidate;
      :- VacatePath(change);
      :- UnlinkCandidate(s, change.after);
      :- UnlinkRemoved(c, Replacement(change));
      return Pass;
    }

    /** Both halves of the rollback inside an open private directory. */
    method Displace(change: EnvChange, expected: Option<nat>) returns (r: Outcome)
      requires Valid(State()) && room && rollback.Some?
      modifies this`env, this`candidate, this`removed, this`rollback, this`nextId, power
      ensures Valid(State())
      ensures old(power.left) == None ==> power.left == None && !r.Crash?
      ensures old(Restorable(change, State()))
              && old(rollback.value.Preparing? ==> IsFile(env, expected, change.after)) ==>
                !r.Conflict? && Restorable(change, State()) && (r.Pass? ==> BeforeState(env, change))
      ensures r.Pass? ==> candidate.None? && removed.None? && rollback.Some?
                          && (rollback.value.Exchanged? || rollback.value.Vacated?) && BeforeState(env, change)
      ensures forall f :: f in old(Files(State())) && f !in Files(State()) ==>
                Expendable(change, old(rollback), old(env), old(candidate), f)
    {
      r := ExchangeIn(change, expected);
      if !r.Pass? {
        return r;
      }
      if change.before.Some? {
        :- FinishExisting(change);
      } else {
        :- FinishAbsent(change);
      }
      return Pass;
    }

    /** Rollback of the environment file, from whatever a previous run left.
        `expected` is the file seen at the environment path by the run that
        starts the rollback; a run that resumes one has no such expectation. */
    method RestoreEnvironment(change: EnvChange, expected: Option<nat>) returns (r: Outcome)
      requires Valid(State())
      modifies this`env, this`room, this`candidate, this`removed, this`rollback, this`nextId, power
      ensures Valid(State())
      ensures old(power.left) == None ==> power.left == None && !r.Crash?
      // From every crash point: restored, or interrupted at a crash point.
      ensures old(Restorable(change, State()))
              && old(rollback.None? ==> expected.Some? && IsFile(env, expected, change.after))
              && old(rollback == Some(Preparing) ==> IsFile(env, expected, change.after)) ==>
                !r.Conflict? && Restorable(change, State()) && (r.Pass? ==> Restored(change, State()))
                && (r.Crash? && rollback.None? ==> old(rollback).None? && env == old(env))
      // From any state at all: a pass means restored, and only expendable files
      // are deleted.
      ensures r.Pass? ==> BeforeState(env, change) && !room && candidate.None? && removed.None? && rollback.None?
      ensures forall f :: f in old(Files(State())) && f !in Files(State()) ==>
                Expendable(change, old(rollback), old(env), old(candidate), f)
    {
      hide BeforeState, IsFile, Replacement;
      ghost var record := rollback;
      r := EnterRoom(change, expected);
      ExpendableEither(change, record, rollback, env, candidate);
      if !r.Pass? {
        return;
      }
      hide Expendable;
      :- Displace(change, expected);
      if candidate.Some? || removed.Some? {
        return Conflict;
      }
      r := LeaveRoom(change);
    }

    /** The record first, then the private directory. */
    method EnterRoom(change: EnvChange, expected: Option<nat>) returns (r: Outcome)
      requires Valid(State())
      modifies this`room, this`rollback, power
      ensures Valid(State()) && Files(State()) == old(Files(State()))
      ensures old(power.left) == None ==> power.left == None && !r.Crash?
      ensures r.Conflict? <==> old(rollback).None? && expected.None?
      ensures rollback == old(rollback) || (old(rollback).None? && rollback == Some(Preparing))
      ensures r.Pass? ==> room && rollback.Some?
      ensures old(Restorable(change, State())) && old(rollback.None? ==> IsFile(env, expected, change.after)) ==>
              Restorable(change, State())
    {
      if rollback.None? {
        if expected.None? {
          return Conflict;
        }
        :- Record(Some(Preparing));
      }
      r := OpenRoom();
    }

    /** The private directory, then the record. */
    method LeaveRoom(change: EnvChange) returns (r: Outcome)
      requires Valid(State()) && room && rollback.Some? && (rollback.value.Exchanged? || rollback.value.Vacated?)
      requires candidate.None? && removed.None?
      modifies this`room, this`rollback, power
      ensures Valid(State()) && Files(State()) == old(Files(State())) && !r.Conflict?
      ensures old(power.left) == None ==> power.left == None && !r.Crash?
      ensures r.Crash? ==> rollback == old(rollback)
      ensures r.Pass? ==> !room && rollback.None?
      ensures old(Restorable(change, State()) && BeforeState(env, change)) ==>
                Restorable(change, State()) && (r.Pass? ==> Restored(change, State()))
    {
      r := power.Tick();
      if r.Pass? {
        room := false;
        r := Record(None);
      }
    }

    // ----- Forward publication --------------------------------------------------------

    method RecordForward(record: Option<ForwardRecord>) returns (r: Outcome)
      modifies this`forward, power
      ensures !r.Conflict? && (if r.Pass? then forward == record else forward == old(forward))
      ensures old(power.left) == None ==> power.left == None && r.Pass?
      ensures r.Crash? <==> old(power.left) == Some(0)
      ensures r.Pass? && old(power.left).Some? ==> power.left == Some(old(power.left).value - 1)
    {
      r := power.Tick();
      if r.Pass? {
        forward := record;
      }
    }

    /** Prepares the candidate, up to the record that announces its move. */
    method StageCandidate(change: EnvChange, expected: Option<nat>) returns (r: Outcome)
      requires Valid(State())
      modifies this`staged, this`forward, this`nextId, power
      ensures Valid(State())
      ensures old(power.left) == None ==> power.left == None && !r.Crash?
      ensures old(Quiet(State()) && BeforeSource(change, env, expected)) ==> !r.Conflict? && Publishing(change, State())
      ensures r.Pass? ==> forward.Some? && forward.value.PublishPending? && forward.value.source == expected
                          && IsFile(staged, Some(forward.value.candidate), change.after)
      // A candidate that is there is not overwritten; the written one is on
      // record before the move is announced.
      ensures old(staged).Some? ==> !r.Pass? && staged == old(staged)
      ensures old(staged.None? && power.left == Some(4)) ==>
                && forward == Some(CandidateReady(expected, old(nextId)))
                && IsFile(staged, Some(old(nextId)), change.after)
    {
      var c := nextId;
      :- RecordForward(Some(ForwardPreparing(expected)));
      if staged.Some? {
        return Conflict; // exclusive creation
      }
      :- power.Tick();
      staged, nextId := Some(Node(c, Regular, EMPTY, change.after.auth)), nextId + 1;
      :- power.Tick();
      staged := Some(staged.value.(digest := change.after.digest));
      :- RecordForward(Some(CandidateReady(expected, c)));
      :- RecordForward(Some(PublishPending(expected, c)));
      return Pass;
    }

    /** Publication of the new environment file by exchange with, or replacement
        by (or, when there was none, a move of) a candidate prepared beside it. */
    method PublishEnvironment(change: EnvChange, expected: Option<nat>) returns (r: Outcome)
      requires Valid(State())
      modifies this`env, this`staged, this`forward, this`nextId, power
      ensures Valid(State())
      ensures old(power.left) == None ==> power.left == None && !r.Crash?
      ensures old(Quiet(State()) && BeforeSource(change, env, expected)) ==>
                !r.Conflict? && Publishing(change, State())
                && (r.Pass? ==> Quiet(State()) && IsFile(env, None, change.after))
      // From any state at all: only the recorded file is replaced, and a pass
      // means published.
      ensures old(if change.before.None? then expected.Some? || env.Some? else expected.None?) ==>
                r.Conflict? && State() == old(State())
      ensures env != old(env) ==>
                IsFile(env, None, change.after) && old(if change.before.None? then env.None?
                                                      else IsFile(env, expected, change.before.value))
      ensures r.Pass? ==> IsFile(env, None, change.after) && staged.None? && forward.None?
    {
      if change.before.None? {
        if expected.Some? || env.Some? {
          return Conflict;
        }
      } else if expected.None? {
        return Conflict;
      }
      :- StageCandidate(change, expected);
      var c := forward.value.candidate;
      if !IsFile(staged, Some(c), change.after) {
        return Conflict;
      }
      if change.before.None? {
        if env.Some? {
          return Conflict;
        }
        :- power.Tick();
        env, staged := staged, None;
      } else {
        if !IsFile(env, expected, change.before.value) {
          return Conflict;
        }
        :- power.Tick();
        env, staged := staged, if exchanges then env else None;
      }
      :- FinishPublication(change, expected, c);
      return Pass;
    }

    /** Confirms the move and removes the earlier file. */
    method FinishPublication(change: EnvChange, expected: Option<nat>, c: nat) returns (r: Outcome)
      requires Valid(State())
      modifies this`staged, this`forward, power
      ensures Valid(State())
      ensures old(power.left) == None ==> power.left == None && !r.Crash?
      ensures old(Publishing(change, State()) && forward == Some(PublishPending(expected, c))
              && Moved(change, State(), expected, c)) ==>
                !r.Conflict? && Publishing(change, State())
                && (r.Pass? ==> Quiet(State()) && IsFile(env, None, change.after))
      // From any state at all: the earlier file goes only if it is the recorded
      // one, and only once the publication is on record.
      ensures !IsFile(env, Some(c), change.after) ==> r.Conflict? && State() == old(State())
      ensures staged != old(staged) ==>
                change.before.Some? && IsFile(old(staged), expected, change.before.value) && staged.None?
      ensures r.Pass? ==> forward.None? && (change.before.Some? ==> staged.None?)
      ensures old(power.left == Some(1)) && IsFile(env, Some(c), change.after) && !r.Conflict? ==>
                forward == Some(Published(expected, c)) && staged == old(staged)
    {
      if !IsFile(env, Some(c), change.after) {
        return Conflict;
      }
      :- RecordForward(Some(Published(expected, c)));
      if change.before.Some? && staged.Some? {
        if !IsFile(staged, expected, change.before.value) {
          return Conflict;
        }
        :- power.Tick();
        staged := None;
      }
      :- RecordForward(None);
      return Pass;
    }

    /** Recovery of an interrupted publication.  It never touches the environment
        file: what it finds there, the earlier file or the new one, stays. */
    method ResumeForward(change: EnvChange) returns (r: Outcome)
      requires Valid(State())
      modifies this`staged, this`forward, power
      ensures Valid(State())
      ensures old(power.left) == None ==> power.left == None && !r.Crash?
      ensures old(Publishing(change, State())) ==>
                Publishing(change, State())
                && (r.Conflict? <==> old(UnfinishedCandidate(change, State())))
                && (r.Pass? ==> Quiet(State()) && (BeforeState(env, change) || IsFile(env, None, change.after)))
      ensures r.Conflict? ==> staged == old(staged) && forward == old(forward)
      ensures (staged == old(staged) || staged.None?) && (forward == old(forward) || forward.None?)
      ensures r.Pass? && old(forward).None? ==> staged == old(staged) && forward == None
    {
      if forward.None? {
        return Pass;
      }
      match ForwardVerdict(change, forward.value, env, staged)
      case None => return Conflict;
      case Some(remove) =>
        if remove {
          :- power.Tick();
          staged := None;
        }
        :- RecordForward(None);
        return Pass;
    }
  }
}
