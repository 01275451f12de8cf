/** The interleaved steps of the target manager and of policy changes. */
module TargetProtocol {
  import opened Text
  import opened Targets

  /** The browser's side of a session. `resumed` holds from the moment the resume
      command may have reached it, `present` until it detaches. */
  datatype Target = Target(kind: Kind, fetch: Option<bool>, blocked: bool, resumed: bool, present: bool)

  /** Where the manager's task stands. It holds the read lock from `Configuring` on. */
  datatype Manager =
    | Ready
    | Rejecting(error: Error)
    | Reserved(session: Session)
    | Configuring(session: Session, todo: seq<Command>)
    | Resuming(session: Session)
    | Failing(session: Session, error: Error)
    | Removed(session: Session, error: Error)
    | Ended

  /** A policy change that holds the write lock. */
  datatype Writer =
    | NoWriter
    | Deciding(change: Change)
    | FanOut(change: Change, todo: set<Session>, applied: nat)

  datatype State = State(
    registry: Registry,
    targets: map<Session, Target>,
    policy: Policy,
    manager: Manager,
    writer: Writer,
    cancelled: bool,
    owed: seq<Error>,   // changes that failed part-way and have not recorded their error yet
    limits: Limits,
    installCollector: bool
  )

  function Initial(limits: Limits, installCollector: bool): State {
    State(Registry(map[], map[], None), map[], Policy(None, false), Ready, NoWriter, false, [], limits, installCollector)
  }

  predicate ReadLocked(s: State) {
    s.manager.Configuring? || s.manager.Resuming? || s.manager.Failing? || s.manager.Removed?
  }

  datatype Event =
    // the manager's task
    | Attach(session: Session, target: TargetId, kind: Kind)
    | RecordRejection
    | AcquireRead
    | ConfigureOk
    | ConfigureFails(took: bool, error: Error)
    | Resume
    | ResumeOk
    | ResumeFails(error: Error)
    | RemoveFailed
    | RecordFailure
    | NoteError(error: Error)
    | StreamFails(error: Error)
    | ProcessDetach(session: Session, found: Option<TargetId>)
    | EndTask
    // the browser
    | BrowserDetach(session: Session)
    // policy changes and shutdown
    | BeginChange(change: Change)
    | Decide
    | ApplyOk(session: Session)
    | ApplyFails(session: Session, took: bool, error: Error)
    | CommitChange(change: Change)
    | RecordPartial
    | DropChange(reached: Option<Session>)  // the caller gives up, possibly while a command is on its way
    | DropRecording
    | Cancel

  function Perform(t: Target, c: Command): Target {
    match c
    case Plain(_) => t
    case FetchEnable(subresources) => t.(fetch := Some(subresources))
    case SetBlockedUrls => t.(blocked := true)
  }

  function ChangeCommand(change: Change): Command {
    match change
    case EnableFetch(subresources) => FetchEnable(subresources)
    case BlockNetwork => SetBlockedUrls
  }

  /** A command reaches a session, if the browser knows it. */
  function Run(targets: map<Session, Target>, session: Session, c: Command): map<Session, Target> {
    if session in targets then targets[session := Perform(targets[session], c)] else targets
  }

  predicate Enabled(s: State, e: Event) {
    match e
    case Attach(session, _, kind) =>
      // The browser gives a session id to one live target at a time.
      s.manager.Ready? && (session in s.targets ==> !s.targets[session].present) && (SupportsFetch(kind) || Blockable(kind))
    case RecordRejection => s.manager.Rejecting?
    case AcquireRead => s.manager.Reserved? && s.writer.NoWriter? && s.manager.session in s.targets
    case ConfigureOk => s.manager.Configuring? && s.manager.todo != []
    case ConfigureFails(_, _) => s.manager.Configuring? && s.manager.todo != []
    case Resume => s.manager.Configuring? && s.manager.todo == [] && s.manager.session in s.targets
    case ResumeOk => s.manager.Resuming?
    case ResumeFails(_) => s.manager.Resuming?
    case RemoveFailed => s.manager.Failing?
    case RecordFailure => s.manager.Removed?
    case NoteError(_) => s.manager.Ready?
    case StreamFails(_) => s.manager.Ready?
    case ProcessDetach(session, found) =>
      s.manager.Ready? && session in s.targets && !s.targets[session].present && Finds(s.registry, session, found)
    case EndTask => s.cancelled && !s.manager.Failing? && !s.manager.Removed?
    case BrowserDetach(session) => session in s.targets
    case BeginChange(_) => s.writer.NoWriter? && !ReadLocked(s)
    case Decide => s.writer.Deciding?
    case ApplyOk(session) => s.writer.FanOut? && session in s.writer.todo
    case ApplyFails(session, _, _) => s.writer.FanOut? && session in s.writer.todo
    case CommitChange(change) => s.writer.FanOut? && s.writer.todo == {} && s.writer.change == change
    case RecordPartial => s.owed != []
    case DropChange(reached) =>
      !s.writer.NoWriter? && (reached.Some? ==> s.writer.FanOut? && reached.value in s.writer.todo)
    case DropRecording => s.owed != []
    case Cancel => true
  }

  function AttachTarget(s: State, session: Session, target: TargetId, kind: Kind): State {
    var t := s.(targets := s.targets[session := Target(kind, None, false, false, true)]);
    if Admits(s.registry, kind, s.limits)
    then t.(registry := Reserve(s.registry, session, target, kind), manager := Reserved(session))
    else t.(manager := Rejecting(FRAME_LIMIT))
  }

  function DecideChange(s: State): State
    requires s.writer.Deciding?
  {
    var change := s.writer.change;
    if s.registry.error.Some? || Committed(change, s.policy) then s.(writer := NoWriter)
    else
      var sessions := set k | k in s.registry.managed && AppliesTo(change, s.registry.managed[k]);
      s.(writer := FanOut(change, sessions, 0))
  }

  function FailChange(s: State, session: Session, took: bool, error: Error): State
    requires s.writer.FanOut?
  {
    var t := s.(writer := NoWriter,
                targets := if took then Run(s.targets, session, ChangeCommand(s.writer.change)) else s.targets);
    if s.writer.applied > 0 then t.(cancelled := true, owed := s.owed + [error]) else t
  }

  function Apply(s: State, e: Event): State
    requires Enabled(s, e)
  {
    match e
    case Attach(session, target, kind) => AttachTarget(s, session, target, kind)
    case RecordRejection => s.(registry := SetError(s.registry, s.manager.error), manager := Ready)
    case AcquireRead =>
      if s.cancelled then s.(manager := Ended)
      else s.(manager := Configuring(s.manager.session,
                ConfigureCommands(s.targets[s.manager.session].kind, s.policy, s.installCollector)))
    case ConfigureOk =>
      s.(targets := Run(s.targets, s.manager.session, s.manager.todo[0]),
         manager := Configuring(s.manager.session, s.manager.todo[1..]))
    case ConfigureFails(took, error) =>
      s.(targets := if took then Run(s.targets, s.manager.session, s.manager.todo[0]) else s.targets,
         manager := Failing(s.manager.session, error))
    case Resume =>
      s.(targets := s.targets[s.manager.session := s.targets[s.manager.session].(resumed := true)],
         manager := Resuming(s.manager.session))
    case ResumeOk => s.(manager := Ready)
    case ResumeFails(error) => s.(manager := Failing(s.manager.session, error))
    case RemoveFailed =>
      s.(registry := RemoveSession(s.registry, s.manager.session), manager := Removed(s.manager.session, s.manager.error))
    case RecordFailure => s.(registry := SetError(s.registry, s.manager.error), manager := Ready)
    case NoteError(error) => s.(registry := SetError(s.registry, error))
    case StreamFails(error) => s.(registry := SetError(s.registry, error), manager := Ended)
    case ProcessDetach(session, found) => s.(registry := RecordDetached(s.registry, session, found))
    case EndTask => s.(manager := Ended)
    case BrowserDetach(session) => s.(targets := s.targets[session := s.targets[session].(present := false)])
    case BeginChange(change) => s.(writer := Deciding(change))
    case Decide => DecideChange(s)
    case ApplyOk(session) =>
      s.(targets := Run(s.targets, session, ChangeCommand(s.writer.change)),
         writer := FanOut(s.writer.change, s.writer.todo - {session}, s.writer.applied + 1))
    case ApplyFails(session, took, error) => FailChange(s, session, took, error)
    case CommitChange(change) => s.(policy := Commit(change, s.policy), writer := NoWriter)
    case RecordPartial =>
      s.(registry := SetError(s.registry, s.owed[0]), owed := s.owed[1..], cancelled := true)
    case DropChange(reached) =>
      s.(writer := NoWriter,
         targets := if reached.Some? then Run(s.targets, reached.value, ChangeCommand(s.writer.change)) else s.targets)
    case DropRecording => s.(owed := s.owed[1..])
    case Cancel => s.(cancelled := true)
  }

  // --- Invariant ---

  /** The target has what the committed policy promises its kind. */
  ghost predicate Meets(t: Target, policy: Policy) {
    && (policy.fetch.Some? && SupportsFetch(t.kind) ==> t.fetch == policy.fetch)
    && (policy.blocked && Blockable(t.kind) ==> t.blocked)
  }

  /** A target in front of the resume command has, or is still due, what is promised. */
  ghost predicate MeetsOrDue(t: Target, policy: Policy, todo: seq<Command>) {
    && (policy.fetch.Some? && SupportsFetch(t.kind) ==> t.fetch == policy.fetch || FetchEnable(policy.fetch.value) in todo)
    && (policy.blocked && Blockable(t.kind) ==> t.blocked || SetBlockedUrls in todo)
    && (forall v :: FetchEnable(v) in todo ==> policy.fetch == Some(v))
  }

  /** The target has a change that is being fanned out. */
  ghost predicate Has(t: Target, change: Change) {
    match change
    case EnableFetch(subresources) => t.fetch == Some(subresources)
    case BlockNetwork => t.blocked
  }

  ghost predicate Exclusive(s: State) {
    !s.writer.NoWriter? ==> !ReadLocked(s)
  }

  ghost predicate Sessions(s: State) {
    && (forall k :: k in s.registry.managed ==>
          k in s.targets && (s.targets[k].resumed ==> s.targets[k].kind == s.registry.managed[k]))
    && (s.manager.Reserved? || ReadLocked(s) ==> s.manager.session in s.targets)
    && (s.manager.Reserved? || s.manager.Configuring? ==> !s.targets[s.manager.session].resumed)
    && (s.manager.Reserved? || s.manager.Configuring? || s.manager.Resuming? ==>
          s.manager.session in s.registry.managed
          && s.targets[s.manager.session].kind == s.registry.managed[s.manager.session])
  }

  ghost predicate Promise(s: State) {
    && (forall k :: k in s.targets && s.targets[k].present && s.targets[k].resumed ==> Meets(s.targets[k], s.policy))
    && (s.manager.Configuring? && s.manager.session in s.targets ==>
          MeetsOrDue(s.targets[s.manager.session], s.policy, s.manager.todo))
  }

  /** Resumed targets are managed, or the registry is closed to further changes. */
  ghost predicate Managed(s: State) {
    forall k :: k in s.targets && s.targets[k].present && s.targets[k].resumed && k !in s.registry.managed ==>
      (s.registry.error.Some? || (s.manager.Removed? && s.manager.session == k)) && !s.writer.FanOut?
  }

  ghost predicate FannedOut(s: State) {
    s.writer.FanOut? ==>
      && !Committed(s.writer.change, s.policy)
      && (forall k :: (k in s.targets && s.targets[k].present && s.targets[k].resumed
                       && AppliesTo(s.writer.change, s.targets[k].kind)) ==>
            k in s.writer.todo || Has(s.targets[k], s.writer.change))
  }

  ghost predicate Table(s: State) {
    WithinLimits(s.registry, s.limits)
  }

  ghost predicate Core(s: State) {
    Exclusive(s) && Sessions(s) && Promise(s) && Managed(s) && FannedOut(s)
  }

  ghost predicate Inv(s: State) {
    Core(s) && Table(s)
  }

  /** Every step stays within the limits. */
  lemma TableStep(s: State, e: Event)
    requires Inv(s) && Enabled(s, e)
    ensures Table(Apply(s, e))
  {
    hide Core, Run, ConfigureCommands, Reserve, RemoveSession, RecordDetached, Admits;
    match e
    case Attach(session, target, kind) => TableKeepsLimits(s.registry, s.limits, session, target, kind, None);
    case RemoveFailed => TableKeepsLimits(s.registry, s.limits, s.manager.session, 0, Document, None);
    case ProcessDetach(session, found) => TableKeepsLimits(s.registry, s.limits, session, 0, Document, found);
    case _ =>
  }

  // Each transformation of the state keeps the core of the invariant.

  lemma AttachCore(s: State, session: Session, target: TargetId, kind: Kind)
    requires Core(s) && s.manager.Ready?
    ensures Core(AttachTarget(s, session, target, kind))
  {
    hide Core, Admits, Reserve;
    var t := s.(targets := s.targets[session := Target(kind, None, false, false, true)]);
    NewTargetCore(s, session, kind);
    if Admits(s.registry, kind, s.limits) {
      ReserveCore(t, session, target, kind);
    } else {
      RejectCore(t);
    }
  }

  lemma NewTargetCore(s: State, session: Session, kind: Kind)
    requires Core(s) && s.manager.Ready?
    ensures Core(s.(targets := s.targets[session := Target(kind, None, false, false, true)]))
  {
  }

  lemma ReserveCore(s: State, session: Session, target: TargetId, kind: Kind)
    requires Core(s) && s.manager.Ready? && session in s.targets
    requires !s.targets[session].resumed && s.targets[session].kind == kind
    ensures Core(s.(registry := Reserve(s.registry, session, target, kind), manager := Reserved(session)))
  {
  }

  lemma RejectCore(s: State)
    requires Core(s) && s.manager.Ready?
    ensures Core(s.(manager := Rejecting(FRAME_LIMIT)))
  {
  }

  /** Recording an error never reopens the registry. */
  lemma ErrorCore(s: State, error: Error)
    requires Core(s)
    ensures Core(s.(registry := SetError(s.registry, error)))
  {
  }

  /** The manager leaves a target alone: a failed one has been removed and its error recorded. */
  lemma LeaveCore(s: State, manager: Manager)
    requires Core(s) && (manager.Ready? || manager.Ended?) && (s.manager.Removed? ==> s.registry.error.Some?)
    ensures Core(s.(manager := manager))
  {
  }

  lemma PartialCore(s: State, owed: seq<Error>, cancelled: bool)
    requires Core(s)
    ensures Core(s.(owed := owed, cancelled := cancelled))
  {
  }

  lemma ErrorStep(s: State, e: Event)
    requires Inv(s) && Enabled(s, e) && (e.RecordRejection? || e.RecordFailure? || e.NoteError? || e.StreamFails? || e.RecordPartial?)
    ensures Core(Apply(s, e))
  {
    hide Core, Table;
    match e
    case RecordRejection =>
      ErrorCore(s, s.manager.error);
      LeaveCore(s.(registry := SetError(s.registry, s.manager.error)), Ready);
    case RecordFailure =>
      ErrorCore(s, s.manager.error);
      LeaveCore(s.(registry := SetError(s.registry, s.manager.error)), Ready);
    case NoteError(error) => ErrorCore(s, error);
    case StreamFails(error) =>
      ErrorCore(s, error);
      LeaveCore(s.(registry := SetError(s.registry, error)), Ended);
    case RecordPartial =>
      ErrorCore(s, s.owed[0]);
      PartialCore(s.(registry := SetError(s.registry, s.owed[0])), s.owed[1..], true);
  }

  /** A target is resumed only when nothing it is due is left to send. */
  lemma ResumeCore(s: State)
    requires Core(s) && s.manager.Configuring? && s.manager.todo == [] && s.manager.session in s.targets
    ensures Core(s.(targets := s.targets[s.manager.session := s.targets[s.manager.session].(resumed := true)],
                    manager := Resuming(s.manager.session)))
  {
  }

  lemma FailCore(s: State, error: Error)
    requires Core(s) && (s.manager.Configuring? || s.manager.Resuming?)
    ensures Core(s.(manager := Failing(s.manager.session, error)))
  {
  }

  lemma RemoveCore(s: State)
    requires Core(s) && s.manager.Failing?
    ensures Core(s.(registry := RemoveSession(s.registry, s.manager.session),
                    manager := Removed(s.manager.session, s.manager.error)))
  {
  }

  lemma ResumeStep(s: State, e: Event)
    requires Inv(s) && Enabled(s, e) && (e.Resume? || e.ResumeOk? || e.ResumeFails? || e.RemoveFailed?)
    ensures Core(Apply(s, e))
  {
    hide Core, Table;
    match e
    case Resume => ResumeCore(s);
    case ResumeOk => LeaveCore(s, Ready);
    case ResumeFails(error) => FailCore(s, error);
    case RemoveFailed => RemoveCore(s);
  }

  lemma CancelCore(s: State)
    requires Core(s)
    ensures Core(s.(cancelled := true))
  {
  }

  lemma BeginCore(s: State, change: Change)
    requires Core(s) && s.writer.NoWriter? && !ReadLocked(s)
    ensures Core(s.(writer := Deciding(change)))
  {
  }

  lemma EndStep(s: State, e: Event)
    requires Inv(s) && Enabled(s, e) && (e.EndTask? || e.Cancel? || e.BeginChange?)
    ensures Core(Apply(s, e))
  {
    hide Core, Table;
    match e
    case EndTask => LeaveCore(s, Ended);
    case Cancel => CancelCore(s);
    case BeginChange(change) => BeginCore(s, change);
  }

  lemma DetachedCore(s: State, session: Session, found: Option<TargetId>)
    requires Core(s) && s.manager.Ready? && session in s.targets && !s.targets[session].present
    ensures Core(s.(registry := RecordDetached(s.registry, session, found)))
  {
  }

  lemma GoneCore(s: State, session: Session)
    requires Core(s) && session in s.targets
    ensures Core(s.(targets := s.targets[session := s.targets[session].(present := false)]))
  {
  }

  lemma DetachStep(s: State, e: Event)
    requires Inv(s) && Enabled(s, e) && (e.ProcessDetach? || e.BrowserDetach?)
    ensures Core(Apply(s, e))
  {
    hide Core, Table;
    match e
    case ProcessDetach(session, found) => DetachedCore(s, session, found);
    case BrowserDetach(session) => GoneCore(s, session);
  }

  lemma AttachStep(s: State, e: Event)
    requires Inv(s) && Enabled(s, e) && e.Attach?
    ensures Core(Apply(s, e))
  {
    hide Core, Table, AttachTarget;
    AttachCore(s, e.session, e.target, e.kind);
  }

  /** A command reaches the target that is being configured. */
  lemma ConfigureCore(s: State)
    requires Core(s) && s.manager.Configuring? && s.manager.todo != []
    ensures Core(s.(targets := Run(s.targets, s.manager.session, s.manager.todo[0]),
                    manager := Configuring(s.manager.session, s.manager.todo[1..])))
  {
    hide MeetsOrDue, Perform;
    var t := s.targets[s.manager.session];
    PerformMeets(t, s.policy, s.manager.todo);
    PerformKeeps(t, s.manager.todo[0]);
  }

  lemma PerformMeets(t: Target, policy: Policy, todo: seq<Command>)
    requires todo != [] && MeetsOrDue(t, policy, todo)
    ensures MeetsOrDue(Perform(t, todo[0]), policy, todo[1..])
  {
    assert forall c :: c in todo && c != todo[0] ==> c in todo[1..];
  }

  lemma PerformKeeps(t: Target, c: Command)
    ensures Perform(t, c).kind == t.kind && Perform(t, c).resumed == t.resumed && Perform(t, c).present == t.present
  {
  }

  lemma ConfigureStep(s: State, e: Event)
    requires Inv(s) && Enabled(s, e) && e.ConfigureOk?
    ensures Core(Apply(s, e))
  {
    hide Core, Table, Run;
    ConfigureCore(s);
  }

  lemma ConfigureFailsStep(s: State, e: Event)
    requires Inv(s) && Enabled(s, e) && e.ConfigureFails?
    ensures Core(Apply(s, e))
  {
    hide Core, Table, Run;
    if e.took {
      ConfigureCore(s);
      FailCore(s.(targets := Run(s.targets, s.manager.session, s.manager.todo[0]),
                  manager := Configuring(s.manager.session, s.manager.todo[1..])), e.error);
    } else {
      FailCore(s, e.error);
    }
  }

  /** A session is configured with the policy that is committed while the read lock is held. */
  lemma ReadCore(s: State, todo: seq<Command>)
    requires Core(s) && s.manager.Reserved? && s.writer.NoWriter?
    requires s.manager.session in s.targets && MeetsOrDue(s.targets[s.manager.session], s.policy, todo)
    ensures Core(s.(manager := Configuring(s.manager.session, todo)))
  {
  }

  lemma ReadStep(s: State, e: Event)
    requires Inv(s) && Enabled(s, e) && e.AcquireRead?
    ensures Core(Apply(s, e))
  {
    hide Core, Table, ConfigureCommands;
    if s.cancelled {
      LeaveCore(s, Ended);
    } else {
      var kind := s.targets[s.manager.session].kind;
      ConfigureCovers(kind, s.policy, s.installCollector);
      ReadCore(s, ConfigureCommands(kind, s.policy, s.installCollector));
    }
  }

  /** A change is committed only when every resumed target it applies to has it. */
  lemma CommitCore(s: State)
    requires Core(s) && s.writer.FanOut? && s.writer.todo == {}
    ensures Core(s.(policy := Commit(s.writer.change, s.policy), writer := NoWriter))
  {
  }

  lemma CommitStep(s: State, e: Event)
    requires Inv(s) && Enabled(s, e) && e.CommitChange?
    ensures Core(Apply(s, e))
  {
    hide Core, Table;
    CommitCore(s);
  }

  lemma TickOff(s: State, session: Session)
    requires Core(s) && s.writer.FanOut? && session in s.targets && Has(s.targets[session], s.writer.change)
    ensures Core(s.(writer := FanOut(s.writer.change, s.writer.todo - {session}, s.writer.applied + 1)))
  {
  }

  lemma SpreadStep(s: State, e: Event)
    requires Inv(s) && Enabled(s, e) && e.ApplyOk?
    ensures Core(Apply(s, e))
  {
    hide Core, Table, Run, Has;
    var t := s.(targets := Run(s.targets, e.session, ChangeCommand(s.writer.change)));
    CommandKeepsCore(s, e.session);
    RunGives(s.targets, e.session, s.writer.change);
    if e.session in s.targets {
      TickOff(t, e.session);
    } else {
      TickOffUnknown(t, e.session);
    }
  }

  lemma RunGives(targets: map<Session, Target>, session: Session, change: Change)
    ensures var after := Run(targets, session, ChangeCommand(change));
      && after.Keys == targets.Keys
      && (session in targets ==> Has(after[session], change))
  {
  }

  lemma TickOffUnknown(s: State, session: Session)
    requires Core(s) && s.writer.FanOut? && session !in s.targets
    ensures Core(s.(writer := FanOut(s.writer.change, s.writer.todo - {session}, s.writer.applied + 1)))
  {
  }

  /** The sessions to reach are the managed ones that the change applies to; a resumed target
      that is not managed means that the registry has an error, and then nothing is begun. */
  lemma DecideCore(s: State)
    requires Core(s) && s.writer.Deciding?
    ensures Core(DecideChange(s))
  {
  }

  lemma DecideStep(s: State, e: Event)
    requires Inv(s) && Enabled(s, e) && e.Decide?
    ensures Core(Apply(s, e))
  {
    hide Core, Table, DecideChange;
    DecideCore(s);
  }

  lemma CommandKeepsCore(s: State, session: Session)
    requires Core(s) && s.writer.FanOut?
    ensures Core(s.(targets := Run(s.targets, session, ChangeCommand(s.writer.change))))
  {
  }

  lemma ReleaseKeepsCore(s: State, cancelled: bool, owed: seq<Error>)
    requires Core(s)
    ensures Core(s.(writer := NoWriter, cancelled := cancelled, owed := owed))
  {
  }

  lemma FailStep(s: State, e: Event)
    requires Inv(s) && Enabled(s, e) && e.ApplyFails?
    ensures Core(Apply(s, e))
  {
    hide Core, Table, Run;
    CommandKeepsCore(s, e.session);
    var t := if e.took then s.(targets := Run(s.targets, e.session, ChangeCommand(s.writer.change))) else s;
    ReleaseKeepsCore(t, if s.writer.applied > 0 then true else s.cancelled,
                     if s.writer.applied > 0 then s.owed + [e.error] else s.owed);
  }

  /** A change that is dropped leaves some targets with it, but commits nothing. */
  lemma DropStep(s: State, e: Event)
    requires Inv(s) && Enabled(s, e) && (e.DropChange? || e.DropRecording?)
    ensures Core(Apply(s, e))
  {
    hide Core, Table, Run;
    match e
    case DropChange(reached) =>
      if reached.Some? {
        CommandKeepsCore(s, reached.value);
        ReleaseKeepsCore(s.(targets := Run(s.targets, reached.value, ChangeCommand(s.writer.change))), s.cancelled, s.owed);
      } else {
        ReleaseKeepsCore(s, s.cancelled, s.owed);
      }
    case DropRecording => PartialCore(s, s.owed[1..], s.cancelled);
  }

  lemma Step(s: State, e: Event)
    requires Inv(s) && Enabled(s, e)
    ensures Inv(Apply(s, e))
  {
    hide Core, Table, Apply, Enabled;
    TableStep(s, e);
    match e
    case Attach(_, _, _) => AttachStep(s, e);
    case RecordRejection => ErrorStep(s, e);
    case AcquireRead => ReadStep(s, e);
    case ConfigureOk => ConfigureStep(s, e);
    case ConfigureFails(_, _) => ConfigureFailsStep(s, e);
    case Resume => ResumeStep(s, e);
    case ResumeOk => ResumeStep(s, e);
    case ResumeFails(_) => ResumeStep(s, e);
    case RemoveFailed => ResumeStep(s, e);
    case RecordFailure => ErrorStep(s, e);
    case NoteError(_) => ErrorStep(s, e);
    case StreamFails(_) => ErrorStep(s, e);
    case ProcessDetach(_, _) => DetachStep(s, e);
    case EndTask => EndStep(s, e);
    case BrowserDetach(_) => DetachStep(s, e);
    case BeginChange(_) => EndStep(s, e);
    case Decide => DecideStep(s, e);
    case ApplyOk(_) => SpreadStep(s, e);
    case ApplyFails(_, _, _) => FailStep(s, e);
    case CommitChange(_) => CommitStep(s, e);
    case RecordPartial => ErrorStep(s, e);
    case DropChange(_) => DropStep(s, e);
    case DropRecording => DropStep(s, e);
    case Cancel => EndStep(s, e);
  }

  // --- Runs ---

  ghost predicate ValidRun(s: State, events: seq<Event>)
    decreases |events|
  {
    events == [] || (Enabled(s, events[0]) && ValidRun(Apply(s, events[0]), events[1..]))
  }

  ghost function Final(s: State, events: seq<Event>): State
    requires ValidRun(s, events)
    decreases |events|
  {
    if events == [] then s else Final(Apply(s, events[0]), events[1..])
  }

  lemma {:induction false} RunKeepsInv(s: State, events: seq<Event>)
    requires Inv(s) && ValidRun(s, events)
    ensures Inv(Final(s, events)) && Final(s, events).limits == s.limits
    decreases |events|
  {
    hide Inv, Apply, Enabled;
    if events != [] {
      Step(s, events[0]);
      SameLimits(s, events[0]);
      RunKeepsInv(Apply(s, events[0]), events[1..]);
    }
  }

  lemma SameLimits(s: State, e: Event)
    requires Enabled(s, e)
    ensures Apply(s, e).limits == s.limits
  {
  }

  lemma Reached(limits: Limits, installCollector: bool, events: seq<Event>)
    requires ValidRun(Initial(limits, installCollector), events)
    ensures Inv(Final(Initial(limits, installCollector), events))
    ensures Final(Initial(limits, installCollector), events).limits == limits
  {
    hide Apply, Enabled, ConfigureCommands;
    assert Inv(Initial(limits, installCollector));
    RunKeepsInv(Initial(limits, installCollector), events);
  }

  /** In every interleaving, every resumed target that has not detached has the committed
      policy its kind is promised: interception as committed for documents and service
      workers, the network block for documents and workers. */
  lemma ResumedTargetsMeetPolicy(limits: Limits, installCollector: bool, events: seq<Event>, session: Session)
    requires ValidRun(Initial(limits, installCollector), events)
    ensures var s := Final(Initial(limits, installCollector), events);
      session in s.targets && s.targets[session].present && s.targets[session].resumed ==>
        var t := s.targets[session];
        && (s.policy.fetch.Some? && (t.kind.Document? || t.kind.ServiceWorker?) ==> t.fetch == s.policy.fetch)
        && (s.policy.blocked && (t.kind.Document? || t.kind.Worker?) ==> t.blocked)
  {
    hide Apply, Enabled, ValidRun, Final, WithinLimits;
    Reached(limits, installCollector, events);
  }

  /** Counts stay within the limits, also when session ids are used again. */
  lemma CountsStayWithinLimits(limits: Limits, installCollector: bool, events: seq<Event>)
    requires ValidRun(Initial(limits, installCollector), events)
    ensures var s := Final(Initial(limits, installCollector), events);
      |s.registry.managed| <= limits.targets && |s.registry.frames| <= limits.frames
  {
    hide Apply, Enabled, ValidRun, Final, Core;
    Reached(limits, installCollector, events);
  }

  /** The state after `count` events of a run. */
  ghost function At(s: State, events: seq<Event>, count: nat): State
    requires ValidRun(s, events) && count <= |events|
    decreases |events|
  {
    if count == 0 then s else At(Apply(s, events[0]), events[1..], count - 1)
  }

  lemma {:induction false} AtNext(s: State, events: seq<Event>, count: nat)
    requires ValidRun(s, events) && count < |events|
    ensures Enabled(At(s, events, count), events[count])
    ensures At(s, events, count + 1) == Apply(At(s, events, count), events[count])
    decreases |events|
  {
    hide Apply, Enabled;
    if count > 0 {
      AtNext(Apply(s, events[0]), events[1..], count - 1);
    }
  }

  // --- Frames and sessions ---

  /** The event enters no session that a frame has, unless it is that frame again. */
  ghost predicate Unshared(s: State, e: Event) {
    e.Attach? && Admits(s.registry, e.kind, s.limits) ==>
      forall t :: t in s.registry.frames && s.registry.frames[t] == e.session ==> e.kind.Document? && t == e.target
  }

  lemma FramesStep(s: State, e: Event)
    requires Enabled(s, e) && FramesManaged(s.registry)
    ensures FramesManaged(Apply(s, e).registry) <==> Unshared(s, e)
  {
    hide FramesManaged, Run, ConfigureCommands, RemoveSession, RecordDetached, Reserve, Admits, SetError;
    match e
    case Attach(session, target, kind) => ReserveKeepsFramesManaged(s.registry, session, target, kind);
    case RemoveFailed => RemoveKeepsFramesManaged(s.registry, s.manager.session);
    case ProcessDetach(session, found) => DetachKeepsFramesManaged(s.registry, session, found);
    case RecordRejection => ErrorKeepsFrames(s.registry, s.manager.error);
    case RecordFailure => ErrorKeepsFrames(s.registry, s.manager.error);
    case NoteError(error) => ErrorKeepsFrames(s.registry, error);
    case StreamFails(error) => ErrorKeepsFrames(s.registry, error);
    case RecordPartial => ErrorKeepsFrames(s.registry, s.owed[0]);
    case _ =>
  }

  lemma ErrorKeepsFrames(r: Registry, error: Error)
    ensures FramesManaged(SetError(r, error)) <==> FramesManaged(r)
  {
  }

  ghost predicate AlwaysManaged(s: State, events: seq<Event>)
    requires ValidRun(s, events)
  {
    forall i :: 0 <= i <= |events| ==> FramesManaged(At(s, events, i).registry)
  }

  ghost predicate NeverShared(s: State, events: seq<Event>)
    requires ValidRun(s, events)
  {
    forall i :: 0 <= i < |events| ==> Unshared(At(s, events, i), events[i])
  }

  /** Every frame has a managed document session of its own throughout a run exactly when
      no attachment of the run shares a frame's session. */
  lemma FramesStayManaged(limits: Limits, installCollector: bool, events: seq<Event>)
    requires ValidRun(Initial(limits, installCollector), events)
    ensures AlwaysManaged(Initial(limits, installCollector), events) <==> NeverShared(Initial(limits, installCollector), events)
  {
    hide Apply, Enabled, ValidRun, FramesManaged, Unshared, At;
    var s := Initial(limits, installCollector);
    NoFrames(limits, installCollector, events);
    if NeverShared(s, events) {
      forall i | 0 <= i <= |events|
        ensures FramesManaged(At(s, events, i).registry)
      {
        FramesManagedAt(s, events, i);
      }
    }
    if AlwaysManaged(s, events) {
      forall i | 0 <= i < |events|
        ensures Unshared(At(s, events, i), events[i])
      {
        AtNext(s, events, i);
        FramesStep(At(s, events, i), events[i]);
      }
    }
  }

  lemma NoFrames(limits: Limits, installCollector: bool, events: seq<Event>)
    requires ValidRun(Initial(limits, installCollector), events)
    ensures FramesManaged(At(Initial(limits, installCollector), events, 0).registry)
  {
  }

  lemma {:induction false} FramesManagedAt(s: State, events: seq<Event>, count: nat)
    requires ValidRun(s, events) && count <= |events| && FramesManaged(At(s, events, 0).registry)
    requires NeverShared(s, events)
    ensures FramesManaged(At(s, events, count).registry)
  {
    hide Apply, Enabled, ValidRun, FramesManaged, Unshared, At;
    if count > 0 {
      FramesManagedAt(s, events, count - 1);
      AtNext(s, events, count - 1);
      FramesStep(At(s, events, count - 1), events[count - 1]);
    }
  }

  // --- A change that fails part-way ---

  ghost function Resumed(s: State): set<Session> {
    set k | k in s.targets && s.targets[k].resumed
  }

  /** The manager is cancelled and no target is between its policy and its resumption. */
  ghost predicate Shut(s: State) {
    s.cancelled && !s.manager.Configuring? && !s.manager.Resuming?
  }

  /** A failure is still to be recorded, or an error is. */
  ghost predicate Owing(s: State) {
    s.owed != [] || s.registry.error.Some?
  }

  /** Once shut, the manager resumes nothing: a target that gets the read lock is given up. */
  lemma ShutStep(s: State, e: Event)
    requires Enabled(s, e) && Shut(s)
    ensures Shut(Apply(s, e)) && Resumed(Apply(s, e)) <= Resumed(s)
  {
    hide ConfigureCommands, Admits, Reserve, RemoveSession, RecordDetached, SetError;
  }

  lemma OwingStep(s: State, e: Event)
    requires Enabled(s, e) && Owing(s) && !e.DropRecording?
    ensures Owing(Apply(s, e))
  {
    hide ConfigureCommands, Admits, Run;
  }

  /** The change holds the write lock, so no target is being configured when it fails. */
  lemma FailureShuts(s: State, e: Event)
    requires Inv(s) && Enabled(s, e) && e.ApplyFails? && s.writer.applied > 0
    ensures Shut(Apply(s, e)) && Owing(Apply(s, e)) && Resumed(Apply(s, e)) == Resumed(s)
  {
  }

  /** No caller gives up before it has recorded its failure. */
  ghost predicate Recording(events: seq<Event>, from: nat, to: nat)
    requires from <= to <= |events|
  {
    forall i :: from <= i < to ==> !events[i].DropRecording?
  }

  lemma {:induction false} StaysShut(s: State, events: seq<Event>, count: nat)
    requires ValidRun(s, events) && count <= |events| && Shut(s) && Owing(s)
    ensures var f := At(s, events, count);
      Shut(f) && Resumed(f) <= Resumed(s) && (Recording(events, 0, count) ==> Owing(f))
    decreases count
  {
    hide Apply, Enabled, Shut, Owing, Resumed, ValidRun, At;
    if count == 0 {
      AtStart(s, events);
    } else {
      StaysShut(s, events, count - 1);
      AtNext(s, events, count - 1);
      ShutStep(At(s, events, count - 1), events[count - 1]);
      if Recording(events, 0, count) {
        OwingStep(At(s, events, count - 1), events[count - 1]);
      }
    }
  }

  lemma AtStart(s: State, events: seq<Event>)
    requires ValidRun(s, events)
    ensures At(s, events, 0) == s
  {
  }

  lemma {:induction false} FailureIsFinal(s: State, events: seq<Event>, failure: nat, later: nat)
    requires Inv(s) && ValidRun(s, events) && failure < later <= |events| && events[failure].ApplyFails?
    requires var w := At(s, events, failure).writer; w.FanOut? && w.applied > 0
    ensures var f := At(s, events, later);
      Shut(f) && Resumed(f) <= Resumed(At(s, events, failure)) && (Recording(events, failure, later) ==> Owing(f))
    decreases |events|
  {
    hide Apply, Enabled, Inv, Shut, Owing, Resumed;
    if failure == 0 {
      FailureShuts(s, events[0]);
      StaysShut(Apply(s, events[0]), events[1..], later - 1);
      if Recording(events, 0, later) {
        assert Recording(events[1..], 0, later - 1);
      }
    } else {
      Step(s, events[0]);
      FailureIsFinal(Apply(s, events[0]), events[1..], failure - 1, later - 1);
      if Recording(events, failure, later) {
        assert Recording(events[1..], failure - 1, later - 1);
      }
    }
  }

  /** In every run, after a change has failed on a target although it had reached another,
      the manager is cancelled for good and no further target is ever resumed. Unless the
      caller is dropped before it can record the failure, there is an error once it has. */
  lemma PartialChangeCloses(limits: Limits, installCollector: bool, events: seq<Event>, failure: nat, later: nat)
    requires ValidRun(Initial(limits, installCollector), events) && failure < later <= |events| && events[failure].ApplyFails?
    requires var w := At(Initial(limits, installCollector), events, failure).writer; w.FanOut? && w.applied > 0
    ensures var s, f := At(Initial(limits, installCollector), events, failure), At(Initial(limits, installCollector), events, later);
      && f.cancelled && Resumed(f) <= Resumed(s)
      && (Recording(events, failure, later) && f.owed == [] ==> f.registry.error.Some?)
  {
    hide Apply, Enabled, ValidRun, At, Resumed, ConfigureCommands;
    Starts(limits, installCollector);
    FailureIsFinal(Initial(limits, installCollector), events, failure, later);
  }

  lemma Starts(limits: Limits, installCollector: bool)
    ensures Inv(Initial(limits, installCollector))
  {
  }

  /** An error, once recorded, and a cancellation are never taken back, and a committed
      policy is never changed. */
  lemma {:induction false} ErrorsStick(s: State, events: seq<Event>)
    requires Inv(s) && ValidRun(s, events)
    ensures var f := Final(s, events);
      && (s.registry.error.Some? ==> f.registry.error == s.registry.error)
      && (s.cancelled ==> f.cancelled)
      && (s.policy.fetch.Some? ==> f.policy.fetch == s.policy.fetch)
      && (s.policy.blocked ==> f.policy.blocked)
    decreases |events|
  {
    hide Inv, Apply, Enabled;
    if events != [] {
      Step(s, events[0]);
      ErrorSticks(s, events[0]);
      ErrorsStick(Apply(s, events[0]), events[1..]);
    }
  }

  lemma NotYetCommitted(s: State)
    requires Core(s)
    ensures s.writer.FanOut? ==> !Committed(s.writer.change, s.policy)
  {
  }

  lemma ErrorSticks(s: State, e: Event)
    requires Inv(s) && Enabled(s, e)
    ensures var f := Apply(s, e);
      && (s.registry.error.Some? ==> f.registry.error == s.registry.error)
      && (s.cancelled ==> f.cancelled)
      && (s.policy.fetch.Some? ==> f.policy.fetch == s.policy.fetch)
      && (s.policy.blocked ==> f.policy.blocked)
  {
    hide Core, Table, ConfigureCommands, Run, Admits;
    NotYetCommitted(s);
  }

  // --- What a committed change means for the targets ---

  lemma {:induction false} AtKeepsInv(s: State, events: seq<Event>, count: nat)
    requires Inv(s) && ValidRun(s, events) && count <= |events|
    ensures Inv(At(s, events, count))
    decreases |events|
  {
    hide Inv, Apply, Enabled;
    if count > 0 {
      Step(s, events[0]);
      AtKeepsInv(Apply(s, events[0]), events[1..], count - 1);
    }
  }

  lemma PolicyStep(s: State, e: Event)
    requires Inv(s) && Enabled(s, e)
    ensures var policy := Apply(s, e).policy;
      && (policy.blocked <==> s.policy.blocked || e == CommitChange(BlockNetwork))
      && (forall v :: policy.fetch == Some(v) <==> s.policy.fetch == Some(v) || e == CommitChange(EnableFetch(v)))
  {
    hide Core, Table, ConfigureCommands, Run, Admits;
    NotYetCommitted(s);
  }

  /** The change has been committed among the first `count` events. */
  ghost predicate Made(events: seq<Event>, count: nat, change: Change)
    requires count <= |events|
  {
    exists i :: 0 <= i < count && events[i] == CommitChange(change)
  }

  lemma MadeNext(events: seq<Event>, count: nat, change: Change)
    requires count < |events|
    ensures Made(events, count + 1, change) <==> Made(events, count, change) || events[count] == CommitChange(change)
  {
  }

  /** The policy is what the changes committed so far make it, and interception is
      committed with one value only. */
  lemma {:induction false} PolicyIsWhatWasCommitted(limits: Limits, installCollector: bool, events: seq<Event>, count: nat)
    requires ValidRun(Initial(limits, installCollector), events) && count <= |events|
    ensures var policy := At(Initial(limits, installCollector), events, count).policy;
      && (policy.blocked <==> Made(events, count, BlockNetwork))
      && (forall v :: policy.fetch == Some(v) <==> Made(events, count, EnableFetch(v)))
    decreases count
  {
    hide Inv, Apply, Enabled, ValidRun;
    var s := Initial(limits, installCollector);
    Starts(limits, installCollector);
    if count == 0 {
      AtStart(s, events);
    } else {
      hide At, Made;
      PolicyIsWhatWasCommitted(limits, installCollector, events, count - 1);
      AtKeepsInv(s, events, count - 1);
      AtNext(s, events, count - 1);
      PolicyStep(At(s, events, count - 1), events[count - 1]);
      MadeNext(events, count - 1, BlockNetwork);
      forall v
        ensures Made(events, count, EnableFetch(v)) <==>
          Made(events, count - 1, EnableFetch(v)) || events[count - 1] == CommitChange(EnableFetch(v))
      {
        MadeNext(events, count - 1, EnableFetch(v));
      }
    }
  }

  lemma PromiseOf(s: State, session: Session)
    requires Inv(s) && session in s.targets && s.targets[session].present && s.targets[session].resumed
    ensures Meets(s.targets[session], s.policy)
  {
  }

  /** After a block has been committed, every resumed document and worker is blocked for
      good; after interception has been committed, every resumed document and service
      worker is intercepted as it was committed. This holds of targets that attach later
      too. */
  lemma CommitHolds(limits: Limits, installCollector: bool, events: seq<Event>, commit: nat, later: nat, session: Session)
    requires ValidRun(Initial(limits, installCollector), events) && commit < later <= |events|
    requires var s := At(Initial(limits, installCollector), events, later);
      session in s.targets && s.targets[session].present && s.targets[session].resumed
    ensures var t := At(Initial(limits, installCollector), events, later).targets[session];
      && (events[commit] == CommitChange(BlockNetwork) && (t.kind.Document? || t.kind.Worker?) ==> t.blocked)
      && (forall v :: events[commit] == CommitChange(EnableFetch(v)) && (t.kind.Document? || t.kind.ServiceWorker?) ==>
            t.fetch == Some(v))
  {
    hide Inv, Apply, Enabled, ValidRun, At;
    Starts(limits, installCollector);
    AtKeepsInv(Initial(limits, installCollector), events, later);
    PromiseOf(At(Initial(limits, installCollector), events, later), session);
    PolicyIsWhatWasCommitted(limits, installCollector, events, later);
    assert events[commit] == CommitChange(BlockNetwork) ==> Made(events, later, BlockNetwork);
    assert forall v :: events[commit] == CommitChange(EnableFetch(v)) ==> Made(events, later, EnableFetch(v));
  }

  /** Nothing of the change's sort has been committed among the first `count` events. */
  ghost predicate NotMade(events: seq<Event>, count: nat, change: Change)
    requires count <= |events|
  {
    match change
    case BlockNetwork => !Made(events, count, BlockNetwork)
    case EnableFetch(_) => forall v :: !Made(events, count, EnableFetch(v))
  }

  lemma DecideFansOut(s: State)
    requires s.writer.Deciding? && s.registry.error.None?
    requires s.writer.change.BlockNetwork? ==> !s.policy.blocked
    requires s.writer.change.EnableFetch? ==> s.policy.fetch.None?
    ensures var w := DecideChange(s).writer;
      && w.FanOut? && w.change == s.writer.change && w.applied == 0
      && (forall k :: k in w.todo <==>
            k in s.registry.managed
            && (w.change.BlockNetwork? || s.registry.managed[k].Document? || s.registry.managed[k].ServiceWorker?))
  {
  }

  /** A change of a sort that has not been committed, decided on while no error is
      recorded, is for every managed session: interception for the documents and the
      service workers, the block for all of them. */
  lemma DecisionReachesEveryManaged(limits: Limits, installCollector: bool, events: seq<Event>, k: nat)
    requires ValidRun(Initial(limits, installCollector), events) && k < |events| && events[k].Decide?
    requires var s := At(Initial(limits, installCollector), events, k);
      s.registry.error.None? && s.writer.Deciding? && NotMade(events, k, s.writer.change)
    ensures var s, f := At(Initial(limits, installCollector), events, k), At(Initial(limits, installCollector), events, k + 1);
      && f.writer.FanOut? && f.writer.change == s.writer.change
      && (forall session :: session in f.writer.todo <==>
            session in s.registry.managed
            && (s.writer.change.BlockNetwork? || s.registry.managed[session].Document?
                || s.registry.managed[session].ServiceWorker?))
  {
    hide Inv, Enabled, ValidRun, At, Made, DecideChange;
    var s := At(Initial(limits, installCollector), events, k);
    PolicyIsWhatWasCommitted(limits, installCollector, events, k);
    assert s.policy.fetch.Some? ==> Made(events, k, EnableFetch(s.policy.fetch.value));
    AtNext(Initial(limits, installCollector), events, k);
    DecideFansOut(s);
  }

  /** A change is turned down, and reaches no target, exactly when an error is recorded or
      a change of its sort has been committed. */
  lemma DecisionTurnsDown(limits: Limits, installCollector: bool, events: seq<Event>, k: nat)
    requires ValidRun(Initial(limits, installCollector), events) && k < |events| && events[k].Decide?
    ensures var s, f := At(Initial(limits, installCollector), events, k), At(Initial(limits, installCollector), events, k + 1);
      && s.writer.Deciding? && f.targets == s.targets && f.policy == s.policy
      && (f.writer.NoWriter? <==> s.registry.error.Some? || !NotMade(events, k, s.writer.change))
  {
    hide Inv, ValidRun, At, Made;
    var s := At(Initial(limits, installCollector), events, k);
    PolicyIsWhatWasCommitted(limits, installCollector, events, k);
    assert s.policy.fetch.Some? ==> Made(events, k, EnableFetch(s.policy.fetch.value));
    AtNext(Initial(limits, installCollector), events, k);
  }

  lemma {:induction false} ErrorsStickAt(limits: Limits, installCollector: bool, events: seq<Event>, from: nat, later: nat)
    requires ValidRun(Initial(limits, installCollector), events) && from <= later <= |events|
    ensures var s, f := At(Initial(limits, installCollector), events, from), At(Initial(limits, installCollector), events, later);
      s.registry.error.Some? ==> f.registry.error == s.registry.error
    decreases later
  {
    hide Inv, Apply, Enabled, ValidRun, At;
    var s := Initial(limits, installCollector);
    if from < later {
      Starts(limits, installCollector);
      ErrorsStickAt(limits, installCollector, events, from, later - 1);
      AtKeepsInv(s, events, later - 1);
      AtNext(s, events, later - 1);
      ErrorSticks(At(s, events, later - 1), events[later - 1]);
    }
  }

  /** A document that detaches although it was managed as a frame leaves the table, and the
      capture has an error for good: the first that was recorded, or else this one. */
  lemma DetachedFrameIsAnError(limits: Limits, installCollector: bool, events: seq<Event>, k: nat, later: nat,
                               session: Session, target: TargetId)
    requires ValidRun(Initial(limits, installCollector), events) && k < later <= |events|
    requires events[k] == ProcessDetach(session, Some(target))
    requires var r := At(Initial(limits, installCollector), events, k).registry;
      session in r.managed && r.managed[session].Document?
    ensures var s, t := At(Initial(limits, installCollector), events, k), At(Initial(limits, installCollector), events, k + 1);
      && session !in t.registry.managed && target !in t.registry.frames
      && var f := At(Initial(limits, installCollector), events, later);
         f.registry.error == if s.registry.error.Some? then s.registry.error else Some(FRAME_DETACHED)
  {
    hide Inv, ValidRun, At;
    AtNext(Initial(limits, installCollector), events, k);
    ErrorsStickAt(limits, installCollector, events, k + 1, later);
  }

  /** A change that is decided on, fanned out or committed is one that a caller began. */
  lemma {:induction false} ChangeWasBegun(limits: Limits, installCollector: bool, events: seq<Event>, count: nat) returns (k: nat)
    requires ValidRun(Initial(limits, installCollector), events) && count <= |events|
    requires !At(Initial(limits, installCollector), events, count).writer.NoWriter?
    ensures k < count && events[k] == BeginChange(At(Initial(limits, installCollector), events, count).writer.change)
    decreases count
  {
    hide Inv, Apply, Enabled, ValidRun;
    var s := Initial(limits, installCollector);
    AtStart(s, events);
    if count > 0 {
      hide At;
      AtNext(s, events, count - 1);
      WriterStep(At(s, events, count - 1), events[count - 1]);
      if events[count - 1].BeginChange? {
        k := count - 1;
      } else {
        k := ChangeWasBegun(limits, installCollector, events, count - 1);
      }
    }
  }

  lemma WriterStep(s: State, e: Event)
    requires Enabled(s, e) && !Apply(s, e).writer.NoWriter?
    ensures e == BeginChange(Apply(s, e).writer.change)
            || (!e.BeginChange? && !s.writer.NoWriter? && s.writer.change == Apply(s, e).writer.change)
  {
    hide ConfigureCommands, Run, Admits, Committed, AppliesTo;
  }
}
