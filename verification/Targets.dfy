/**
 The target manager's policy protocol. One task attaches, configures and resumes
 targets under a read lock, while policy changes are fanned out to the managed targets
 under the write lock. Commands to the browser may fail, with or without having taken
 effect, and the manager may be cancelled at any await.
 */
module Targets {
  import opened Text

  type Session = nat
  type TargetId = nat
  type Error = string

  datatype Kind = Document | ServiceWorker | Worker | Popup | Other

  predicate SupportsFetch(kind: Kind) {
    kind.Document? || kind.ServiceWorker?
  }

  /** Kinds whose session is configured beyond fetch interception. */
  predicate Blockable(kind: Kind) {
    kind.Document? || kind.Worker?
  }

  /** `fetch` holds whether subresource requests are intercepted too. */
  datatype Policy = Policy(fetch: Option<bool>, blocked: bool)

  datatype Change = EnableFetch(subresources: bool) | BlockNetwork

  predicate Committed(change: Change, policy: Policy) {
    match change
    case EnableFetch(_) => policy.fetch.Some?
    case BlockNetwork => policy.blocked
  }

  predicate AppliesTo(change: Change, kind: Kind) {
    change.EnableFetch? ==> SupportsFetch(kind)
  }

  function Commit(change: Change, policy: Policy): Policy {
    match change
    case EnableFetch(subresources) => policy.(fetch := Some(subresources))
    case BlockNetwork => policy.(blocked := true)
  }

  datatype Limits = Limits(frames: nat, targets: nat)

  // --- The shared table ---

  datatype Registry = Registry(frames: map<TargetId, Session>, managed: map<Session, Kind>, error: Option<Error>)

  const FRAME_LIMIT: Error := "offprint.frame.limit"
  const FRAME_DETACHED: Error := "offprint.frame.detached"

  predicate Admits(r: Registry, kind: Kind, limits: Limits) {
    |r.managed| < limits.targets && (kind.Document? ==> |r.frames| < limits.frames)
  }

  function Reserve(r: Registry, session: Session, target: TargetId, kind: Kind): Registry {
    r.(managed := r.managed[session := kind],
       frames := if kind.Document? then r.frames[target := session] else r.frames)
  }

  function RemoveSession(r: Registry, session: Session): Registry {
    r.(managed := map k | k in r.managed && k != session :: r.managed[k],
       frames := map t | t in r.frames && r.frames[t] != session :: r.frames[t])
  }

  function SetError(r: Registry, error: Error): Registry {
    if r.error.Some? then r else r.(error := Some(error))
  }

  /** `found` is the frame the search for the session comes upon, if any. */
  predicate Finds(r: Registry, session: Session, found: Option<TargetId>) {
    match found
    case Some(t) => t in r.frames && r.frames[t] == session
    case None => forall t :: t in r.frames ==> r.frames[t] != session
  }

  function RecordDetached(r: Registry, session: Session, found: Option<TargetId>): Registry {
    var s := r.(managed := map k | k in r.managed && k != session :: r.managed[k]);
    if session in r.managed && r.managed[session].Document? && found.Some?
    then SetError(s.(frames := map t | t in r.frames && t != found.value :: r.frames[t]), FRAME_DETACHED)
    else s
  }

  /** Every frame's session is managed as a document, and no two frames share one. */
  ghost predicate FramesManaged(r: Registry) {
    && (forall t :: t in r.frames ==> r.frames[t] in r.managed && r.managed[r.frames[t]].Document?)
    && (forall t, u :: t in r.frames && u in r.frames && r.frames[t] == r.frames[u] ==> t == u)
  }

  ghost predicate WithinLimits(r: Registry, limits: Limits) {
    |r.managed| <= limits.targets && |r.frames| <= limits.frames
  }

  /** A new target is refused exactly when its entries would exceed a limit. */
  lemma AdmitsExactly(r: Registry, session: Session, target: TargetId, kind: Kind, limits: Limits)
    requires WithinLimits(r, limits) && session !in r.managed && target !in r.frames
    ensures Admits(r, kind, limits) <==> WithinLimits(Reserve(r, session, target, kind), limits)
  {
    assert |r.managed[session := kind]| == |r.managed| + 1;
    assert |r.frames[target := session]| == |r.frames| + 1;
  }

  /** Reserving keeps every frame's session managed exactly when no other frame already
      has the session, and none at all has it unless the new target is a document. */
  lemma ReserveKeepsFramesManaged(r: Registry, session: Session, target: TargetId, kind: Kind)
    requires FramesManaged(r)
    ensures FramesManaged(Reserve(r, session, target, kind)) <==>
      forall t :: t in r.frames && r.frames[t] == session ==> kind.Document? && t == target
  {
    var after := Reserve(r, session, target, kind);
    if kind.Document? {
      assert target in after.frames;
      if t :| t in r.frames && r.frames[t] == session && t != target {
        assert after.frames[t] == after.frames[target];
        assert !FramesManaged(after);
      }
    } else if t :| t in r.frames && r.frames[t] == session {
      assert after.frames[t] == session && after.managed[session] == kind;
    }
  }

  /** A session id used for a second frame leaves that frame behind when the session
      detaches: it stays listed although its session is no longer managed. */
  lemma ReusedSessionStrandsFrame(session: Session, t: TargetId, u: TargetId, found: Option<TargetId>)
    requires t != u
    requires var r := Reserve(Reserve(Registry(map[], map[], None), session, t, Document), session, u, Document);
      Finds(r, session, found)
    ensures var r := Reserve(Reserve(Registry(map[], map[], None), session, t, Document), session, u, Document);
      var d := RecordDetached(r, session, found);
      session !in d.managed && exists x :: x in d.frames && d.frames[x] == session
  {
    var r := Reserve(Reserve(Registry(map[], map[], None), session, t, Document), session, u, Document);
    assert r.frames[t] == session && r.frames[u] == session;
    var d := RecordDetached(r, session, found);
    var other := if found.value == t then u else t;
    assert other in d.frames;
  }

  lemma DetachKeepsFramesManaged(r: Registry, session: Session, found: Option<TargetId>)
    requires FramesManaged(r) && Finds(r, session, found)
    ensures FramesManaged(RecordDetached(r, session, found))
  {
  }

  lemma RemoveKeepsFramesManaged(r: Registry, session: Session)
    requires FramesManaged(r)
    ensures FramesManaged(RemoveSession(r, session))
  {
  }

  lemma SmallerMap<K, V>(big: map<K, V>, small: map<K, V>)
    requires small.Keys <= big.Keys
    ensures |small| <= |big|
  {
    SmallerSet(small.Keys, big.Keys);
  }

  lemma {:induction false} SmallerSet<T>(a: set<T>, b: set<T>)
    requires a <= b
    ensures |a| <= |b|
    decreases a
  {
    if x :| x in a {
      SmallerSet(a - {x}, b - {x});
    }
  }

  lemma GrownMap<K, V>(m: map<K, V>, k: K, v: V)
    ensures |m[k := v]| <= |m| + 1
  {
    assert m[k := v].Keys == m.Keys + {k};
    if k in m {
      assert m.Keys + {k} == m.Keys;
    }
  }

  lemma TableKeepsLimits(r: Registry, limits: Limits, session: Session, target: TargetId, kind: Kind, found: Option<TargetId>)
    requires WithinLimits(r, limits)
    ensures Admits(r, kind, limits) ==> WithinLimits(Reserve(r, session, target, kind), limits)
    ensures WithinLimits(RemoveSession(r, session), limits)
    ensures WithinLimits(RecordDetached(r, session, found), limits)
  {
    GrownMap(r.managed, session, kind);
    GrownMap(r.frames, target, session);
    SmallerMap(r.managed, RemoveSession(r, session).managed);
    SmallerMap(r.frames, RemoveSession(r, session).frames);
    SmallerMap(r.managed, RecordDetached(r, session, found).managed);
    SmallerMap(r.frames, RecordDetached(r, session, found).frames);
  }

  // --- Configuring a session ---

  datatype Command = Plain(name: string) | FetchEnable(subresources: bool) | SetBlockedUrls

  function PolicyCommands(kind: Kind, policy: Policy): seq<Command> {
    (if policy.fetch.Some? && SupportsFetch(kind) then [FetchEnable(policy.fetch.value)] else [])
    + (if policy.blocked then [SetBlockedUrls] else [])
  }

  /** What a session is sent before the policy's commands. */
  function Preamble(kind: Kind, installCollector: bool): seq<Command> {
    match kind
    case Document =>
      [Plain("Page.enable"), Plain("Runtime.enable"), Plain("DOM.enable"), Plain("Log.enable"),
       Plain("Network.enable"), Plain("Page.setLifecycleEventsEnabled"),
       Plain("Page.addScriptToEvaluateOnNewDocument")]
      + (if installCollector then [Plain("Page.addScriptToEvaluateOnNewDocument")] else [])
      + [Plain("Target.setAutoAttach")]
    case Worker =>
      [Plain("Runtime.enable"), Plain("Network.enable"), Plain("Runtime.evaluate"), Plain("Target.setAutoAttach")]
    case _ => []
  }

  /** The commands `configure_target_session` sends, in order. */
  function ConfigureCommands(kind: Kind, policy: Policy, installCollector: bool): seq<Command> {
    match kind
    case Document => Preamble(kind, installCollector) + PolicyCommands(kind, policy)
    case ServiceWorker => if policy.fetch.Some? then [FetchEnable(policy.fetch.value)] else []
    case Worker => Preamble(kind, installCollector) + PolicyCommands(kind, policy)
    case _ => []
  }

  lemma PreambleIsPlain(kind: Kind, installCollector: bool)
    ensures forall i :: 0 <= i < |Preamble(kind, installCollector)| ==> Preamble(kind, installCollector)[i].Plain?
  {
  }

  /** The session gets the policy's commands that its kind is promised. */
  lemma ConfigureCovers(kind: Kind, policy: Policy, installCollector: bool)
    ensures var cs := ConfigureCommands(kind, policy, installCollector);
      && (policy.fetch.Some? && SupportsFetch(kind) ==> FetchEnable(policy.fetch.value) in cs)
      && (policy.blocked && Blockable(kind) ==> SetBlockedUrls in cs)
      && (forall v :: FetchEnable(v) in cs ==> policy.fetch == Some(v))
  {
    hide Preamble;
    var cs, pre, ps := ConfigureCommands(kind, policy, installCollector), Preamble(kind, installCollector), PolicyCommands(kind, policy);
    PreambleIsPlain(kind, installCollector);
    assert forall x :: x in pre + ps <==> x in pre || x in ps;
  }

  // --- The table as the manager updates it ---

  class TargetState {
    var frames: map<TargetId, Session>
    var managed: map<Session, Kind>
    var error: Option<Error>

    ghost function View(): Registry
      reads this
    {
      Registry(frames, managed, error)
    }

    constructor ()
      ensures View() == Registry(map[], map[], None)
    {
      frames, managed, error := map[], map[], None;
    }

    /** Admits a target or refuses it with the limit it would exceed; a refusal leaves
        the table alone. */
    method ReserveTarget(session: Session, target: TargetId, kind: Kind, limits: Limits) returns (refused: Option<Error>)
      requires WithinLimits(View(), limits)
      modifies this`frames, this`managed
      ensures WithinLimits(View(), limits)
      ensures refused.None? <==> Admits(old(View()), kind, limits)
      ensures View() == if refused.None? then Reserve(old(View()), session, target, kind) else old(View())
    {
      TableKeepsLimits(View(), limits, session, target, kind, None);
      if |managed| >= limits.targets {
        return Some(FRAME_LIMIT);
      }
      if kind.Document? && |frames| >= limits.frames {
        return Some(FRAME_LIMIT);
      }
      managed := managed[session := kind];
      if kind.Document? {
        frames := frames[target := session];
      }
      return None;
    }

    method RemoveTarget(session: Session)
      modifies this`frames, this`managed
      ensures View() == RemoveSession(old(View()), session)
      ensures session !in managed && forall t :: t in frames ==> frames[t] != session
    {
      managed := map k | k in managed && k != session :: managed[k];
      frames := map t | t in frames && frames[t] != session :: frames[t];
    }

    method SetTargetError(failure: Error)
      modifies this`error
      ensures View() == SetError(old(View()), failure)
    {
      if error.None? {
        error := Some(failure);
      }
    }

    /** A detached document takes one frame with it and records the detachment. */
    method RecordDetachedTarget(session: Session) returns (found: Option<TargetId>)
      modifies this
      ensures Finds(old(View()), session, found) || (found.None? && !(session in old(managed) && old(managed)[session].Document?))
      ensures View() == RecordDetached(old(View()), session, found)
      ensures old(FramesManaged(View())) ==> FramesManaged(View())
    {
      ghost var before := View();
      var kind := if session in managed then Some(managed[session]) else None;
      managed := map k | k in managed && k != session :: managed[k];
      found := None;
      if kind != Some(Document) {
        if FramesManaged(before) {
          Unframed(before, session);
        }
        return;
      }
      var rest := frames.Keys;
      while rest != {} && found.None?
        invariant rest <= frames.Keys
        invariant found.Some? ==> found.value in frames && frames[found.value] == session
        invariant found.None? ==> forall t :: t in frames && t !in rest ==> frames[t] != session
        decreases |rest|
      {
        var t :| t in rest;
        rest := rest - {t};
        if frames[t] == session {
          found := Some(t);
        }
      }
      if found.Some? {
        frames := map t | t in frames && t != found.value :: frames[t];
        SetTargetError(FRAME_DETACHED);
      }
      if FramesManaged(before) {
        DetachKeepsFramesManaged(before, session, found);
      }
    }
  }

  /** With every frame's session managed as a document, no other session has a frame. */
  lemma Unframed(r: Registry, session: Session)
    requires FramesManaged(r) && !(session in r.managed && r.managed[session].Document?)
    ensures Finds(r, session, None) && FramesManaged(RecordDetached(r, session, None))
  {
  }
}
