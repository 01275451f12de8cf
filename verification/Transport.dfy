/**
 The CDP command multiplexer as a step relation. One actor owns the `pending` table
 and races queued commands, cancellations and inbound messages, while any number of
 callers issue commands, wait and give up at any moment.

 A one-shot channel carries the id of the command it was created for. Dropping a
 waiting caller takes two steps: its receiver goes first, then the guard that posts
 the cancellation.
 */
module Transport {
  import opened Text

  const COMMAND_CAPACITY: nat := 256

  type Payload = string
  type Channel = nat

  /** What is sent through the one-shot channel of a command. */
  datatype Outcome =
    | Reply(id: nat, value: Payload)
    | Remote(id: nat, name: string, error: Payload)
    | EncodeError(id: nat, name: string)
    | Terminal(id: nat, name: string, error: Payload)
    | Sent
    | SendFailed(error: Payload)

  datatype Got = Delivered(outcome: Outcome) | ChannelLost | QueueClosed

  /** `Sending`: awaiting room in the queue. `Waiting`: queued, guard armed.
      `HalfDropped`: the receiver is gone, the guard is not. `Gone`: both are gone.
      `Returned`: the call has returned to its caller. */
  datatype Phase = Sending | Waiting | HalfDropped | Gone | Returned(got: Got)

  /** A call of `command_with_timeout` (guarded) or `command_no_wait`. */
  datatype Client = Client(guarded: bool, name: string, phase: Phase, slot: Option<Outcome>)

  datatype Item =
    | Command(id: nat, name: string, response: Channel)
    | CommandNoWait(sent: Channel)
    | Close

  datatype PendingCommand = PendingCommand(name: string, response: Channel)

  datatype Actor =
    | Idle
    | Holding(id: nat, name: string, response: Channel)  // taken from the queue and found open
    | Writing(unsent: Option<Channel>)  // awaiting the socket; a no-wait caller hangs on it
    | Stopping(error: Payload)
    | Stopped

  /** One use of a one-shot sender. */
  datatype Answer = Answer(to: Channel, outcome: Outcome)

  datatype State = State(
    nextId: nat,
    outbound: seq<Item>,
    cancellations: seq<nat>,
    pending: map<nat, PendingCommand>,
    clients: map<nat, Client>,
    actor: Actor,
    log: seq<Answer>
  )

  const INITIAL := State(1, [], [], map[], map[], Idle, [])

  datatype Inbound =
    | Response(id: nat, error: Option<Payload>, result: Option<Payload>)
    | Notification
    | Broken(failure: Payload)

  datatype Event =
    // callers
    | Issue(guarded: bool, name: string)
    | Enqueue(id: nat)
    | RefuseSend(id: nat)
    | AbandonSend(id: nat)
    | DropReceiver(id: nat)
    | DropGuard(id: nat)
    | Receive(id: nat)
    | ReceiveLost(id: nat)
    | RequestClose
    // the actor
    | TakeCancellation
    | TakeOutbound(closing: Payload)
    | HangUp(closing: Payload)
    | FailEncoding
    | Register
    | WireOk
    | WireFails(failure: Payload)
    | Route(message: Inbound)
    | FailPending(id: nat)
    | Finish
    | Abort

  // --- Where a sender lives ---

  function ItemChannels(item: Item): set<Channel> {
    match item
    case Command(_, _, response) => {response}
    case CommandNoWait(sent) => {sent}
    case Close => {}
  }

  function QueueChannels(queue: seq<Item>): set<Channel> {
    if queue == [] then {} else ItemChannels(queue[0]) + QueueChannels(queue[1..])
  }

  function ActorChannels(actor: Actor): set<Channel> {
    match actor
    case Holding(_, _, response) => {response}
    case Writing(Some(unsent)) => {unsent}
    case _ => {}
  }

  function TableChannels(pending: map<nat, PendingCommand>): set<Channel> {
    set id | id in pending :: pending[id].response
  }

  /** The channels whose sender exists somewhere. */
  function Senders(s: State): set<Channel> {
    QueueChannels(s.outbound) + ActorChannels(s.actor) + TableChannels(s.pending)
  }

  predicate ReceiverOpen(s: State, c: Channel) {
    c in s.clients && s.clients[c].phase.Waiting?
  }

  // --- Steps ---

  function SetPhase(s: State, id: nat, phase: Phase): State
    requires id in s.clients
  {
    s.(clients := s.clients[id := s.clients[id].(phase := phase)])
  }

  /** `sender.send(outcome)`: the value is discarded when the receiver is closed. */
  function Send(s: State, c: Channel, outcome: Outcome): State {
    var t := s.(log := s.log + [Answer(c, outcome)]);
    if ReceiverOpen(s, c) then t.(clients := t.clients[c := t.clients[c].(slot := Some(outcome))]) else t
  }

  /** The guard posts its id, unless the actor and its queue are gone. */
  function PostCancellation(s: State, id: nat): State {
    if s.actor.Stopped? then s else s.(cancellations := s.cancellations + [id])
  }

  function Remove(pending: map<nat, PendingCommand>, id: nat): map<nat, PendingCommand> {
    map k | k in pending && k != id :: pending[k]
  }

  function RouteResponse(s: State, id: nat, error: Option<Payload>, result: Option<Payload>): State {
    if id !in s.pending then s
    else
      var command := s.pending[id];
      Send(s.(pending := Remove(s.pending, id)), command.response,
           if error.Some? then Remote(id, command.name, error.value)
           else Reply(id, if result.Some? then result.value else "null"))
  }

  function TakeItem(s: State, closing: Payload): State
    requires s.outbound != []
  {
    var item := s.outbound[0];
    var t := s.(outbound := s.outbound[1..]);
    match item
    case Command(id, name, response) =>
      if ReceiverOpen(s, response) then t.(actor := Holding(id, name, response)) else t
    case CommandNoWait(sent) => if ReceiverOpen(s, sent) then t.(actor := Writing(Some(sent))) else t
    case Close => t.(actor := Stopping(closing))
  }

  predicate Enabled(s: State, e: Event) {
    match e
    case Issue(_, _) => true
    case Enqueue(id) =>
      id in s.clients && s.clients[id].phase.Sending? && !s.actor.Stopped? && |s.outbound| < COMMAND_CAPACITY
    case RefuseSend(id) => id in s.clients && s.clients[id].phase.Sending? && s.actor.Stopped?
    case AbandonSend(id) => id in s.clients && s.clients[id].phase.Sending?
    case DropReceiver(id) => id in s.clients && s.clients[id].phase.Waiting?
    case DropGuard(id) => id in s.clients && s.clients[id].phase.HalfDropped?
    case Receive(id) => id in s.clients && s.clients[id].phase.Waiting? && s.clients[id].slot.Some?
    case ReceiveLost(id) =>
      id in s.clients && s.clients[id].phase.Waiting? && s.clients[id].slot.None? && id !in Senders(s)
    case RequestClose => !s.actor.Stopped? && |s.outbound| < COMMAND_CAPACITY
    case TakeCancellation => s.actor.Idle? && s.cancellations != []
    case TakeOutbound(_) => s.actor.Idle? && s.outbound != []
    case HangUp(_) => s.actor.Idle? && s.outbound == []
    case FailEncoding => s.actor.Holding?
    case Register => s.actor.Holding?
    case WireOk => s.actor.Writing?
    case WireFails(_) => s.actor.Writing?
    case Route(_) => s.actor.Idle?
    case FailPending(id) => s.actor.Stopping? && id in s.pending
    case Finish => s.actor.Stopping? && s.pending == map[]
    case Abort => !s.actor.Stopped?
  }

  function Apply(s: State, e: Event): State
    requires Enabled(s, e)
  {
    match e
    case Issue(guarded, name) =>
      s.(nextId := s.nextId + 1, clients := s.clients[s.nextId := Client(guarded, name, Sending, None)])
    case Enqueue(id) =>
      var item := if s.clients[id].guarded then Command(id, s.clients[id].name, id) else CommandNoWait(id);
      SetPhase(s, id, Waiting).(outbound := s.outbound + [item])
    case RefuseSend(id) => SetPhase(s, id, Returned(QueueClosed))
    case AbandonSend(id) => SetPhase(s, id, Gone)
    case DropReceiver(id) => SetPhase(s, id, if s.clients[id].guarded then HalfDropped else Gone)
    case DropGuard(id) => PostCancellation(SetPhase(s, id, Gone), id)
    case Receive(id) => SetPhase(s, id, Returned(Delivered(s.clients[id].slot.value)))
    case ReceiveLost(id) =>
      var t := SetPhase(s, id, Returned(ChannelLost));
      if s.clients[id].guarded then PostCancellation(t, id) else t
    case RequestClose => s.(outbound := s.outbound + [Close])
    case TakeCancellation =>
      s.(cancellations := s.cancellations[1..], pending := Remove(s.pending, s.cancellations[0]))
    case TakeOutbound(closing) => TakeItem(s, closing)
    case HangUp(closing) => s.(actor := Stopping(closing))
    case FailEncoding =>
      Send(s, s.actor.response, EncodeError(s.actor.id, s.actor.name)).(actor := Idle)
    case Register =>
      s.(pending := s.pending[s.actor.id := PendingCommand(s.actor.name, s.actor.response)], actor := Writing(None))
    case WireOk =>
      if s.actor.unsent.Some? then Send(s, s.actor.unsent.value, Sent).(actor := Idle) else s.(actor := Idle)
    case WireFails(failure) =>
      if s.actor.unsent.Some?
      then Send(s, s.actor.unsent.value, SendFailed(failure)).(actor := Stopping(failure))
      else s.(actor := Stopping(failure))
    case Route(Response(id, error, result)) => RouteResponse(s, id, error, result)
    case Route(Notification) => s
    case Route(Broken(failure)) => s.(actor := Stopping(failure))
    case FailPending(id) =>
      Send(s.(pending := Remove(s.pending, id)), s.pending[id].response,
           Terminal(id, s.pending[id].name, s.actor.error))
    case Finish => s.(actor := Stopped, outbound := [], cancellations := [])
    case Abort => s.(actor := Stopped, outbound := [], cancellations := [], pending := map[])
  }

  // --- Invariant ---

  /** A queued command belongs to the call that queued it. */
  ghost predicate ItemOk(clients: map<nat, Client>, item: Item) {
    match item
    case Command(id, name, response) =>
      id == response && id in clients && clients[id].guarded && clients[id].name == name
    case CommandNoWait(sent) => sent in clients && !clients[sent].guarded
    case Close => true
  }

  ghost predicate QueueOk(clients: map<nat, Client>, queue: seq<Item>) {
    forall i :: 0 <= i < |queue| ==> ItemOk(clients, queue[i])
  }

  /** No sender is queued twice. */
  ghost predicate NoRepeats(queue: seq<Item>) {
    queue == [] || (ItemChannels(queue[0]) !! QueueChannels(queue[1..]) && NoRepeats(queue[1..]))
  }

  ghost predicate ActorOk(clients: map<nat, Client>, actor: Actor) {
    && (actor.Holding? ==> ItemOk(clients, Command(actor.id, actor.name, actor.response)))
    && (actor.Writing? && actor.unsent.Some? ==> ItemOk(clients, CommandNoWait(actor.unsent.value)))
  }

  ghost predicate TableOk(clients: map<nat, Client>, pending: map<nat, PendingCommand>) {
    forall id :: id in pending ==> ItemOk(clients, Command(id, pending[id].name, pending[id].response))
  }

  ghost predicate Shape(s: State) {
    && (forall id :: id in s.clients ==> id < s.nextId)
    && |s.outbound| <= COMMAND_CAPACITY
    && QueueOk(s.clients, s.outbound) && ActorOk(s.clients, s.actor) && TableOk(s.clients, s.pending)
    && (s.actor.Stopped? ==> s.outbound == [] && s.cancellations == [] && s.pending == map[])
  }

  function Used(log: seq<Answer>): set<Channel> {
    set i | 0 <= i < |log| :: log[i].to
  }

  /** A sender lives in one place and has not been used. */
  ghost predicate OnePlace(s: State) {
    && NoRepeats(s.outbound)
    && QueueChannels(s.outbound) !! ActorChannels(s.actor)
    && QueueChannels(s.outbound) !! s.pending.Keys
    && ActorChannels(s.actor) !! s.pending.Keys
    && QueueChannels(s.outbound) !! Used(s.log)
    && ActorChannels(s.actor) !! Used(s.log)
    && s.pending.Keys !! Used(s.log)
  }

  function Held(s: State): set<Channel> {
    QueueChannels(s.outbound) + ActorChannels(s.actor) + s.pending.Keys
  }

  /** A live waiter, unless it is `excused`, keeps its sender until it is answered or
      the actor is gone; a caller that has not queued its command has no sender out. */
  ghost predicate NotLost(s: State, excused: set<Channel>) {
    && (forall c :: (c in s.clients && s.clients[c].phase.Waiting? && s.clients[c].slot.None?
                     && !s.actor.Stopped? && c !in excused) ==> c in Held(s))
    && (forall c :: c in s.clients && s.clients[c].phase.Sending? ==>
          c !in Held(s) && c !in Used(s.log) && s.clients[c].slot.None?)
  }

  /** The caller of a registered command is waiting, about to post its cancellation,
      or has posted it. */
  ghost predicate Attended(s: State, id: nat) {
    && id in s.clients
    && (s.clients[id].phase.Waiting? || s.clients[id].phase.HalfDropped?
        || (s.clients[id].phase.Gone? && id in s.cancellations))
  }

  /** A cancellation only ever names a caller that is gone. */
  ghost predicate Cancelled(s: State) {
    && (forall id :: id in s.pending ==> Attended(s, id))
    && (s.actor.Holding? ==> Attended(s, s.actor.id))
    && (forall id :: id in s.cancellations ==>
          id in s.clients && (s.clients[id].phase.Gone? || s.clients[id].phase == Returned(ChannelLost)))
  }

  /** The answer is the command's own: its response, its encoding error or the
      terminal error, under its own id and method name. */
  ghost predicate Own(clients: map<nat, Client>, a: Answer) {
    && a.to in clients
    && (clients[a.to].guarded <==> !(a.outcome.Sent? || a.outcome.SendFailed?))
    && match a.outcome
       case Reply(id, _) => id == a.to
       case Remote(id, name, _) => id == a.to && name == clients[a.to].name
       case EncodeError(id, name) => id == a.to && name == clients[a.to].name
       case Terminal(id, name, _) => id == a.to && name == clients[a.to].name
       case _ => true
  }

  /** Every use of a sender is the only one for its channel and is its own; what sits
      in a slot or was returned is what was sent. */
  ghost predicate History(s: State) {
    && (forall i :: 0 <= i < |s.log| ==> Own(s.clients, s.log[i]))
    && (forall i, j :: 0 <= i < j < |s.log| ==> s.log[i].to != s.log[j].to)
    && (forall c :: c in s.clients && s.clients[c].slot.Some? ==> Answer(c, s.clients[c].slot.value) in s.log)
    && (forall c :: c in s.clients && s.clients[c].phase.Returned? && s.clients[c].phase.got.Delivered? ==>
          Answer(c, s.clients[c].phase.got.outcome) in s.log)
  }

  ghost predicate InvBut(s: State, excused: set<Channel>) {
    Shape(s) && OnePlace(s) && NotLost(s, excused) && Cancelled(s) && History(s)
  }

  ghost predicate Inv(s: State) {
    InvBut(s, {})
  }

  // --- Queues, tables and the log as sets of channels ---

  lemma {:induction false} QueueAppend(queue: seq<Item>, item: Item)
    ensures QueueChannels(queue + [item]) == QueueChannels(queue) + ItemChannels(item)
    ensures NoRepeats(queue) && ItemChannels(item) !! QueueChannels(queue) ==> NoRepeats(queue + [item])
  {
    if queue == [] {
      assert queue + [item] == [item] && [item][1..] == [];
    } else {
      QueueAppend(queue[1..], item);
      assert (queue + [item])[1..] == queue[1..] + [item];
    }
  }

  lemma QueuePop(queue: seq<Item>)
    requires queue != [] && NoRepeats(queue)
    ensures QueueChannels(queue) == ItemChannels(queue[0]) + QueueChannels(queue[1..])
    ensures ItemChannels(queue[0]) !! QueueChannels(queue[1..]) && NoRepeats(queue[1..])
  {
  }

  lemma UsedAppend(log: seq<Answer>, a: Answer)
    ensures Used(log + [a]) == Used(log) + {a.to}
  {
    assert forall i :: 0 <= i < |log| ==> (log + [a])[i] == log[i];
    assert (log + [a])[|log|] == a;
    forall c | c in Used(log) + {a.to}
      ensures c in Used(log + [a])
    {
      if c in Used(log) {
        var i :| 0 <= i < |log| && log[i].to == c;
        assert (log + [a])[i].to == c;
      }
    }
  }

  lemma TableChannelsAre(s: State)
    requires TableOk(s.clients, s.pending)
    ensures TableChannels(s.pending) == s.pending.Keys && Senders(s) == Held(s)
  {
    forall id | id in s.pending
      ensures id in TableChannels(s.pending) && s.pending[id].response == id
    {
      assert ItemOk(s.clients, Command(id, s.pending[id].name, s.pending[id].response));
    }
  }

  /** Changing a caller's phase or slot leaves its commands its own. */
  ghost predicate SameCalls(before: map<nat, Client>, after: map<nat, Client>) {
    forall id :: id in before ==>
      id in after && after[id].guarded == before[id].guarded && after[id].name == before[id].name
  }

  lemma ItemsStayOk(before: map<nat, Client>, after: map<nat, Client>, s: State)
    requires SameCalls(before, after)
    ensures QueueOk(before, s.outbound) ==> QueueOk(after, s.outbound)
    ensures ActorOk(before, s.actor) ==> ActorOk(after, s.actor)
    ensures TableOk(before, s.pending) ==> TableOk(after, s.pending)
    ensures forall a :: Own(before, a) ==> Own(after, a)
  {
  }

  // --- Callers ---

  /** A caller leaves: it returns, drops its receiver or drops its guard. */
  function Leave(s: State, id: nat, phase: Phase, post: bool): State
    requires id in s.clients
  {
    SetPhase(s, id, phase).(cancellations := if post then s.cancellations + [id] else s.cancellations)
  }

  ghost predicate MayLeave(s: State, id: nat, phase: Phase, post: bool) {
    && id in s.clients && !phase.Sending? && !phase.Waiting?
    && (id in s.pending || (s.actor.Holding? && s.actor.id == id) ==> phase.HalfDropped? || (phase.Gone? && post))
    && (post ==> (phase.Gone? || phase == Returned(ChannelLost)) && !s.actor.Stopped?)
    && (id in s.cancellations ==> phase.Gone? || phase == Returned(ChannelLost))
    && (phase.Returned? && phase.got.Delivered? ==> Answer(id, phase.got.outcome) in s.log)
  }

  lemma LeaveShape(s: State, id: nat, phase: Phase, post: bool)
    requires Shape(s) && MayLeave(s, id, phase, post)
    ensures Shape(Leave(s, id, phase, post))
  {
    hide QueueOk, ActorOk, TableOk, Own;
    ItemsStayOk(s.clients, Leave(s, id, phase, post).clients, s);
  }

  lemma LeaveCancelled(s: State, id: nat, phase: Phase, post: bool)
    requires Cancelled(s) && MayLeave(s, id, phase, post)
    ensures Cancelled(Leave(s, id, phase, post))
  {
    var t := Leave(s, id, phase, post);
    assert forall k :: k in s.cancellations ==> k in t.cancellations;
    assert forall k :: k in t.cancellations ==> k in s.cancellations || k == id;
    assert post ==> id in t.cancellations;
  }

  lemma LeaveHistory(s: State, id: nat, phase: Phase, post: bool)
    requires History(s) && MayLeave(s, id, phase, post)
    ensures History(Leave(s, id, phase, post))
  {
    hide Own, QueueOk, ActorOk, TableOk;
    ItemsStayOk(s.clients, Leave(s, id, phase, post).clients, s);
  }

  lemma KeepLeave(s: State, id: nat, phase: Phase, post: bool)
    requires Inv(s) && MayLeave(s, id, phase, post)
    ensures Inv(Leave(s, id, phase, post))
  {
    hide Shape, Cancelled, History, QueueChannels, ActorChannels, Used, NoRepeats;
    LeaveShape(s, id, phase, post);
    LeaveCancelled(s, id, phase, post);
    LeaveHistory(s, id, phase, post);
  }

  lemma HistoryFrame(s: State, t: State)
    requires History(s) && t.clients == s.clients && t.log == s.log
    ensures History(t)
  {
  }

  lemma {:induction false} QueueChannelsAreCalls(clients: map<nat, Client>, queue: seq<Item>)
    requires QueueOk(clients, queue)
    ensures QueueChannels(queue) <= clients.Keys
  {
    if queue != [] {
      assert ItemOk(clients, queue[0]);
      assert forall i :: 0 <= i < |queue[1..]| ==> queue[1..][i] == queue[i + 1];
      QueueChannelsAreCalls(clients, queue[1..]);
    }
  }

  lemma ChannelsAreCalls(s: State)
    requires Shape(s) && History(s)
    ensures Held(s) <= s.clients.Keys && Used(s.log) <= s.clients.Keys
  {
    hide QueueOk, QueueChannels;
    QueueChannelsAreCalls(s.clients, s.outbound);
    forall id | id in s.pending
      ensures id in s.clients
    {
      assert ItemOk(s.clients, Command(id, s.pending[id].name, s.pending[id].response));
    }
    forall c | c in Used(s.log)
      ensures c in s.clients
    {
      var i :| 0 <= i < |s.log| && s.log[i].to == c;
      assert Own(s.clients, s.log[i]);
    }
  }

  function Issued(s: State, client: Client): State {
    s.(nextId := s.nextId + 1, clients := s.clients[s.nextId := client])
  }

  lemma IssueShape(s: State, client: Client)
    requires Shape(s)
    ensures Shape(Issued(s, client))
  {
    hide QueueOk, ActorOk, TableOk, Own;
    ItemsStayOk(s.clients, Issued(s, client).clients, s);
  }

  lemma IssueHistory(s: State, client: Client)
    requires Shape(s) && History(s) && client.slot.None? && !client.phase.Returned?
    ensures History(Issued(s, client))
  {
    hide QueueOk, ActorOk, TableOk, Own;
    ItemsStayOk(s.clients, Issued(s, client).clients, s);
  }

  lemma KeepIssue(s: State, guarded: bool, name: string)
    requires Inv(s)
    ensures Inv(Issued(s, Client(guarded, name, Sending, None)))
  {
    hide History, QueueChannels, ActorChannels, Used, NoRepeats, QueueOk, ActorOk, TableOk;
    var client := Client(guarded, name, Sending, None);
    IssueShape(s, client);
    IssueHistory(s, client);
    ChannelsAreCalls(s);
  }

  function Enqueued(s: State, id: nat, item: Item): State
    requires id in s.clients
  {
    SetPhase(s, id, Waiting).(outbound := s.outbound + [item])
  }

  lemma EnqueueShape(s: State, id: nat, item: Item)
    requires Shape(s) && id in s.clients && !s.actor.Stopped? && |s.outbound| < COMMAND_CAPACITY
    requires ItemOk(s.clients, item)
    ensures Shape(Enqueued(s, id, item))
  {
    hide ActorOk, TableOk, Own;
    var t := Enqueued(s, id, item);
    ItemsStayOk(s.clients, t.clients, s);
    assert ItemOk(t.clients, item);
  }

  lemma EnqueueHistory(s: State, id: nat, item: Item)
    requires History(s) && id in s.clients && s.clients[id].phase.Sending?
    ensures History(Enqueued(s, id, item))
  {
    hide QueueOk, ActorOk, TableOk, Own;
    ItemsStayOk(s.clients, Enqueued(s, id, item).clients, s);
  }

  lemma EnqueueCancelled(s: State, id: nat, item: Item)
    requires Cancelled(s) && id in s.clients && s.clients[id].phase.Sending?
    ensures Cancelled(Enqueued(s, id, item))
  {
  }

  lemma KeepEnqueue(s: State, id: nat, item: Item)
    requires Inv(s) && id in s.clients && s.clients[id].phase.Sending?
    requires !s.actor.Stopped? && |s.outbound| < COMMAND_CAPACITY
    requires ItemOk(s.clients, item) && ItemChannels(item) == {id}
    ensures Inv(Enqueued(s, id, item))
  {
    hide Shape, History, Cancelled, QueueChannels, ActorChannels, ItemChannels, Used, NoRepeats;
    EnqueueShape(s, id, item);
    EnqueueHistory(s, id, item);
    EnqueueCancelled(s, id, item);
    QueueAppend(s.outbound, item);
  }

  lemma KeepRequestClose(s: State)
    requires Inv(s) && !s.actor.Stopped? && |s.outbound| < COMMAND_CAPACITY
    ensures Inv(s.(outbound := s.outbound + [Close]))
  {
    hide History, QueueChannels, ActorChannels, Used, NoRepeats, ActorOk, TableOk;
    var t := s.(outbound := s.outbound + [Close]);
    HistoryFrame(s, t);
    QueueAppend(s.outbound, Close);
  }

  // --- The actor ---

  lemma KeepTakeCancellation(s: State)
    requires Inv(s) && s.actor.Idle? && s.cancellations != []
    ensures Inv(s.(cancellations := s.cancellations[1..], pending := Remove(s.pending, s.cancellations[0])))
  {
    hide Shape, OnePlace, NotLost, Cancelled, History;
    HistoryFrame(s, s.(cancellations := s.cancellations[1..], pending := Remove(s.pending, s.cancellations[0])));
    TakeShape(s);
    TakeCancelled(s);
    TakeNotLost(s);
  }

  lemma TakeShape(s: State)
    requires Shape(s) && OnePlace(s) && s.actor.Idle? && s.cancellations != []
    ensures var t := s.(cancellations := s.cancellations[1..], pending := Remove(s.pending, s.cancellations[0]));
      Shape(t) && OnePlace(t)
  {
    hide QueueOk, ActorOk, QueueChannels, ActorChannels, Used, NoRepeats;
  }

  lemma TakeCancelled(s: State)
    requires Cancelled(s) && s.actor.Idle? && s.cancellations != []
    ensures Cancelled(s.(cancellations := s.cancellations[1..], pending := Remove(s.pending, s.cancellations[0])))
  {
    var id := s.cancellations[0];
    assert forall k :: k in s.cancellations && k != id ==> k in s.cancellations[1..];
    assert forall k :: k in s.cancellations[1..] ==> k in s.cancellations;
  }

  lemma TakeNotLost(s: State)
    requires Cancelled(s) && NotLost(s, {}) && s.cancellations != []
    ensures NotLost(s.(cancellations := s.cancellations[1..], pending := Remove(s.pending, s.cancellations[0])), {})
  {
    hide QueueChannels, ActorChannels, Used;
    var id := s.cancellations[0];
    assert id in s.cancellations;
    assert Remove(s.pending, id).Keys == s.pending.Keys - {id};
  }

  /** The actor drops or hands over the sender it holds. */
  lemma KeepActor(s: State, actor: Actor)
    requires Inv(s) && !actor.Holding? && !actor.Stopped? && !s.actor.Stopped?
    requires ActorChannels(actor) == {}
    ensures InvBut(s.(actor := actor), ActorChannels(s.actor))
  {
    hide History, QueueChannels, Used, NoRepeats, TableOk, QueueOk;
    HistoryFrame(s, s.(actor := actor));
  }

  lemma Excuse(s: State, excused: set<Channel>)
    requires InvBut(s, excused)
    requires forall c :: c in excused && c in s.clients && s.clients[c].phase.Waiting? && !s.actor.Stopped? ==>
      s.clients[c].slot.Some? || c in Held(s)
    ensures Inv(s)
  {
    hide History, Shape, Cancelled, OnePlace, QueueChannels, ActorChannels, Used;
  }

  // Taking an item off the queue.

  lemma PopShape(s: State)
    requires Shape(s) && s.outbound != []
    ensures Shape(s.(outbound := s.outbound[1..])) && ItemOk(s.clients, s.outbound[0])
  {
    hide ActorOk, TableOk;
  }

  lemma KeepPop(s: State)
    requires Inv(s) && s.outbound != []
    ensures InvBut(s.(outbound := s.outbound[1..]), ItemChannels(s.outbound[0]))
    ensures ItemOk(s.clients, s.outbound[0])
  {
    hide History, Shape, QueueChannels, ActorChannels, Used, NoRepeats, ItemChannels;
    var t := s.(outbound := s.outbound[1..]);
    PopShape(s);
    QueuePop(s.outbound);
    HistoryFrame(s, t);
  }

  /** An idle actor takes a sender in hand. */
  lemma KeepTake(s: State, actor: Actor, c: Channel)
    requires InvBut(s, {c}) && s.actor.Idle? && !actor.Stopped?
    requires ActorChannels(actor) == {c} && ActorOk(s.clients, actor)
    requires ReceiverOpen(s, c) && c !in Held(s) && c !in Used(s.log)
    ensures Inv(s.(actor := actor))
  {
    hide History, QueueChannels, Used, NoRepeats, TableOk, QueueOk;
    HistoryFrame(s, s.(actor := actor));
  }

  lemma KeepRegister(s: State)
    requires Inv(s) && s.actor.Holding?
    ensures Inv(s.(pending := s.pending[s.actor.id := PendingCommand(s.actor.name, s.actor.response)],
                   actor := Writing(None)))
  {
    hide History, QueueChannels, Used, NoRepeats, QueueOk;
    var t := s.(pending := s.pending[s.actor.id := PendingCommand(s.actor.name, s.actor.response)],
                actor := Writing(None));
    HistoryFrame(s, t);
    assert ItemOk(s.clients, Command(s.actor.id, s.actor.name, s.actor.response));
    assert t.pending.Keys == s.pending.Keys + {s.actor.id};
  }

  /** A registered command leaves the table. */
  lemma KeepRemove(s: State, id: nat)
    requires Inv(s) && id in s.pending
    ensures InvBut(s.(pending := Remove(s.pending, id)), {id})
    ensures s.pending[id].response == id && id in s.clients && s.clients[id].guarded && s.clients[id].name == s.pending[id].name
    ensures id !in Held(s.(pending := Remove(s.pending, id))) && id !in Used(s.log)
    ensures !s.clients[id].phase.Sending?
  {
    hide History, QueueChannels, ActorChannels, Used, NoRepeats, QueueOk, ActorOk;
    var t := s.(pending := Remove(s.pending, id));
    HistoryFrame(s, t);
    assert ItemOk(s.clients, Command(id, s.pending[id].name, s.pending[id].response));
    assert t.pending.Keys == s.pending.Keys - {id};
  }

  lemma SendShape(s: State, c: Channel, outcome: Outcome)
    requires Shape(s)
    ensures Shape(Send(s, c, outcome))
  {
    hide QueueOk, ActorOk, TableOk, Own;
    ItemsStayOk(s.clients, Send(s, c, outcome).clients, s);
  }

  lemma SendCancelled(s: State, c: Channel, outcome: Outcome)
    requires Cancelled(s)
    ensures Cancelled(Send(s, c, outcome))
  {
  }

  lemma UsedSenders(log: seq<Answer>)
    ensures forall i :: 0 <= i < |log| ==> log[i].to in Used(log)
  {
  }

  lemma SendHistory(s: State, c: Channel, outcome: Outcome)
    requires History(s) && Own(s.clients, Answer(c, outcome)) && c !in Used(s.log)
    ensures History(Send(s, c, outcome))
  {
    hide Own, QueueOk, ActorOk, TableOk, Used;
    var t := Send(s, c, outcome);
    ItemsStayOk(s.clients, t.clients, s);
    UsedSenders(s.log);
    assert t.log == s.log + [Answer(c, outcome)];
    assert forall a :: a in s.log ==> a in t.log;
    assert t.log[|s.log|] == Answer(c, outcome);
  }

  /** A sender that is in no place any more is used once. */
  lemma KeepSend(s: State, c: Channel, outcome: Outcome)
    requires InvBut(s, {c}) && Own(s.clients, Answer(c, outcome))
    requires c !in Held(s) && c !in Used(s.log) && !s.clients[c].phase.Sending?
    ensures Inv(Send(s, c, outcome))
  {
    hide Shape, Cancelled, History, QueueChannels, ActorChannels, Used, NoRepeats, Own;
    SendShape(s, c, outcome);
    SendCancelled(s, c, outcome);
    SendHistory(s, c, outcome);
    UsedAppend(s.log, Answer(c, outcome));
  }

  lemma KeepStopped(s: State)
    requires Inv(s)
    ensures Inv(s.(actor := Stopped, outbound := [], cancellations := [], pending := map[]))
  {
    hide History, Used;
    HistoryFrame(s, s.(actor := Stopped, outbound := [], cancellations := [], pending := map[]));
  }

  // --- Every step keeps the invariant ---

  lemma CallerStep(s: State, e: Event)
    requires Inv(s) && Enabled(s, e)
    requires e.Issue? || e.Enqueue? || e.RefuseSend? || e.AbandonSend? || e.RequestClose?
    ensures Inv(Apply(s, e))
  {
    hide OnePlace, Cancelled, History, QueueChannels, ActorChannels, Used, QueueOk, TableOk, ActorOk;
    match e
    case Issue(guarded, name) => KeepIssue(s, guarded, name);
    case Enqueue(id) =>
      KeepEnqueue(s, id, if s.clients[id].guarded then Command(id, s.clients[id].name, id) else CommandNoWait(id));
    case RefuseSend(id) =>
      SendingIsFree(s, id);
      KeepLeave(s, id, Returned(QueueClosed), false);
    case AbandonSend(id) =>
      SendingIsFree(s, id);
      KeepLeave(s, id, Gone, false);
    case RequestClose => KeepRequestClose(s);
  }

  /** A command that was never queued has no sender out and no cancellation. */
  lemma SendingIsFree(s: State, id: nat)
    requires Inv(s) && id in s.clients && s.clients[id].phase.Sending?
    ensures id !in s.pending && !(s.actor.Holding? && s.actor.id == id) && id !in s.cancellations
  {
    hide History, OnePlace, QueueChannels, Used, QueueOk, TableOk;
  }

  lemma WaitingIsFree(s: State, id: nat)
    requires Inv(s) && id in s.clients && s.clients[id].phase.Waiting?
    ensures id !in s.cancellations
    ensures id !in Held(s) ==> id !in s.pending && !(s.actor.Holding? && s.actor.id == id)
    ensures s.clients[id].slot.Some? ==> id !in Held(s)
  {
    hide QueueChannels, QueueOk, TableOk, NoRepeats, Own;
  }

  lemma LeavingStep(s: State, e: Event)
    requires Inv(s) && Enabled(s, e)
    requires e.DropReceiver? || e.DropGuard? || e.Receive? || e.ReceiveLost?
    ensures Inv(Apply(s, e))
  {
    hide OnePlace, QueueChannels, ActorChannels, Used, QueueOk, NoRepeats, Own, TableChannels;
    match e
    case DropReceiver(id) =>
      WaitingIsFree(s, id);
      NoWaitIsUnregistered(s, id);
      KeepLeave(s, id, if s.clients[id].guarded then HalfDropped else Gone, false);
    case DropGuard(id) => KeepLeave(s, id, Gone, !s.actor.Stopped?);
    case Receive(id) =>
      WaitingIsFree(s, id);
      KeepLeave(s, id, Returned(Delivered(s.clients[id].slot.value)), false);
    case ReceiveLost(id) =>
      WaitingIsFree(s, id);
      TableChannelsAre(s);
      KeepLeave(s, id, Returned(ChannelLost), s.clients[id].guarded && !s.actor.Stopped?);
  }

  lemma NoWaitIsUnregistered(s: State, id: nat)
    requires Shape(s) && id in s.clients
    ensures !s.clients[id].guarded ==> id !in s.pending && !(s.actor.Holding? && s.actor.id == id)
  {
    if id in s.pending {
      assert ItemOk(s.clients, Command(id, s.pending[id].name, s.pending[id].response));
    }
  }

  lemma TakingStep(s: State, e: Event)
    requires Inv(s) && Enabled(s, e) && (e.TakeCancellation? || e.TakeOutbound? || e.HangUp?)
    ensures Inv(Apply(s, e))
  {
    hide Cancelled, History, QueueChannels, Used, QueueOk, TableOk;
    match e
    case TakeCancellation => KeepTakeCancellation(s);
    case HangUp(closing) =>
      KeepActor(s, Stopping(closing));
      Excuse(s.(actor := Stopping(closing)), {});
    case TakeOutbound(closing) =>
      var t := s.(outbound := s.outbound[1..]);
      KeepPop(s);
      QueuePop(s.outbound);
      match s.outbound[0]
      case Command(id, name, response) =>
        if ReceiverOpen(s, response) {
          KeepTake(t, Holding(id, name, response), response);
        } else {
          Excuse(t, {response});
        }
      case CommandNoWait(sent) =>
        if ReceiverOpen(s, sent) {
          KeepTake(t, Writing(Some(sent)), sent);
        } else {
          Excuse(t, {sent});
        }
      case Close =>
        KeepActor(t, Stopping(closing));
        Excuse(t.(actor := Stopping(closing)), {});
  }

  /** The actor uses up the sender in its hand. */
  lemma AnswerHeld(s: State, c: Channel, outcome: Outcome, actor: Actor)
    requires Inv(s) && ActorChannels(s.actor) == {c} && Own(s.clients, Answer(c, outcome))
    requires actor.Idle? || actor.Stopping?
    ensures Inv(Send(s, c, outcome).(actor := actor))
  {
    hide Cancelled, History, QueueChannels, Used, QueueOk, TableOk, NoRepeats, Own;
    KeepActor(s, actor);
    var t := s.(actor := actor);
    assert c !in Held(t) && c !in Used(t.log);
    assert c in Held(s);
    KeepSend(t, c, outcome);
    assert Send(s, c, outcome).(actor := actor) == Send(t, c, outcome);
  }

  lemma WireStep(s: State, e: Event)
    requires Inv(s) && Enabled(s, e) && (e.FailEncoding? || e.Register? || e.WireOk? || e.WireFails?)
    ensures Inv(Apply(s, e))
  {
    hide Cancelled, History, OnePlace, QueueChannels, Used, QueueOk, TableOk, NoRepeats;
    match e
    case FailEncoding => AnswerHeld(s, s.actor.response, EncodeError(s.actor.id, s.actor.name), Idle);
    case Register => KeepRegister(s);
    case WireOk =>
      if s.actor.unsent.Some? {
        AnswerHeld(s, s.actor.unsent.value, Sent, Idle);
      } else {
        KeepActor(s, Idle);
        Excuse(s.(actor := Idle), {});
      }
    case WireFails(failure) =>
      if s.actor.unsent.Some? {
        AnswerHeld(s, s.actor.unsent.value, SendFailed(failure), Stopping(failure));
      } else {
        KeepActor(s, Stopping(failure));
        Excuse(s.(actor := Stopping(failure)), {});
      }
  }

  lemma AnswerRegistered(s: State, id: nat, outcome: Outcome)
    requires Inv(s) && id in s.pending
    requires outcome.Reply? || outcome.Remote? || outcome.Terminal?
    requires outcome.id == id && (!outcome.Reply? ==> outcome.name == s.pending[id].name)
    ensures Inv(Send(s.(pending := Remove(s.pending, id)), s.pending[id].response, outcome))
  {
    hide Shape, Cancelled, History, OnePlace, NotLost, Held, Used, Remove;
    KeepRemove(s, id);
    KeepSend(s.(pending := Remove(s.pending, id)), id, outcome);
  }

  lemma RoutingStep(s: State, e: Event)
    requires Inv(s) && Enabled(s, e) && (e.Route? || e.FailPending? || e.Finish? || e.Abort?)
    ensures Inv(Apply(s, e))
  {
    hide Shape, Cancelled, History, OnePlace, NotLost, Held, Used, Remove, Send;
    match e
    case Route(Response(id, error, result)) =>
      if id in s.pending {
        AnswerRegistered(s, id,
          if error.Some? then Remote(id, s.pending[id].name, error.value)
          else Reply(id, if result.Some? then result.value else "null"));
      }
    case Route(Notification) =>
    case Route(Broken(failure)) =>
      KeepActor(s, Stopping(failure));
      Excuse(s.(actor := Stopping(failure)), {});
    case FailPending(id) => AnswerRegistered(s, id, Terminal(id, s.pending[id].name, s.actor.error));
    case Finish => KeepStopped(s);
    case Abort => KeepStopped(s);
  }

  lemma Step(s: State, e: Event)
    requires Inv(s) && Enabled(s, e)
    ensures Inv(Apply(s, e))
  {
    hide Inv, Apply, Enabled;
    match e
    case Issue(_, _) => CallerStep(s, e);
    case Enqueue(_) => CallerStep(s, e);
    case RefuseSend(_) => CallerStep(s, e);
    case AbandonSend(_) => CallerStep(s, e);
    case RequestClose => CallerStep(s, e);
    case DropReceiver(_) => LeavingStep(s, e);
    case DropGuard(_) => LeavingStep(s, e);
    case Receive(_) => LeavingStep(s, e);
    case ReceiveLost(_) => LeavingStep(s, e);
    case TakeCancellation => TakingStep(s, e);
    case TakeOutbound(_) => TakingStep(s, e);
    case HangUp(_) => TakingStep(s, e);
    case FailEncoding => WireStep(s, e);
    case Register => WireStep(s, e);
    case WireOk => WireStep(s, e);
    case WireFails(_) => WireStep(s, e);
    case _ => RoutingStep(s, e);
  }

  // --- Runs ---

  ghost predicate Run(s: State, events: seq<Event>)
    decreases |events|
  {
    events == [] || (Enabled(s, events[0]) && Run(Apply(s, events[0]), events[1..]))
  }

  ghost function Final(s: State, events: seq<Event>): State
    requires Run(s, events)
    decreases |events|
  {
    if events == [] then s else Final(Apply(s, events[0]), events[1..])
  }

  lemma {:induction false} RunKeepsInv(s: State, events: seq<Event>)
    requires Inv(s) && Run(s, events)
    ensures Inv(Final(s, events))
    decreases |events|
  {
    hide Inv, Apply, Enabled;
    if events != [] {
      Step(s, events[0]);
      RunKeepsInv(Apply(s, events[0]), events[1..]);
    }
  }

  lemma Reached(events: seq<Event>)
    requires Run(INITIAL, events)
    ensures Inv(Final(INITIAL, events))
  {
    hide Apply, Enabled;
    assert Inv(INITIAL);
    RunKeepsInv(INITIAL, events);
  }

  /** In every interleaving a command is answered at most once, only by the response
      that carries its own id, by its own encoding error or by the terminal error, and
      what its caller gets is that answer. */
  lemma AnsweredOnce(events: seq<Event>)
    requires Run(INITIAL, events)
    ensures var s := Final(INITIAL, events);
      && (forall i, j :: 0 <= i < j < |s.log| ==> s.log[i].to != s.log[j].to)
      && (forall i :: 0 <= i < |s.log| ==> Own(s.clients, s.log[i]))
      && (forall c :: c in s.clients && s.clients[c].phase.Returned? && s.clients[c].phase.got.Delivered? ==>
            Answer(c, s.clients[c].phase.got.outcome) in s.log)
  {
    hide Apply, Enabled, Run, Final, Own;
    Reached(events);
  }

  /** No id leaks: once both queues are drained, every registered id has a caller that
      still waits for it, or that has dropped its receiver and is about to post its
      cancellation. A cancellation that overtakes its command changes nothing here. */
  lemma NoLeak(events: seq<Event>)
    requires Run(INITIAL, events)
    ensures var s := Final(INITIAL, events);
      s.outbound == [] && s.cancellations == [] ==>
        forall id :: id in s.pending ==>
          id in s.clients && s.clients[id].slot.None? && (s.clients[id].phase.Waiting? || s.clients[id].phase.HalfDropped?)
  {
    hide Apply, Enabled, Run, Final, Own;
    Reached(events);
    var s := Final(INITIAL, events);
    forall id | id in s.pending && s.cancellations == []
      ensures id in s.clients && s.clients[id].slot.None? && (s.clients[id].phase.Waiting? || s.clients[id].phase.HalfDropped?)
    {
      assert Attended(s, id);
      assert id !in Used(s.log);
    }
  }

  /** A caller that waits is never forgotten: while the actor lives its sender is queued,
      in the actor's hand or registered under its id, until it is answered. */
  lemma NeverForgotten(events: seq<Event>)
    requires Run(INITIAL, events)
    ensures var s := Final(INITIAL, events);
      !s.actor.Stopped? ==>
        forall c :: c in s.clients && s.clients[c].phase.Waiting? && s.clients[c].slot.None? ==>
          c in QueueChannels(s.outbound) || c in ActorChannels(s.actor) || (c in s.pending && s.pending[c].response == c)
  {
    hide Apply, Enabled, Run, Final, QueueChannels, ActorChannels, Own;
    Reached(events);
    var s := Final(INITIAL, events);
    forall c | c in s.pending
      ensures s.pending[c].response == c
    {
      assert ItemOk(s.clients, Command(c, s.pending[c].name, s.pending[c].response));
    }
  }

  /** When the actor has stopped, every call still open can return at once: with its
      answer, or with the closed-connection error because its sender is gone. */
  lemma StopSettlesEveryCall(events: seq<Event>, id: nat)
    requires Run(INITIAL, events)
    requires var s := Final(INITIAL, events); s.actor.Stopped? && id in s.clients
    ensures var s := Final(INITIAL, events);
      && (s.clients[id].phase.Waiting? ==> Enabled(s, Receive(id)) || Enabled(s, ReceiveLost(id)))
      && (s.clients[id].phase.Sending? ==> Enabled(s, RefuseSend(id)))
      && s.pending == map[]
  {
    hide Apply, Run, Final, Own;
    Reached(events);
  }

  // --- An orderly stop ---

  /** The state after `count` events of a run. */
  ghost function At(s: State, events: seq<Event>, count: nat): State
    requires Run(s, events) && count <= |events|
    decreases |events|
  {
    if count == 0 then s else At(Apply(s, events[0]), events[1..], count - 1)
  }

  lemma {:induction false} AtKeepsInv(s: State, events: seq<Event>, count: nat)
    requires Inv(s) && Run(s, events) && count <= |events|
    ensures Inv(At(s, events, count))
    decreases |events|
  {
    hide Inv, Apply, Enabled;
    if count > 0 {
      Step(s, events[0]);
      AtKeepsInv(Apply(s, events[0]), events[1..], count - 1);
    }
  }

  lemma {:induction false} AtNext(s: State, events: seq<Event>, count: nat)
    requires Run(s, events) && count < |events|
    ensures Enabled(At(s, events, count), events[count])
    ensures At(s, events, count + 1) == Apply(At(s, events, count), events[count])
    decreases |events|
  {
    hide Apply, Enabled;
    if count > 0 {
      AtNext(Apply(s, events[0]), events[1..], count - 1);
    }
  }

  lemma Starts()
    ensures Inv(INITIAL)
  {
  }

  /** A command that was registered when the actor began to stop is still registered, or
      its caller, if it still waits, has the terminal error. */
  ghost predicate Informed(s: State, id: nat, name: string, error: Payload) {
    && id in s.clients && !s.clients[id].phase.Sending? && (s.actor == Stopping(error) || s.actor.Stopped?)
    && (|| (s.actor.Stopping? && id in s.pending && s.pending[id] == PendingCommand(name, id))
        || (id !in s.pending && (s.clients[id].phase.Waiting? ==> s.clients[id].slot == Some(Terminal(id, name, error)))))
  }

  lemma InformedStep(s: State, e: Event, id: nat, name: string, error: Payload)
    requires Inv(s) && Enabled(s, e) && !e.Abort? && Informed(s, id, name, error)
    ensures Informed(Apply(s, e), id, name, error)
  {
    hide OnePlace, NotLost, Cancelled, History, QueueOk, ActorOk;
    if e.FailPending? {
      assert ItemOk(s.clients, Command(e.id, s.pending[e.id].name, s.pending[e.id].response));
    }
  }

  lemma {:induction false} StaysInformed(events: seq<Event>, stop: nat, later: nat, id: nat)
    requires Run(INITIAL, events) && stop <= later <= |events| && forall i :: stop <= i < later ==> !events[i].Abort?
    requires var s := At(INITIAL, events, stop); s.actor.Stopping? && id in s.pending
    ensures var s := At(INITIAL, events, stop); Informed(At(INITIAL, events, later), id, s.pending[id].name, s.actor.error)
    decreases later
  {
    hide Inv, Apply, Enabled, Run, At;
    Starts();
    if stop == later {
      AtKeepsInv(INITIAL, events, stop);
      RegisteredOwn(At(INITIAL, events, stop), id);
    } else {
      StaysInformed(events, stop, later - 1, id);
      AtKeepsInv(INITIAL, events, later - 1);
      AtNext(INITIAL, events, later - 1);
      var s := At(INITIAL, events, stop);
      InformedStep(At(INITIAL, events, later - 1), events[later - 1], id, s.pending[id].name, s.actor.error);
    }
  }

  lemma RegisteredOwn(s: State, id: nat)
    requires Inv(s) && id in s.pending
    ensures id in s.clients && s.pending[id].response == id && !s.clients[id].phase.Sending?
  {
    hide OnePlace, Cancelled, History, QueueOk, ActorOk, QueueChannels, ActorChannels;
    assert ItemOk(s.clients, Command(id, s.pending[id].name, s.pending[id].response));
  }

  /** Unless the task is aborted, a caller whose command is registered when the actor
      begins to stop, and who still waits once it has stopped, has the terminal error
      under its own id and method name. */
  lemma RegisteredGetTerminalError(events: seq<Event>, stop: nat, later: nat, id: nat)
    requires Run(INITIAL, events) && stop <= later <= |events| && forall i :: stop <= i < later ==> !events[i].Abort?
    requires var s := At(INITIAL, events, stop); s.actor.Stopping? && id in s.pending
    requires At(INITIAL, events, later).actor.Stopped?
    ensures var s, f := At(INITIAL, events, stop), At(INITIAL, events, later);
      && id in f.clients
      && (f.clients[id].phase.Waiting? ==> f.clients[id].slot == Some(Terminal(id, s.pending[id].name, s.actor.error)))
  {
    hide Inv, Apply, Enabled, Run, At;
    StaysInformed(events, stop, later, id);
  }

  ghost predicate Unanswered(s: State, id: nat) {
    id in s.clients && s.clients[id].phase.Waiting? && s.clients[id].slot.None?
  }

  lemma StoppedStep(s: State, e: Event, id: nat)
    requires Enabled(s, e) && s.actor.Stopped?
    ensures Apply(s, e).actor.Stopped? && (Unanswered(Apply(s, e), id) ==> Unanswered(s, id))
  {
  }

  lemma FinishStep(s: State, id: nat)
    requires Inv(s) && Enabled(s, Finish) && Unanswered(Apply(s, Finish), id)
    ensures id in QueueChannels(s.outbound)
  {
    hide Shape, OnePlace, Cancelled, History, QueueChannels;
  }

  lemma {:induction false} UnansweredSince(events: seq<Event>, finish: nat, later: nat, id: nat)
    requires Run(INITIAL, events) && finish < later <= |events| && events[finish].Finish?
    ensures At(INITIAL, events, later).actor.Stopped?
    ensures Unanswered(At(INITIAL, events, later), id) ==> Unanswered(At(INITIAL, events, finish + 1), id)
    decreases later
  {
    hide Run, At, Unanswered;
    AtNext(INITIAL, events, later - 1);
    if later > finish + 1 {
      UnansweredSince(events, finish, later - 1, id);
      StoppedStep(At(INITIAL, events, later - 1), events[later - 1], id);
    }
  }

  /** After a stop that was not aborted, only a caller whose command was still queued is
      left without an answer. */
  lemma OnlyQueuedAreLost(events: seq<Event>, finish: nat, later: nat, id: nat)
    requires Run(INITIAL, events) && finish < later <= |events| && events[finish].Finish?
    ensures Unanswered(At(INITIAL, events, later), id) ==> id in QueueChannels(At(INITIAL, events, finish).outbound)
  {
    hide Inv, Apply, Enabled, Run, At, Unanswered, QueueChannels;
    Starts();
    AtKeepsInv(INITIAL, events, finish);
    AtNext(INITIAL, events, finish);
    UnansweredSince(events, finish, later, id);
    if Unanswered(At(INITIAL, events, later), id) {
      FinishStep(At(INITIAL, events, finish), id);
    }
  }

  // --- What a command is answered with ---

  /** The step that can put this answer in the log, taken in state `s`: the message that
      carries the id, the encoding that failed, the write that ended, or the failure of
      what was still registered. */
  ghost predicate CausedBy(s: State, e: Event, a: Answer) {
    match a.outcome
    case Reply(id, value) =>
      a.to == id
      && (e == Route(Response(id, None, Some(value))) || (e == Route(Response(id, None, None)) && value == "null"))
    case Remote(id, _, error) =>
      a.to == id && e.Route? && e.message.Response? && e.message.id == id && e.message.error == Some(error)
    case EncodeError(id, name) => a.to == id && e.FailEncoding? && s.actor == Holding(id, name, id)
    case Terminal(id, _, error) => a.to == id && e == FailPending(id) && s.actor == Stopping(error)
    case Sent => e.WireOk? && s.actor == Writing(Some(a.to))
    case SendFailed(error) => e == WireFails(error) && s.actor == Writing(Some(a.to))
  }

  lemma TakingLogsNothing(s: State, closing: Payload)
    requires s.outbound != []
    ensures TakeItem(s, closing).log == s.log
  {
  }

  lemma LogStep(s: State, e: Event)
    requires Inv(s) && Enabled(s, e)
    ensures var log := Apply(s, e).log;
      log == s.log || (|log| == |s.log| + 1 && log[..|s.log|] == s.log && CausedBy(s, e, log[|s.log|]))
  {
    hide OnePlace, NotLost, Cancelled, History, QueueOk, TableOk, ReceiverOpen, TakeItem, Remove, Senders;
    match e
    case Route(Response(id, _, _)) => if id in s.pending { RegisteredOwn(s, id); }
    case FailPending(id) => RegisteredOwn(s, id);
    case TakeOutbound(closing) => assert TakeItem(s, closing).log == s.log by { TakingLogsNothing(s, closing); }
    case _ =>
  }

  /** Every answer of every run has the event that caused it: a result or a remote error
      comes from the response that carries it and the command's id, a terminal error from
      the actor stopping with that error. */
  lemma {:induction false} AnswerHasCause(events: seq<Event>, count: nat, i: nat) returns (k: nat)
    requires Run(INITIAL, events) && count <= |events| && i < |At(INITIAL, events, count).log|
    ensures k < count && CausedBy(At(INITIAL, events, k), events[k], At(INITIAL, events, count).log[i])
    ensures At(INITIAL, events, k).log == At(INITIAL, events, count).log[..i]
    decreases count
  {
    hide Inv, Apply, Enabled, Run, CausedBy;
    Starts();
    if count > 0 {
      hide At;
      var s := At(INITIAL, events, count - 1);
      AtKeepsInv(INITIAL, events, count - 1);
      AtNext(INITIAL, events, count - 1);
      LogStep(s, events[count - 1]);
      var log := At(INITIAL, events, count).log;
      if i < |s.log| {
        assert s.log[..i] == log[..i] && s.log[i] == log[i];
        k := AnswerHasCause(events, count - 1, i);
      } else {
        k := count - 1;
      }
    }
  }

  /** What makes the actor stop with this error. */
  ghost predicate Stops(s: State, e: Event, error: Payload) {
    || e == HangUp(error)
    || (e == TakeOutbound(error) && s.outbound != [] && s.outbound[0].Close?)
    || e == WireFails(error)
    || e == Route(Broken(error))
  }

  lemma StopStep(s: State, e: Event)
    requires Enabled(s, e) && Apply(s, e).actor.Stopping? && Apply(s, e).actor != s.actor
    ensures Stops(s, e, Apply(s, e).actor.error)
  {
    hide ReceiverOpen, Remove, Senders;
  }

  /** The terminal error that callers get is the one the actor stopped with. */
  lemma {:induction false} StopHasCause(events: seq<Event>, count: nat) returns (k: nat)
    requires Run(INITIAL, events) && count <= |events| && At(INITIAL, events, count).actor.Stopping?
    ensures k < count && Stops(At(INITIAL, events, k), events[k], At(INITIAL, events, count).actor.error)
    decreases count
  {
    hide Inv, Run, Apply, Enabled, Stops;
    if count > 0 {
      hide At;
      AtNext(INITIAL, events, count - 1);
      if At(INITIAL, events, count - 1).actor == At(INITIAL, events, count).actor {
        k := StopHasCause(events, count - 1);
      } else {
        StopStep(At(INITIAL, events, count - 1), events[count - 1]);
        k := count - 1;
      }
    }
  }

  /** While the caller is there it holds this outcome, and it can return with no other. */
  ghost predicate GetsOnly(s: State, id: nat, outcome: Outcome) {
    && id in s.clients && !s.clients[id].phase.Sending?
    && (s.clients[id].phase.Waiting? ==> s.clients[id].slot == Some(outcome))
    && (s.clients[id].phase.Returned? ==> s.clients[id].phase.got == Delivered(outcome))
  }

  lemma SendElsewhere(s: State, c: Channel, id: nat, sent: Outcome, outcome: Outcome)
    requires c != id && GetsOnly(s, id, outcome) && id in Used(s.log)
    ensures GetsOnly(Send(s, c, sent), id, outcome) && id in Used(Send(s, c, sent).log)
  {
    var i :| 0 <= i < |s.log| && s.log[i].to == id;
    assert Send(s, c, sent).log[i].to == id;
  }

  lemma HeldIsUnused(s: State, id: nat)
    requires Inv(s) && id in Used(s.log)
    ensures id !in s.pending && id !in ActorChannels(s.actor)
  {
    hide Shape, NotLost, Cancelled, History, NoRepeats, QueueChannels, ActorChannels, Used;
  }

  predicate Answers(e: Event) {
    e.Route? || e.FailPending? || e.FailEncoding? || e.WireOk? || e.WireFails?
  }

  lemma GetsOnlyBesides(s: State, e: Event, id: nat, outcome: Outcome)
    requires Inv(s) && Enabled(s, e) && !Answers(e) && GetsOnly(s, id, outcome)
    ensures GetsOnly(Apply(s, e), id, outcome) && Apply(s, e).log == s.log
  {
    hide OnePlace, NotLost, Cancelled, History, QueueOk, ActorOk, TableOk, Remove, Senders, ReceiverOpen;
  }

  lemma GetsOnlyStep(s: State, e: Event, id: nat, outcome: Outcome)
    requires Inv(s) && Enabled(s, e) && GetsOnly(s, id, outcome) && id in Used(s.log)
    ensures GetsOnly(Apply(s, e), id, outcome) && id in Used(Apply(s, e).log)
  {
    hide Inv, Enabled, Apply, GetsOnly, Used;
    if Answers(e) {
      GetsOnlyAnswering(s, e, id, outcome);
    } else {
      GetsOnlyBesides(s, e, id, outcome);
    }
  }

  lemma GetsOnlyAnswering(s: State, e: Event, id: nat, outcome: Outcome)
    requires Inv(s) && Enabled(s, e) && Answers(e) && GetsOnly(s, id, outcome) && id in Used(s.log)
    ensures GetsOnly(Apply(s, e), id, outcome) && id in Used(Apply(s, e).log)
  {
    hide Inv, Send, Remove, Used;
    HeldIsUnused(s, id);
    match e
    case Route(Response(k, error, result)) =>
      if k in s.pending {
        RegisteredOwn(s, k);
        SendElsewhere(s.(pending := Remove(s.pending, k)), k, id,
                      if error.Some? then Remote(k, s.pending[k].name, error.value)
                      else Reply(k, if result.Some? then result.value else "null"), outcome);
      }
    case FailPending(k) =>
      RegisteredOwn(s, k);
      SendElsewhere(s.(pending := Remove(s.pending, k)), k, id, Terminal(k, s.pending[k].name, s.actor.error), outcome);
    case FailEncoding => SendElsewhere(s, s.actor.response, id, EncodeError(s.actor.id, s.actor.name), outcome);
    case WireOk =>
      if s.actor.unsent.Some? { SendElsewhere(s, s.actor.unsent.value, id, Sent, outcome); }
    case WireFails(failure) =>
      if s.actor.unsent.Some? { SendElsewhere(s, s.actor.unsent.value, id, SendFailed(failure), outcome); }
    case Route(_) =>
  }

  lemma RouteDelivers(s: State, id: nat, error: Option<Payload>, result: Option<Payload>)
    requires Inv(s) && s.actor.Idle? && id in s.pending && id in s.clients && s.clients[id].phase.Waiting?
    ensures var t, name := Apply(s, Route(Response(id, error, result))), s.clients[id].name;
      && id in Used(t.log) && id !in t.pending
      && (error.Some? ==> GetsOnly(t, id, Remote(id, name, error.value)))
      && (error.None? && result.Some? ==> GetsOnly(t, id, Reply(id, result.value)))
      && (error.None? && result.None? ==> GetsOnly(t, id, Reply(id, "null")))
  {
    hide OnePlace, NotLost, Cancelled, History, QueueOk, ActorOk, QueueChannels, ActorChannels;
    assert ItemOk(s.clients, Command(id, s.pending[id].name, s.pending[id].response));
    var t := Apply(s, Route(Response(id, error, result)));
    assert t.log[|s.log|].to == id;
  }

  lemma {:induction false} StillGetsOnly(events: seq<Event>, from: nat, later: nat, id: nat, outcome: Outcome)
    requires Run(INITIAL, events) && from <= later <= |events|
    requires GetsOnly(At(INITIAL, events, from), id, outcome) && id in Used(At(INITIAL, events, from).log)
    ensures GetsOnly(At(INITIAL, events, later), id, outcome) && id in Used(At(INITIAL, events, later).log)
    decreases later
  {
    hide Inv, Apply, Enabled, Run, At, Used, GetsOnly;
    Starts();
    if from < later {
      StillGetsOnly(events, from, later - 1, id, outcome);
      AtKeepsInv(INITIAL, events, later - 1);
      AtNext(INITIAL, events, later - 1);
      GetsOnlyStep(At(INITIAL, events, later - 1), events[later - 1], id, outcome);
    }
  }

  /** Once the response to a registered command has been routed to a caller that waits,
      that caller can return with nothing else, whatever happens later: with the remote
      error under its own method name if the response carries one, and with the result,
      or the null value for a response without either, if it does not. */
  lemma ResponseDecides(events: seq<Event>, k: nat, later: nat, id: nat, error: Option<Payload>, result: Option<Payload>)
    requires Run(INITIAL, events) && k < later <= |events| && events[k] == Route(Response(id, error, result))
    requires var s := At(INITIAL, events, k); id in s.pending && id in s.clients && s.clients[id].phase.Waiting?
    ensures var name, t := At(INITIAL, events, k).clients[id].name, At(INITIAL, events, later);
      && (error.Some? ==> GetsOnly(t, id, Remote(id, name, error.value)))
      && (error.None? && result.Some? ==> GetsOnly(t, id, Reply(id, result.value)))
      && (error.None? && result.None? ==> GetsOnly(t, id, Reply(id, "null")))
  {
    hide Inv, Apply, Run, At, GetsOnly, Used;
    Starts();
    AtKeepsInv(INITIAL, events, k);
    AtNext(INITIAL, events, k);
    var s := At(INITIAL, events, k);
    RouteDelivers(s, id, error, result);
    var outcome := if error.Some? then Remote(id, s.clients[id].name, error.value)
                   else if result.Some? then Reply(id, result.value) else Reply(id, "null");
    StillGetsOnly(events, k + 1, later, id, outcome);
  }

  /** One more step at the end of a run. */
  lemma {:induction false} RunAppend(s: State, events: seq<Event>, e: Event)
    requires Run(s, events) && Enabled(Final(s, events), e)
    ensures Run(s, events + [e]) && Final(s, events + [e]) == Apply(Final(s, events), e)
    decreases |events|
  {
    hide Apply, Enabled;
    if events == [] {
      assert events + [e] == [e] && [e][1..] == [];
    } else {
      RunAppend(Apply(s, events[0]), events[1..], e);
      assert (events + [e])[1..] == events[1..] + [e];
    }
  }

  lemma EmptyRun(s: State)
    ensures Run(s, []) && Final(s, []) == s
  {
  }

  /** What a caller's slot holds once the pending commands outside `left` are failed. */
  ghost function Told(c: Client, id: nat, all: map<nat, PendingCommand>, left: map<nat, PendingCommand>, error: Payload): Client {
    if id in all && id !in left && c.phase.Waiting? then c.(slot := Some(Terminal(id, all[id].name, error))) else c
  }

  lemma TellOne(start: map<nat, Client>, clients: map<nat, Client>, all: map<nat, PendingCommand>,
                left: map<nat, PendingCommand>, id: nat, error: Payload)
    requires id in left && id in all && left[id] == all[id] && clients.Keys == start.Keys
    requires forall k :: k in start ==> clients[k] == Told(start[k], k, all, left, error)
    ensures var after := if id in clients && clients[id].phase.Waiting?
                         then clients[id := clients[id].(slot := Some(Terminal(id, left[id].name, error)))] else clients;
      forall k :: k in start ==> after[k] == Told(start[k], k, all, Remove(left, id), error)
  {
  }

  lemma FailOne(s: State, id: nat)
    requires Inv(s) && s.actor.Stopping? && id in s.pending
    ensures Enabled(s, FailPending(id))
    ensures Inv(Apply(s, FailPending(id)))
    ensures Apply(s, FailPending(id)) ==
      Send(s.(pending := Remove(s.pending, id)), id, Terminal(id, s.pending[id].name, s.actor.error))
    ensures s.pending[id].response == id && id in s.clients
    ensures Remove(s.pending, id).Keys == s.pending.Keys - {id} && |Remove(s.pending, id)| < |s.pending|
  {
    hide OnePlace, NotLost, Cancelled, History, QueueOk, ActorOk, Send;
    assert ItemOk(s.clients, Command(id, s.pending[id].name, s.pending[id].response));
    Step(s, FailPending(id));
    var rest := Remove(s.pending, id);
    assert rest.Keys == s.pending.Keys - {id};
    assert |rest.Keys| < |s.pending.Keys|;
  }

  // --- The actor's loop ---

  /** The state that `run_transport` owns, next to the callers it shares channels with.
      Each method is one branch of its loop. */
  class Connection {
    var nextId: nat
    var outbound: seq<Item>
    var cancellations: seq<nat>
    var pending: map<nat, PendingCommand>
    var clients: map<nat, Client>
    var actor: Actor
    ghost var log: seq<Answer>

    ghost function View(): State
      reads this
    {
      State(nextId, outbound, cancellations, pending, clients, actor, log)
    }

    constructor ()
      ensures View() == INITIAL && Inv(View())
    {
      nextId, outbound, cancellations, pending, clients, actor, log := 1, [], [], map[], map[], Idle, [];
    }

    /** Use up a one-shot sender. */
    method SendOutcome(c: Channel, outcome: Outcome)
      modifies this`clients, this`log
      ensures View() == Send(old(View()), c, outcome)
    {
      log := log + [Answer(c, outcome)];
      if c in clients && clients[c].phase.Waiting? {
        clients := clients[c := clients[c].(slot := Some(outcome))];
      }
    }

    method HandleCancellation()
      requires actor.Idle? && cancellations != [] && Inv(View())
      modifies this`cancellations, this`pending
      ensures View() == Apply(old(View()), TakeCancellation) && Inv(View())
    {
      hide Inv;
      Step(View(), TakeCancellation);
      pending := Remove(pending, cancellations[0]);
      cancellations := cancellations[1..];
    }

    /** The outbound branch up to the point where the actor awaits the socket. A command
        is registered only if its receiver was open when the actor looked. */
    method HandleOutbound(closing: Payload)
      requires actor.Idle? && outbound != [] && Inv(View())
      modifies this`outbound, this`actor
      ensures View() == Apply(old(View()), TakeOutbound(closing)) && Inv(View())
    {
      hide Inv;
      Step(View(), TakeOutbound(closing));
      var item := outbound[0];
      outbound := outbound[1..];
      match item
      case Command(id, name, response) =>
        if response in clients && clients[response].phase.Waiting? {
          actor := Holding(id, name, response);
        }
      case CommandNoWait(sent) =>
        if sent in clients && clients[sent].phase.Waiting? {
          actor := Writing(Some(sent));
        }
      case Close => actor := Stopping(closing);
    }

    method RegisterCommand()
      requires actor.Holding? && Inv(View())
      modifies this`pending, this`actor
      ensures View() == Apply(old(View()), Register) && Inv(View())
    {
      hide Inv;
      Step(View(), Register);
      pending := pending[actor.id := PendingCommand(actor.name, actor.response)];
      actor := Writing(None);
    }

    method RouteMessage(message: Inbound)
      requires actor.Idle? && Inv(View())
      modifies this`pending, this`actor, this`clients, this`log
      ensures View() == Apply(old(View()), Route(message)) && Inv(View())
    {
      hide Inv;
      Step(View(), Route(message));
      match message
      case Response(id, error, result) =>
        if id in pending {
          var command := pending[id];
          pending := Remove(pending, id);
          SendOutcome(command.response,
                      if error.Some? then Remote(id, command.name, error.value)
                      else Reply(id, if result.Some? then result.value else "null"));
        }
      case Notification =>
      case Broken(failure) => actor := Stopping(failure);
    }

    /** The loop after the actor's main loop: every registered caller that still waits
        gets the terminal error under its own id, and no one else is touched. */
    method FailAllPending() returns (ghost events: seq<Event>)
      requires actor.Stopping? && Inv(View())
      modifies this`pending, this`clients, this`log
      ensures Run(old(View()), events) && View() == Final(old(View()), events) && Inv(View())
      ensures pending == map[] && clients.Keys == old(clients).Keys
      ensures forall id :: id in old(clients) ==>
        clients[id] == Told(old(clients)[id], id, old(pending), map[], actor.error)
    {
      hide Inv, Apply, Enabled, Run, Final;
      events := [];
      ghost var start := View();
      EmptyRun(start);
      while pending != map[]
        invariant Run(start, events) && View() == Final(start, events) && Inv(View())
        invariant actor == old(actor) && clients.Keys == old(clients).Keys
        invariant forall id :: id in pending ==> id in old(pending) && pending[id] == old(pending)[id]
        invariant forall id :: id in old(clients) ==>
          clients[id] == Told(old(clients)[id], id, old(pending), pending, actor.error)
        decreases |pending|
      {
        var id :| id in pending;
        ghost var before := View();
        TellOne(old(clients), clients, old(pending), pending, id, actor.error);
        FailOne(before, id);
        RunAppend(start, events, FailPending(id));
        var command := pending[id];
        pending := Remove(pending, id);
        SendOutcome(command.response, Terminal(id, command.name, actor.error));
        events := events + [FailPending(id)];
      }
    }
  }
}
