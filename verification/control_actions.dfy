/** Control actions: any number of requests served at once, each a sequence of storage and runtime steps. */
module ControlActions {
  import opened Wrappers

  type ActionId = int

  datatype Operation = ReplaceAccess | SetStatus | DeleteAgent | CancelExecution

  /** wellFormed: all required inputs are given. The key is trimmed. */
  datatype Request = Request(operation: Operation, tenant: string, key: string, wellFormed: bool, dryRun: bool)

  datatype Check = CheckFailed | Checked(supported: bool)

  /** What a request finds when it loads its agent or execution and the runtime connection. */
  datatype Target = Target(
    organization: string, controlEnabled: bool, adapterRegistered: bool, check: Check, confirmed: bool,
    langGraph: bool, systemManaged: bool, executionKind: string, executionStatus: string)

  datatype Reason =
    | ReadOnlyRuntime | AdapterUnavailable | AdapterCheckFailed | UnsupportedAction
    | ConfirmationMismatch | SystemManagedAgent | InvalidExecutionKind | InvalidExecutionStatus

  function Connected(target: Target): Option<Reason> {
    if !target.controlEnabled then Some(ReadOnlyRuntime)
    else if !target.adapterRegistered then Some(AdapterUnavailable)
    else None
  }

  function Capability(target: Target): Option<Reason> {
    if Connected(target).Some? then Connected(target)
    else match target.check
      case CheckFailed => Some(AdapterCheckFailed)
      case Checked(supported) => if supported then None else Some(UnsupportedAction)
  }

  /** Why the action is rejected, if it is. Replacing access asks for no capability. */
  function Refusal(operation: Operation, target: Target): Option<Reason> {
    match operation
    case ReplaceAccess => Connected(target)
    case SetStatus => Capability(target)
    case DeleteAgent =>
      if !target.confirmed then Some(ConfirmationMismatch)
      else if target.langGraph && target.systemManaged then Some(SystemManagedAgent)
      else Capability(target)
    case CancelExecution =>
      if target.executionKind != "run" then Some(InvalidExecutionKind)
      else if target.executionStatus != "pending" && target.executionStatus != "running"
      then Some(InvalidExecutionStatus)
      else Capability(target)
  }

  // ----- The state -----

  datatype Status = Queued | Running | Succeeded | Failed | Rejected

  datatype Action = Action(organization: string, key: string, status: Status)

  datatype EventKind = RequestedEvent | RejectedEvent | DryRunSucceededEvent | SucceededEvent | FailedEvent

  datatype Event = Event(action: ActionId, kind: EventKind)

  /** A call that changed a runtime, or failed to. */
  datatype RuntimeCall = RuntimeCall(action: ActionId, failed: bool)

  /** The step a request takes next. */
  datatype Position =
    | Looking | Loading | Creating
    | NotingRejection | AuditingRejection
    | AuditingRequest | FinishingDryRun | AuditingDryRun
    | Starting | Calling | NotingFailure | AuditingFailure | NotingSuccess | AuditingSuccess
    | Stopped | Missing

  /** lossy: a write of this request has failed. */
  datatype Thread = Thread(
    request: Request, position: Position, target: Option<Target>, action: Option<ActionId>, lossy: bool)

  datatype World = World(
    actions: map<ActionId, Action>, audit: seq<Event>, calls: seq<RuntimeCall>, threads: seq<Thread>)

  /** What storage and runtime answer; id is the id drawn for a new action, one not drawn before. */
  datatype Reply = Reply(storageFails: bool, target: Option<Target>, id: ActionId, callFails: bool)

  datatype Step = Arrive(request: Request) | Run(thread: nat, reply: Reply)

  predicate Enabled(w: World, step: Step) {
    step.Run? ==>
      && step.thread < |w.threads| && !w.threads[step.thread].position.Stopped?
      && !w.threads[step.thread].position.Missing?
      && (step.reply.target.Some? ==>
            var tenant := w.threads[step.thread].request.tenant;
            tenant == "" || step.reply.target.value.organization == tenant)
      && (w.threads[step.thread].position.Creating? ==> step.reply.id !in w.actions)
  }

  predicate HasKey(actions: map<ActionId, Action>, organization: string, key: string) {
    exists id :: id in actions && actions[id].organization == organization && actions[id].key == key
  }

  /** The lookup by key sees the actions of the tenant, and those of every tenant when there is none. */
  predicate Finds(actions: map<ActionId, Action>, request: Request) {
    exists id :: id in actions && actions[id].key == request.key &&
                 (request.tenant == "" || actions[id].organization == request.tenant)
  }

  function AtPosition(w: World, i: nat, position: Position): World
    requires i < |w.threads|
  {
    w.(threads := w.threads[i := w.threads[i].(position := position)])
  }

  function Lost(w: World, i: nat, position: Position): World
    requires i < |w.threads|
  {
    w.(threads := w.threads[i := w.threads[i].(position := position, lossy := true)])
  }

  /** Inserts the action; the key is unique within an organization. */
  function Insert(w: World, i: nat, reply: Reply): World
    requires i < |w.threads| && w.threads[i].target.Some?
  {
    var t := w.threads[i];
    var organization := t.target.value.organization;
    if HasKey(w.actions, organization, t.request.key) then AtPosition(w, i, Stopped)
    else if reply.storageFails then Lost(w, i, Stopped)
    else
      var refused := Refusal(t.request.operation, t.target.value).Some?;
      w.(actions := w.actions[reply.id := Action(organization, t.request.key, if refused then Rejected else Queued)],
         threads := w.threads[i := t.(action := Some(reply.id),
                                      position := if refused then NotingRejection else AuditingRequest)])
  }

  /** Writes a status; failing says where the request goes on when the write fails. */
  function Write(w: World, i: nat, reply: Reply, status: Status, next: Position, failing: Position): World
    requires i < |w.threads| && w.threads[i].action.Some?
  {
    var id := w.threads[i].action.value;
    if reply.storageFails || id !in w.actions then Lost(w, i, failing)
    else AtPosition(w.(actions := w.actions[id := w.actions[id].(status := status)]), i, next)
  }

  /** Audit failures are ignored. */
  function Audit(w: World, i: nat, reply: Reply, kind: EventKind, next: Position): World
    requires i < |w.threads| && w.threads[i].action.Some?
  {
    if reply.storageFails then Lost(w, i, next)
    else AtPosition(w.(audit := w.audit + [Event(w.threads[i].action.value, kind)]), i, next)
  }

  predicate HasAction(position: Position) {
    !position.Looking? && !position.Loading? && !position.Creating? && !position.Stopped? &&
    !position.Missing?
  }

  predicate Shaped(w: World, step: Step) {
    step.Run? ==>
      && step.thread < |w.threads|
      && (w.threads[step.thread].position.Creating? ==> w.threads[step.thread].target.Some?)
      && (HasAction(w.threads[step.thread].position) ==> w.threads[step.thread].action.Some?)
  }

  function Next(w: World, step: Step): World
    requires Enabled(w, step) && Shaped(w, step)
  {
    match step
    case Arrive(request) => w.(threads := w.threads + [Thread(request, Looking, None, None, false)])
    case Run(i, reply) =>
      var t := w.threads[i];
      match t.position
      case Looking =>
        if !t.request.wellFormed || Finds(w.actions, t.request) then AtPosition(w, i, Stopped)
        else if reply.storageFails then Lost(w, i, Stopped)
        else AtPosition(w, i, Loading)
      case Loading =>
        if reply.target.None? then AtPosition(w, i, Missing)
        else w.(threads := w.threads[i := t.(target := reply.target, position := Creating)])
      case Creating => Insert(w, i, reply)
      case NotingRejection => Write(w, i, reply, Rejected, AuditingRejection, AuditingRejection)
      case AuditingRejection => Audit(w, i, reply, RejectedEvent, Stopped)
      case AuditingRequest => Audit(w, i, reply, RequestedEvent, if t.request.dryRun then FinishingDryRun else Starting)
      case FinishingDryRun => Write(w, i, reply, Succeeded, AuditingDryRun, AuditingDryRun)
      case AuditingDryRun => Audit(w, i, reply, DryRunSucceededEvent, Stopped)
      case Starting => Write(w, i, reply, Running, Calling, Stopped)
      case Calling =>
        AtPosition(w.(calls := w.calls + [RuntimeCall(t.action.value, reply.callFails)]), i,
                   if reply.callFails then NotingFailure else NotingSuccess)
      case NotingFailure => Write(w, i, reply, Failed, AuditingFailure, AuditingFailure)
      case AuditingFailure => Audit(w, i, reply, FailedEvent, Stopped)
      case NotingSuccess => Write(w, i, reply, Succeeded, AuditingSuccess, Stopped)
      case AuditingSuccess => Audit(w, i, reply, SucceededEvent, Stopped)
      case _ => w
  }

  // ----- The invariant -----

  function Trace(audit: seq<Event>, id: ActionId): seq<EventKind> {
    if audit == [] then [] else
      var last := audit[|audit| - 1];
      var before := Trace(audit[..|audit| - 1], id);
      if last.action == id then before + [last.kind] else before
  }

  /** For each call made for an action, whether it failed. */
  function Answers(calls: seq<RuntimeCall>, id: ActionId): seq<bool> {
    if calls == [] then [] else
      var before, last := Answers(calls[..|calls| - 1], id), calls[|calls| - 1];
      if last.action == id then before + [last.failed] else before
  }

  ghost predicate Asked(t: Thread, trace: seq<EventKind>) {
    trace == [RequestedEvent] || (t.lossy && trace == [])
  }

  /** The only traces an action can leave; writes that failed leave gaps. */
  ghost predicate Closed(t: Thread, status: Status, trace: seq<EventKind>, answers: seq<bool>)
    requires t.target.Some?
  {
    if Refusal(t.request.operation, t.target.value).Some? then
      status == Rejected && answers == [] && (trace == [RejectedEvent] || (t.lossy && trace == []))
    else if t.request.dryRun then
      && answers == [] && (status == Succeeded || (t.lossy && status == Queued))
      && (trace == [RequestedEvent, DryRunSucceededEvent] ||
          (t.lossy && (trace == [] || trace == [RequestedEvent] || trace == [DryRunSucceededEvent])))
    else if answers == [] then
      t.lossy && status == Queued && (trace == [] || trace == [RequestedEvent])
    else if answers == [false] then
      || (status == Succeeded && trace == [RequestedEvent, SucceededEvent])
      || (t.lossy && status == Running && (trace == [] || trace == [RequestedEvent]))
      || (t.lossy && status == Succeeded && (trace == [] || trace == [RequestedEvent] || trace == [SucceededEvent]))
    else
      && answers == [true] && (status == Failed || (t.lossy && status == Running))
      && (trace == [RequestedEvent, FailedEvent] ||
          (t.lossy && (trace == [] || trace == [RequestedEvent] || trace == [FailedEvent])))
  }

  /** How far a request's own action has come. */
  ghost predicate Fits(t: Thread, status: Status, trace: seq<EventKind>, answers: seq<bool>) {
    && t.target.Some?
    && var refused := Refusal(t.request.operation, t.target.value).Some?;
       var dry := t.request.dryRun;
       match t.position
       case NotingRejection => refused && status == Rejected && trace == [] && answers == []
       case AuditingRejection => refused && status == Rejected && trace == [] && answers == []
       case AuditingRequest => !refused && status == Queued && trace == [] && answers == [] && !t.lossy
       case FinishingDryRun => !refused && dry && status == Queued && Asked(t, trace) && answers == []
       case AuditingDryRun =>
         !refused && dry && (status == Succeeded || (t.lossy && status == Queued)) && Asked(t, trace) && answers == []
       case Starting => !refused && !dry && status == Queued && Asked(t, trace) && answers == []
       case Calling => !refused && !dry && status == Running && Asked(t, trace) && answers == []
       case NotingFailure => !refused && !dry && status == Running && Asked(t, trace) && answers == [true]
       case AuditingFailure =>
         !refused && !dry && (status == Failed || (t.lossy && status == Running)) && Asked(t, trace) &&
         answers == [true]
       case NotingSuccess => !refused && !dry && status == Running && Asked(t, trace) && answers == [false]
       case AuditingSuccess => !refused && !dry && status == Succeeded && Asked(t, trace) && answers == [false]
       case Stopped => Closed(t, status, trace, answers)
       case _ => false
  }

  ghost predicate ThreadRight(w: World, t: Thread) {
    && (t.position.Creating? ==> t.target.Some?)
    && (HasAction(t.position) ==> t.action.Some?)
    && (HasAction(t.position) || t.position.Stopped? || (t.action.None? && !t.lossy))
    && (t.action.Some? ==>
          && t.action.value in w.actions && t.target.Some?
          && w.actions[t.action.value].organization == t.target.value.organization
          && w.actions[t.action.value].key == t.request.key
          && Fits(t, w.actions[t.action.value].status, Trace(w.audit, t.action.value),
                  Answers(w.calls, t.action.value)))
  }

  ghost predicate OwnersDiffer(w: World) {
    forall i, j :: 0 <= i < j < |w.threads| && w.threads[i].action.Some? ==> w.threads[i].action != w.threads[j].action
  }

  ghost predicate KeysUnique(w: World) {
    forall a, b :: a in w.actions && b in w.actions && a != b ==>
      w.actions[a].organization != w.actions[b].organization || w.actions[a].key != w.actions[b].key
  }

  ghost predicate Owned(w: World, id: ActionId) {
    exists i :: 0 <= i < |w.threads| && w.threads[i].action == Some(id)
  }

  ghost predicate Inv(w: World) {
    && OwnersDiffer(w) && KeysUnique(w)
    && (forall i :: 0 <= i < |w.threads| ==> ThreadRight(w, w.threads[i]))
    && (forall id :: id in w.actions ==> Owned(w, id))
    && (forall id :: id !in w.actions ==> Trace(w.audit, id) == [] && Answers(w.calls, id) == [])
  }

  lemma OneMore(audit: seq<Event>, e: Event, calls: seq<RuntimeCall>, c: RuntimeCall, id: ActionId)
    ensures Trace(audit + [e], id) == if e.action == id then Trace(audit, id) + [e.kind] else Trace(audit, id)
    ensures Answers(calls + [c], id) == if c.action == id then Answers(calls, id) + [c.failed] else Answers(calls, id)
  {
    assert (audit + [e])[..|audit|] == audit && (calls + [c])[..|calls|] == calls;
  }

  // ----- Every step keeps it -----

  /** A step of one request touches that request and its own action, nothing of any other request. */
  ghost predicate OnlyTouches(w: World, after: World, i: nat, id: ActionId) {
    && i < |w.threads| && |after.threads| == |w.threads|
    && (forall j :: 0 <= j < |w.threads| && j != i ==> after.threads[j] == w.threads[j])
    && (forall x {:trigger x in w.actions} {:trigger x in after.actions} :: x != id ==>
          (x in w.actions <==> x in after.actions) && (x in w.actions ==> after.actions[x] == w.actions[x]))
    && (forall x {:trigger Trace(after.audit, x)} :: x != id ==> Trace(after.audit, x) == Trace(w.audit, x))
    && (forall x {:trigger Answers(after.calls, x)} :: x != id ==> Answers(after.calls, x) == Answers(w.calls, x))
  }

  ghost predicate Continues(w: World, after: World, i: nat, id: ActionId)
    requires OnlyTouches(w, after, i, id)
  {
    && after.threads[i].action == Some(id) && id in after.actions
    && (if id in w.actions then
          && w.threads[i].action == Some(id) && after.actions[id].organization == w.actions[id].organization
          && after.actions[id].key == w.actions[id].key
        else
          w.threads[i].action.None? && !HasKey(w.actions, after.actions[id].organization, after.actions[id].key))
  }

  lemma OwnersMiss(w: World, after: World, i: nat, id: ActionId)
    requires Inv(w) && OnlyTouches(w, after, i, id) && Continues(w, after, i, id)
    ensures forall j :: 0 <= j < |w.threads| && j != i ==> w.threads[j].action != Some(id)
  {
    hide Fits, HasKey, Trace, Answers;
    forall j | 0 <= j < |w.threads| && j != i ensures w.threads[j].action != Some(id) {
      assert ThreadRight(w, w.threads[j]);
    }
  }

  lemma KeysStayUnique(w: World, after: World, i: nat, id: ActionId)
    requires KeysUnique(w) && OnlyTouches(w, after, i, id) && Continues(w, after, i, id)
    ensures KeysUnique(after)
  {
    hide Trace, Answers;
    forall a, b | a in after.actions && b in after.actions && a != b
      ensures after.actions[a].organization != after.actions[b].organization ||
                after.actions[a].key != after.actions[b].key
    {
      assert a in w.actions || a == id;
      assert b in w.actions || b == id;
    }
  }

  lemma OthersStay(w: World, after: World, i: nat, id: ActionId)
    requires Inv(w) && OnlyTouches(w, after, i, id) && Continues(w, after, i, id)
    requires ThreadRight(after, after.threads[i])
    ensures Inv(after)
  {
    hide Fits, HasKey, Trace, Answers;
    OwnersMiss(w, after, i, id);
    KeysStayUnique(w, after, i, id);
    forall j | 0 <= j < |w.threads| && j != i ensures ThreadRight(after, after.threads[j]) {
      assert ThreadRight(w, w.threads[j]);
    }
    forall x | x in after.actions ensures Owned(after, x) {
      if x == id {
        assert after.threads[i].action == Some(id);
      } else {
        var j :| 0 <= j < |w.threads| && w.threads[j].action == Some(x);
        assert after.threads[j].action == Some(x);
      }
    }
  }

  lemma StillRight(w: World, after: World, t: Thread)
    requires ThreadRight(w, t) && after.actions == w.actions && after.audit == w.audit && after.calls == w.calls
    ensures ThreadRight(after, t)
  {
  }

  lemma NewIsRight(w: World, request: Request)
    ensures ThreadRight(w, Thread(request, Looking, None, None, false))
  {
  }

  /** Steps before the action exists, and storage failures, change nothing but the request itself. */
  lemma QuietStep(w: World, after: World, i: nat)
    requires Inv(w) && i < |w.threads| && after.actions == w.actions && after.audit == w.audit && after.calls == w.calls
    requires |after.threads| == |w.threads|
    requires after.threads == w.threads[i := after.threads[i]] && after.threads[i].action == w.threads[i].action
    requires ThreadRight(after, after.threads[i])
    ensures Inv(after)
  {
    hide ThreadRight;
    forall j | 0 <= j < |w.threads| && j != i ensures ThreadRight(after, after.threads[j]) {
      StillRight(w, after, w.threads[j]);
    }
    forall x | x in after.actions ensures Owned(after, x) {
      var j :| 0 <= j < |w.threads| && w.threads[j].action == Some(x);
      assert after.threads[j].action == Some(x);
    }
  }

  lemma ArriveKeepsInv(w: World, request: Request)
    requires Inv(w)
    ensures Inv(Next(w, Arrive(request)))
  {
    hide ThreadRight;
    var after := Next(w, Arrive(request));
    forall j | 0 <= j < |w.threads| ensures ThreadRight(after, after.threads[j]) {
      StillRight(w, after, w.threads[j]);
    }
    assert ThreadRight(after, Thread(request, Looking, None, None, false)) by { NewIsRight(after, request); }
    forall x | x in after.actions ensures Owned(after, x) {
      var j :| 0 <= j < |w.threads| && w.threads[j].action == Some(x);
      assert after.threads[j].action == Some(x);
    }
  }

  lemma WriteKeepsInv(w: World, i: nat, reply: Reply, status: Status, next: Position, failing: Position)
    requires Inv(w) && i < |w.threads| && w.threads[i].action.Some?
    requires var id := w.threads[i].action.value;
             && Fits(w.threads[i].(position := next), status, Trace(w.audit, id), Answers(w.calls, id))
             && (id in w.actions ==> Fits(w.threads[i].(position := failing, lossy := true), w.actions[id].status,
                                          Trace(w.audit, id), Answers(w.calls, id)))
    requires HasAction(next) && (HasAction(failing) || failing.Stopped?)
    ensures Inv(Write(w, i, reply, status, next, failing))
  {
    hide Fits, Trace, Answers, HasKey;
    var id := w.threads[i].action.value;
    var after := Write(w, i, reply, status, next, failing);
    assert ThreadRight(w, w.threads[i]);
    if reply.storageFails {
      QuietStep(w, after, i);
    } else {
      OthersStay(w, after, i, id);
    }
  }

  lemma AuditKeepsInv(w: World, i: nat, reply: Reply, kind: EventKind, next: Position)
    requires Inv(w) && i < |w.threads| && w.threads[i].action.Some?
    requires var id := w.threads[i].action.value;
             id in w.actions ==>
               && Fits(w.threads[i].(position := next), w.actions[id].status, Trace(w.audit, id) + [kind],
                       Answers(w.calls, id))
               && Fits(w.threads[i].(position := next, lossy := true), w.actions[id].status,
                       Trace(w.audit, id), Answers(w.calls, id))
    requires HasAction(next) || next.Stopped?
    ensures Inv(Audit(w, i, reply, kind, next))
  {
    hide Fits, Trace, Answers, HasKey;
    var id := w.threads[i].action.value;
    var after := Audit(w, i, reply, kind, next);
    assert ThreadRight(w, w.threads[i]);
    if reply.storageFails {
      QuietStep(w, after, i);
    } else {
      forall x {
        OneMore(w.audit, Event(id, kind), [], RuntimeCall(0, false), x);
      }
      OthersStay(w, after, i, id);
    }
  }

  lemma CallKeepsInv(w: World, i: nat, failed: bool, next: Position)
    requires Inv(w) && i < |w.threads| && w.threads[i].action.Some?
    requires var id := w.threads[i].action.value;
             id in w.actions ==>
               Fits(w.threads[i].(position := next), w.actions[id].status, Trace(w.audit, id),
                    Answers(w.calls, id) + [failed])
    requires HasAction(next)
    ensures Inv(AtPosition(w.(calls := w.calls + [RuntimeCall(w.threads[i].action.value, failed)]), i, next))
  {
    hide Fits, Trace, Answers, HasKey;
    var id := w.threads[i].action.value;
    var after := AtPosition(w.(calls := w.calls + [RuntimeCall(id, failed)]), i, next);
    assert ThreadRight(w, w.threads[i]);
    forall x {
      OneMore([], Event(0, RequestedEvent), w.calls, RuntimeCall(id, failed), x);
    }
    OthersStay(w, after, i, id);
  }

  lemma InsertKeepsInv(w: World, i: nat, reply: Reply)
    requires Inv(w) && i < |w.threads| && w.threads[i].position.Creating? && !w.threads[i].lossy
    requires w.threads[i].action.None? && w.threads[i].target.Some? && reply.id !in w.actions
    ensures Inv(Insert(w, i, reply))
  {
    hide Trace, Answers, HasKey, Refusal;
    var after := Insert(w, i, reply);
    if after.actions == w.actions {
      QuietStep(w, after, i);
    } else {
      assert ThreadRight(after, after.threads[i]);
      OthersStay(w, after, i, reply.id);
    }
  }

  lemma StartingKeepsInv(w: World, i: nat, reply: Reply)
    requires Inv(w) && Enabled(w, Run(i, reply)) && Shaped(w, Run(i, reply))
    requires var p := w.threads[i].position; p.AuditingRequest? || p.Starting? || p.Calling?
    ensures Inv(Next(w, Run(i, reply)))
  {
    hide Inv, Trace, Answers, HasKey, Refusal, Write, Audit, Insert, AtPosition;
    var t := w.threads[i];
    ThreadIsRight(w, i);
    match t.position
    case AuditingRequest =>
      AuditKeepsInv(w, i, reply, RequestedEvent, if t.request.dryRun then FinishingDryRun else Starting);
    case Starting => WriteKeepsInv(w, i, reply, Running, Calling, Stopped);
    case Calling => CallKeepsInv(w, i, reply.callFails, if reply.callFails then NotingFailure else NotingSuccess);
  }

  lemma FinishingKeepsInv(w: World, i: nat, reply: Reply)
    requires Inv(w) && Enabled(w, Run(i, reply)) && Shaped(w, Run(i, reply))
    requires var p := w.threads[i].position;
             p.NotingFailure? || p.AuditingFailure? || p.NotingSuccess? || p.AuditingSuccess?
    ensures Inv(Next(w, Run(i, reply)))
  {
    hide Inv, Trace, Answers, HasKey, Refusal, Write, Audit, Insert, AtPosition;
    ThreadIsRight(w, i);
    match w.threads[i].position
    case NotingFailure => WriteKeepsInv(w, i, reply, Failed, AuditingFailure, AuditingFailure);
    case AuditingFailure => AuditKeepsInv(w, i, reply, FailedEvent, Stopped);
    case NotingSuccess => WriteKeepsInv(w, i, reply, Succeeded, AuditingSuccess, Stopped);
    case AuditingSuccess => AuditKeepsInv(w, i, reply, SucceededEvent, Stopped);
  }

  lemma EarlyKeepsInv(w: World, i: nat, reply: Reply)
    requires Inv(w) && Enabled(w, Run(i, reply)) && Shaped(w, Run(i, reply))
    requires var p := w.threads[i].position; p.Looking? || p.Loading? || p.Creating?
    ensures Inv(Next(w, Run(i, reply)))
  {
    hide Inv, Trace, Answers, HasKey, Refusal, Write, Audit, Insert;
    ThreadIsRight(w, i);
    match w.threads[i].position
    case Creating => InsertKeepsInv(w, i, reply);
    case Looking => QuietStep(w, Next(w, Run(i, reply)), i);
    case Loading => QuietStep(w, Next(w, Run(i, reply)), i);
  }

  lemma RunKeepsInv(w: World, i: nat, reply: Reply)
    requires Inv(w) && Enabled(w, Run(i, reply)) && Shaped(w, Run(i, reply))
    ensures Inv(Next(w, Run(i, reply)))
  {
    hide Inv, Trace, Answers, HasKey, Refusal, Write, Audit, Insert, AtPosition;
    ThreadIsRight(w, i);
    match w.threads[i].position
    case NotingRejection => WriteKeepsInv(w, i, reply, Rejected, AuditingRejection, AuditingRejection);
    case AuditingRejection => AuditKeepsInv(w, i, reply, RejectedEvent, Stopped);
    case FinishingDryRun => WriteKeepsInv(w, i, reply, Succeeded, AuditingDryRun, AuditingDryRun);
    case AuditingDryRun => AuditKeepsInv(w, i, reply, DryRunSucceededEvent, Stopped);
    case Looking => EarlyKeepsInv(w, i, reply);
    case Loading => EarlyKeepsInv(w, i, reply);
    case Creating => EarlyKeepsInv(w, i, reply);
    case AuditingRequest => StartingKeepsInv(w, i, reply);
    case Starting => StartingKeepsInv(w, i, reply);
    case Calling => StartingKeepsInv(w, i, reply);
    case NotingFailure => FinishingKeepsInv(w, i, reply);
    case AuditingFailure => FinishingKeepsInv(w, i, reply);
    case NotingSuccess => FinishingKeepsInv(w, i, reply);
    case AuditingSuccess => FinishingKeepsInv(w, i, reply);
  }

  lemma ThreadIsRight(w: World, i: nat)
    requires Inv(w) && i < |w.threads|
    ensures ThreadRight(w, w.threads[i])
  {
  }

  // ----- Whole runs -----

  const NO_WORLD := World(map[], [], [], [])

  ghost predicate Legal(w: World, steps: seq<Step>)
    decreases |steps|
  {
    steps == [] ||
    (Enabled(w, steps[0]) && Shaped(w, steps[0]) && Legal(Next(w, steps[0]), steps[1..]))
  }

  ghost function After(w: World, steps: seq<Step>): World
    requires Legal(w, steps)
    decreases |steps|
  {
    if steps == [] then w else After(Next(w, steps[0]), steps[1..])
  }

  predicate StorageWorks(step: Step) {
    step.Run? ==> !step.reply.storageFails
  }

  ghost predicate NothingLost(w: World) {
    forall i :: 0 <= i < |w.threads| ==> !w.threads[i].lossy
  }

  lemma NothingLostYet(w: World, step: Step)
    requires Inv(w) && Enabled(w, step) && Shaped(w, step) && StorageWorks(step) && NothingLost(w)
    ensures NothingLost(Next(w, step))
  {
    hide Fits, Trace, Answers, HasKey, Refusal, Finds;
    if step.Run? {
      assert ThreadRight(w, w.threads[step.thread]);
    }
  }

  /** Whatever the interleaving, the invariant holds; while no write fails, no request has lost one. */
  lemma {:induction false} EveryRunIsLawful(w: World, steps: seq<Step>)
    requires Inv(w) && Legal(w, steps)
    ensures Inv(After(w, steps))
    ensures NothingLost(w) && (forall k :: 0 <= k < |steps| ==> StorageWorks(steps[k])) ==> NothingLost(After(w, steps))
    decreases |steps|
  {
    hide Inv, Next, NothingLost, StorageWorks, Enabled, Shaped;
    if steps != [] {
      if steps[0].Run? {
        RunKeepsInv(w, steps[0].thread, steps[0].reply);
      } else {
        ArriveKeepsInv(w, steps[0].request);
      }
      if NothingLost(w) && (forall k :: 0 <= k < |steps| ==> StorageWorks(steps[k])) {
        NothingLostYet(w, steps[0]);
      }
      EveryRunIsLawful(Next(w, steps[0]), steps[1..]);
    }
  }

  lemma EmptyIsLawful()
    ensures Inv(NO_WORLD) && NothingLost(NO_WORLD)
  {
  }

  /** A request can always take its next step. */
  lemma NeverMisshapen(w: World, step: Step)
    requires Inv(w) && Enabled(w, step)
    ensures Shaped(w, step)
  {
    if step.Run? {
      ThreadIsRight(w, step.thread);
    }
  }

  lemma {:induction false} TwoCallsCount(calls: seq<RuntimeCall>, a: nat, b: nat)
    requires a < b < |calls| && calls[a].action == calls[b].action
    ensures |Answers(calls, calls[a].action)| >= 2
  {
    var n := |calls| - 1;
    if b < n {
      TwoCallsCount(calls[..n], a, b);
    } else {
      OneCallCounts(calls[..n], a);
    }
  }

  lemma {:induction false} OneCallCounts(calls: seq<RuntimeCall>, a: nat)
    requires a < |calls|
    ensures |Answers(calls, calls[a].action)| >= 1
  {
    if a < |calls| - 1 {
      OneCallCounts(calls[..|calls| - 1], a);
    }
  }

  lemma AtMostOneCall(w: World, id: ActionId)
    requires Inv(w)
    ensures |Answers(w.calls, id)| <= 1
  {
    if id in w.actions {
      assert Owned(w, id);
      var i :| 0 <= i < |w.threads| && w.threads[i].action == Some(id);
      assert ThreadRight(w, w.threads[i]);
    }
  }

  /** Each idempotency key of an organization causes at most one call that changes a runtime. */
  lemma OneCallPerKey(w: World, a: nat, b: nat)
    requires Inv(w) && a < b < |w.calls|
    ensures w.calls[a].action in w.actions && w.calls[b].action in w.actions
    ensures var x, y := w.actions[w.calls[a].action], w.actions[w.calls[b].action];
            x.organization != y.organization || x.key != y.key
  {
    hide Fits, Answers;
    OneCallCounts(w.calls, a);
    OneCallCounts(w.calls, b);
    AtMostOneCall(w, w.calls[a].action);
    if w.calls[a].action == w.calls[b].action {
      TwoCallsCount(w.calls, a, b);
    }
  }

  /** A runtime is only called for a running action, already stored, on a control-enabled runtime. */
  lemma CallsNeedRunningAction(w: World, step: Step) returns (id: ActionId)
    requires Inv(w) && Enabled(w, step) && Shaped(w, step) && Next(w, step).calls != w.calls
    ensures step.Run? && Next(w, step).calls == w.calls + [RuntimeCall(id, step.reply.callFails)]
    ensures id in w.actions && w.actions[id].status == Running
    ensures !w.threads[step.thread].request.dryRun
    ensures w.threads[step.thread].target.Some?
    ensures var operation, target := w.threads[step.thread].request.operation, w.threads[step.thread].target.value;
            && target.controlEnabled && target.adapterRegistered
            && (operation != ReplaceAccess ==> target.check == Checked(true))
            && (operation == DeleteAgent ==> target.confirmed && !(target.langGraph && target.systemManaged))
            && (operation == CancelExecution ==>
                  target.executionKind == "run" &&
                  (target.executionStatus == "pending" || target.executionStatus == "running"))
    ensures Trace(w.audit, id) == [RequestedEvent] || w.threads[step.thread].lossy
  {
    hide Trace, Answers;
    ThreadIsRight(w, step.thread);
    id := w.threads[step.thread].action.value;
  }

  /**
   * With working storage a finished action leaves [rejected], or [requested] and one terminal event. An action that
   * called the runtime has succeeded if and only if the runtime answered without an error.
   */
  lemma FinishedTrace(steps: seq<Step>, i: nat)
    requires Legal(NO_WORLD, steps) && (forall k :: 0 <= k < |steps| ==> StorageWorks(steps[k]))
    requires var w := After(NO_WORLD, steps);
             i < |w.threads| && w.threads[i].position.Stopped? && w.threads[i].action.Some?
    ensures var w := After(NO_WORLD, steps);
            var t, id := w.threads[i], w.threads[i].action.value;
            && id in w.actions && t.target.Some?
            && var status := w.actions[id].status;
               var trace, answers := Trace(w.audit, id), Answers(w.calls, id);
               || (Refusal(t.request.operation, t.target.value).Some? && status == Rejected &&
                   trace == [RejectedEvent] && answers == [])
               || (t.request.dryRun && status == Succeeded &&
                   trace == [RequestedEvent, DryRunSucceededEvent] && answers == [])
               || (!t.request.dryRun && status == Succeeded &&
                   trace == [RequestedEvent, SucceededEvent] && answers == [false])
               || (!t.request.dryRun && status == Failed && trace == [RequestedEvent, FailedEvent] && answers == [true])
  {
    hide Trace, Answers, Refusal;
    EmptyIsLawful();
    EveryRunIsLawful(NO_WORLD, steps);
    ThreadIsRight(After(NO_WORLD, steps), i);
  }

  /** A request that still has to look its key up, or was told that the key is known. */
  ghost predicate Answered(w: World, i: nat) {
    && i < |w.threads| && w.threads[i].action.None?
    && (w.threads[i].position.Stopped? || (w.threads[i].position.Looking? && Finds(w.actions, w.threads[i].request)))
  }

  lemma OthersUntouched(w: World, step: Step)
    requires Enabled(w, step) && Shaped(w, step)
    ensures var after := Next(w, step).threads;
            if step.Run? then |after| == |w.threads| && after == w.threads[step.thread := after[step.thread]]
            else after == w.threads + [Thread(step.request, Looking, None, None, false)]
  {
    hide HasKey, Refusal, Finds;
  }

  lemma InsertAdds(w: World, i: nat, reply: Reply)
    requires i < |w.threads| && w.threads[i].target.Some? && reply.id !in w.actions
    ensures forall id :: id in w.actions ==>
              id in Insert(w, i, reply).actions && Insert(w, i, reply).actions[id] == w.actions[id]
  {
    hide HasKey, Refusal;
  }

  lemma WriteRewrites(w: World, i: nat, reply: Reply, status: Status, next: Position, failing: Position)
    requires i < |w.threads| && w.threads[i].action.Some?
    ensures var after := Write(w, i, reply, status, next, failing).actions;
            forall id :: id in w.actions ==>
              && id in after
              && (after[id] == w.actions[id] ||
                  (w.threads[i].action == Some(id) && after[id] == w.actions[id].(status := status)))
  {
  }

  /** A step rewrites no action but its own request's, and of that only the status. */
  lemma OneActionMoves(w: World, step: Step)
    requires Enabled(w, step) && Shaped(w, step)
    ensures forall id :: id in w.actions ==>
              && id in Next(w, step).actions
              && Next(w, step).actions[id] == w.actions[id].(status := Next(w, step).actions[id].status)
              && (Next(w, step).actions[id] != w.actions[id] ==>
                    step.Run? && w.threads[step.thread].action == Some(id) &&
                    Rewrites(w.threads[step.thread].position, Next(w, step).actions[id].status))
  {
    hide HasKey, Refusal, Finds, Insert, Write;
    if step.Run? {
      var Run(i, reply) := step;
      match w.threads[i].position
      case Creating => InsertAdds(w, i, reply);
      case NotingRejection => WriteRewrites(w, i, reply, Rejected, AuditingRejection, AuditingRejection);
      case FinishingDryRun => WriteRewrites(w, i, reply, Succeeded, AuditingDryRun, AuditingDryRun);
      case Starting => WriteRewrites(w, i, reply, Running, Calling, Stopped);
      case NotingFailure => WriteRewrites(w, i, reply, Failed, AuditingFailure, AuditingFailure);
      case NotingSuccess => WriteRewrites(w, i, reply, Succeeded, AuditingSuccess, Stopped);
      case _ =>
    }
  }

  predicate Rewrites(position: Position, status: Status) {
    match position
    case NotingRejection => status == Rejected
    case FinishingDryRun => true
    case Starting => true
    case NotingFailure => true
    case NotingSuccess => true
    case _ => false
  }

  lemma KnownKeysStay(w: World, step: Step, request: Request)
    requires Enabled(w, step) && Shaped(w, step)
    ensures Finds(w.actions, request) ==> Finds(Next(w, step).actions, request)
  {
    hide Next;
    OneActionMoves(w, step);
    if Finds(w.actions, request) {
      var id :| id in w.actions && w.actions[id].key == request.key &&
                (request.tenant == "" || w.actions[id].organization == request.tenant);
      assert id in Next(w, step).actions;
    }
  }

  /** A retry that meets the action of its key never gets an action of its own, whatever else goes on. */
  lemma {:induction false} RetriesDoNothing(w: World, steps: seq<Step>, i: nat)
    requires Legal(w, steps) && Answered(w, i)
    ensures Answered(After(w, steps), i)
    decreases |steps|
  {
    if steps != [] {
      AnsweredStays(w, steps[0], i);
      RetriesDoNothing(Next(w, steps[0]), steps[1..], i);
    }
  }

  lemma AnsweredStays(w: World, step: Step, i: nat)
    requires Enabled(w, step) && Shaped(w, step) && Answered(w, i)
    ensures Answered(Next(w, step), i)
  {
    hide Finds, Next;
    KnownKeysStay(w, step, w.threads[i].request);
    OthersUntouched(w, step);
    if step.Run? && step.thread == i {
      LookupStops(w, i, step.reply);
    }
  }

  lemma LookupStops(w: World, i: nat, reply: Reply)
    requires i < |w.threads| && w.threads[i].position.Looking? && Finds(w.actions, w.threads[i].request)
    requires Enabled(w, Run(i, reply))
    ensures Next(w, Run(i, reply)) == AtPosition(w, i, Stopped)
  {
    hide Finds;
  }

  predicate IsFinal(status: Status) {
    status.Succeeded? || status.Failed? || status.Rejected?
  }

  /** Nothing changes an action again once it has succeeded, failed or been rejected. */
  lemma FinalStatusStays(w: World, step: Step, id: ActionId)
    requires Inv(w) && Enabled(w, step) && Shaped(w, step)
    requires id in w.actions && IsFinal(w.actions[id].status)
    ensures id in Next(w, step).actions && Next(w, step).actions[id] == w.actions[id]
  {
    hide Trace, Answers, Refusal, Next;
    OneActionMoves(w, step);
    if step.Run? {
      ThreadIsRight(w, step.thread);
    }
  }

  // ----- Why a request ends without an action -----

  /** An action is refused exactly if one of the guards of its operation fails. */
  lemma RefusedForAReason(operation: Operation, target: Target)
    ensures Refusal(operation, target).None? <==>
              && target.controlEnabled && target.adapterRegistered
              && (operation != ReplaceAccess ==> target.check == Checked(true))
              && (operation == DeleteAgent ==> target.confirmed && !(target.langGraph && target.systemManaged))
              && (operation == CancelExecution ==>
                    target.executionKind == "run" &&
                    (target.executionStatus == "pending" || target.executionStatus == "running"))
  {
  }

  ghost predicate Excused(w: World, t: Thread) {
    || !t.request.wellFormed || t.lossy || Finds(w.actions, t.request)
    || (t.target.Some? && HasKey(w.actions, t.target.value.organization, t.request.key))
  }

  ghost predicate AllExcused(w: World) {
    forall i :: 0 <= i < |w.threads| && w.threads[i].position.Stopped? && w.threads[i].action.None? ==>
      Excused(w, w.threads[i])
  }

  lemma ExcuseStays(w: World, step: Step, t: Thread)
    requires Enabled(w, step) && Shaped(w, step) && Excused(w, t)
    ensures Excused(Next(w, step), t)
  {
    hide Next;
    OneActionMoves(w, step);
    KnownKeysStay(w, step, t.request);
    if t.target.Some? && HasKey(w.actions, t.target.value.organization, t.request.key) {
      var id :| id in w.actions && w.actions[id].organization == t.target.value.organization &&
                w.actions[id].key == t.request.key;
      assert id in Next(w, step).actions;
    }
  }

  lemma OwnExcuse(w: World, i: nat, reply: Reply)
    requires Enabled(w, Run(i, reply)) && Shaped(w, Run(i, reply))
    ensures var after := Next(w, Run(i, reply));
            i < |after.threads| &&
            (after.threads[i].position.Stopped? && after.threads[i].action.None? ==> Excused(after, after.threads[i]))
  {
    hide HasKey, Refusal, Finds;
  }

  lemma StepKeepsExcuses(w: World, step: Step)
    requires Enabled(w, step) && Shaped(w, step) && AllExcused(w)
    ensures AllExcused(Next(w, step))
  {
    hide Next, Excused;
    OthersUntouched(w, step);
    var after := Next(w, step);
    forall i | 0 <= i < |after.threads| && after.threads[i].position.Stopped? && after.threads[i].action.None?
      ensures Excused(after, after.threads[i])
    {
      if step.Run? && i == step.thread {
        OwnExcuse(w, i, step.reply);
      } else {
        assert i < |w.threads| && after.threads[i] == w.threads[i];
        ExcuseStays(w, step, w.threads[i]);
      }
    }
  }

  /**
   * A request that stopped without an action was malformed, lost a write, or met an action of its key: a key that is
   * new, for a target that is there, always gets its action.
   */
  lemma {:induction false} EveryRunIsExcused(w: World, steps: seq<Step>)
    requires Legal(w, steps) && AllExcused(w)
    ensures AllExcused(After(w, steps))
    decreases |steps|
  {
    hide AllExcused, Next, Enabled, Shaped;
    if steps != [] {
      StepKeepsExcuses(w, steps[0]);
      EveryRunIsExcused(Next(w, steps[0]), steps[1..]);
    }
  }
}
