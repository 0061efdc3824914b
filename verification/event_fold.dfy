/** Folding a run's interleaved events into one execution per delegated task. */
module EventFold {
  import opened Ordering
  import opened Wrappers

  /** Texts are trimmed; a missing text is empty. patch is the status inside the payload's patch. */
  datatype Payload = Payload(
    taskId: string, taskKind: string, subagentType: string, description: string, summary: string,
    status: string, patch: string)

  /** createdAt is None when the time does not parse. */
  datatype Event = Event(id: string, payload: Payload, runtimeEventType: string, createdAt: Option<int>)

  datatype Origin = Origin(runId: string, jobId: string, agentId: string, observedAt: int)

  datatype Execution = Execution(
    taskId: string, origin: Origin, subagentType: string, description: string, summary: string, status: string,
    startedAt: Option<int>, endedAt: Option<int>, raw: map<string, Payload>)

  const DELEGATED := "delegated_agent"

  predicate IsDelegation(event: Event) {
    event.payload.taskId != "" && event.payload.taskKind == DELEGATED
  }

  predicate IsFinal(status: string) {
    status == "completed" || status == "failed" || status == "cancelled" || status == "timed_out"
  }

  // ----- What the executions should be -----

  datatype Field = SubagentType | Description | Summary | Status

  function Said(event: Event, field: Field): string {
    match field
    case SubagentType => event.payload.subagentType
    case Description => event.payload.description
    case Summary => event.payload.summary
    case Status => if event.payload.patch != "" then event.payload.patch else event.payload.status
  }

  /** The last word of the events on a field, or what was known before them. */
  function LastSaid(events: seq<Event>, field: Field, before: string): string {
    if events == [] then before
    else if Said(events[|events| - 1], field) != "" then Said(events[|events| - 1], field)
    else LastSaid(events[..|events| - 1], field, before)
  }

  /** The first readable time of a start event. */
  function FirstStart(events: seq<Event>): Option<int> {
    if events == [] then None
    else if events[0].runtimeEventType == "task.started" && events[0].createdAt.Some? then events[0].createdAt
    else FirstStart(events[1..])
  }

  /** The time of the last event with a final status, readable or not. */
  function LastEnd(events: seq<Event>): Option<int> {
    if events == [] then None
    else if IsFinal(Said(events[|events| - 1], Status)) then events[|events| - 1].createdAt
    else LastEnd(events[..|events| - 1])
  }

  function RawOf(events: seq<Event>): map<string, Payload> {
    if events == [] then map[] else
      var last := events[|events| - 1];
      RawOf(events[..|events| - 1])[last.id := last.payload]
  }

  /** One task's execution, given its own events only. */
  function Digest(origin: Origin, task: string, own: seq<Event>): Execution {
    Execution(task, origin, LastSaid(own, SubagentType, ""), LastSaid(own, Description, ""), LastSaid(own, Summary, ""),
              LastSaid(own, Status, "running"), FirstStart(own), LastEnd(own), RawOf(own))
  }

  function Own(events: seq<Event>, task: string): (own: seq<Event>)
    ensures forall e :: e in own <==> e in events && e.payload.taskId == task
  {
    if events == [] then [] else
      var n := |events| - 1;
      var init := Own(events[..n], task);
      assert events == events[..n] + [events[n]];
      if events[n].payload.taskId == task then init + [events[n]] else init
  }

  /** What follows the first delegation, with it. */
  function FromDelegation(events: seq<Event>): seq<Event> {
    if events == [] || IsDelegation(events[0]) then events else FromDelegation(events[1..])
  }

  /** The delegated tasks in the order of their first delegations. */
  function Tasks(events: seq<Event>): (tasks: seq<string>)
    ensures forall t :: t in tasks <==> exists e :: e in events && IsDelegation(e) && e.payload.taskId == t
    ensures forall i, j :: 0 <= i < j < |tasks| ==> tasks[i] != tasks[j]
  {
    if events == [] then [] else
      var n := |events| - 1;
      var init, last := Tasks(events[..n]), events[n];
      assert events == events[..n] + [last];
      if IsDelegation(last) && last.payload.taskId !in init then init + [last.payload.taskId] else init
  }

  function ExecutionOf(origin: Origin, events: seq<Event>, task: string): Execution {
    Digest(origin, task, FromDelegation(Own(events, task)))
  }

  function Executions(origin: Origin, events: seq<Event>): (executions: seq<Execution>)
    ensures |executions| == |Tasks(events)|
    ensures forall i :: 0 <= i < |executions| ==> executions[i] == ExecutionOf(origin, events, Tasks(events)[i])
  {
    var tasks := Tasks(events);
    seq(|tasks|, i requires 0 <= i < |tasks| => ExecutionOf(origin, events, tasks[i]))
  }

  // ----- One more event -----

  lemma OneMoreOwn(events: seq<Event>, e: Event, task: string)
    ensures Own(events + [e], task) == if e.payload.taskId == task then Own(events, task) + [e] else Own(events, task)
  {
    assert (events + [e])[..|events|] == events;
  }

  lemma {:induction false} OneMoreFromDelegation(events: seq<Event>, e: Event)
    ensures FromDelegation(events + [e]) ==
            if FromDelegation(events) == [] && !IsDelegation(e) then [] else FromDelegation(events) + [e]
    ensures FromDelegation(events) == [] <==> !exists d :: d in events && IsDelegation(d)
  {
    if events == [] {
      assert events + [e] == [e];
    } else if IsDelegation(events[0]) {
      assert events[0] in events;
    } else {
      OneMoreFromDelegation(events[1..], e);
      assert (events + [e])[1..] == events[1..] + [e];
      assert events == [events[0]] + events[1..];
    }
  }

  lemma {:induction false} OneMoreStart(events: seq<Event>, e: Event)
    ensures FirstStart(events + [e]) ==
            if FirstStart(events) == None && e.runtimeEventType == "task.started" then e.createdAt
            else FirstStart(events)
  {
    if events == [] {
      assert events + [e] == [e];
    } else {
      OneMoreStart(events[1..], e);
      assert (events + [e])[1..] == events[1..] + [e];
    }
  }

  /** What one event makes of its task's execution. */
  function WithEvent(was: Execution, e: Event): Execution {
    Execution(
      was.taskId, was.origin,
      if Said(e, SubagentType) != "" then Said(e, SubagentType) else was.subagentType,
      if Said(e, Description) != "" then Said(e, Description) else was.description,
      if Said(e, Summary) != "" then Said(e, Summary) else was.summary,
      if Said(e, Status) != "" then Said(e, Status) else was.status,
      if was.startedAt == None && e.runtimeEventType == "task.started" then e.createdAt else was.startedAt,
      if IsFinal(Said(e, Status)) then e.createdAt else was.endedAt,
      was.raw[e.id := e.payload])
  }

  lemma OneMoreDigest(origin: Origin, task: string, own: seq<Event>, e: Event)
    ensures Digest(origin, task, own + [e]) == WithEvent(Digest(origin, task, own), e)
  {
    hide Said, IsFinal;
    assert (own + [e])[..|own|] == own;
    OneMoreStart(own, e);
  }

  lemma OneMoreExecution(origin: Origin, events: seq<Event>, e: Event, task: string)
    ensures var own := FromDelegation(Own(events, task));
            ExecutionOf(origin, events + [e], task) ==
            if e.payload.taskId == task && (own != [] || IsDelegation(e)) then Digest(origin, task, own + [e])
            else ExecutionOf(origin, events, task)
    ensures task != "" ==> (FromDelegation(Own(events, task)) != [] <==> task in Tasks(events))
  {
    OneMoreOwn(events, e, task);
    OneMoreFromDelegation(Own(events, task), e);
  }

  lemma OneMoreTask(events: seq<Event>, e: Event)
    ensures Tasks(events + [e]) ==
            if IsDelegation(e) && e.payload.taskId !in Tasks(events) then Tasks(events) + [e.payload.taskId]
            else Tasks(events)
  {
    assert (events + [e])[..|events|] == events;
  }

  // ----- The fold itself -----

  lemma WithEventDigests(item: Execution, event: Event)
    ensures forall own :: item == Digest(item.origin, item.taskId, own) ==>
              WithEvent(item, event) == Digest(item.origin, item.taskId, own + [event])
  {
    hide Digest, WithEvent;
    forall own | item == Digest(item.origin, item.taskId, own)
      ensures WithEvent(item, event) == Digest(item.origin, item.taskId, own + [event])
    {
      OneMoreDigest(item.origin, item.taskId, own, event);
    }
  }

  method UpdateTexts(item: Execution, payload: Payload) returns (updated: Execution)
    ensures updated == item.(
              subagentType := if payload.subagentType != "" then payload.subagentType else item.subagentType,
              description := if payload.description != "" then payload.description else item.description,
              summary := if payload.summary != "" then payload.summary else item.summary)
  {
    updated := item;
    if payload.subagentType != "" {
      updated := updated.(subagentType := payload.subagentType);
    }
    if payload.description != "" {
      updated := updated.(description := payload.description);
    }
    if payload.summary != "" {
      updated := updated.(summary := payload.summary);
    }
  }

  method UpdateProgress(item: Execution, event: Event) returns (updated: Execution)
    ensures updated == item.(
              status := if Said(event, Status) != "" then Said(event, Status) else item.status,
              startedAt := if item.startedAt == None && event.runtimeEventType == "task.started" then event.createdAt
                           else item.startedAt,
              endedAt := if IsFinal(Said(event, Status)) then event.createdAt else item.endedAt)
  {
    hide IsFinal;
    updated := item;
    var status := event.payload.status;
    if event.payload.patch != "" {
      status := event.payload.patch;
    }
    if status != "" {
      updated := updated.(status := status);
    }
    if event.runtimeEventType == "task.started" && updated.startedAt.None? {
      updated := updated.(startedAt := event.createdAt);
    }
    if IsFinal(status) {
      updated := updated.(endedAt := event.createdAt);
    }
  }

  /** Works one event into the item of its task. */
  method Update(item: Execution, event: Event) returns (updated: Execution)
    ensures forall own :: item == Digest(item.origin, item.taskId, own) ==>
              updated == Digest(item.origin, item.taskId, own + [event])
  {
    hide Digest, IsFinal;
    var payload := event.payload;
    updated := UpdateTexts(item, payload);
    updated := UpdateProgress(updated, event);
    updated := updated.(raw := updated.raw[event.id := payload]);
    WithEventDigests(item, event);
  }

  lemma NamedAfterTask(origin: Origin, task: string, own: seq<Event>)
    ensures Digest(origin, task, own).taskId == task && Digest(origin, task, own).origin == origin
  {
  }

  ghost predicate Folded(origin: Origin, events: seq<Event>, byTask: map<string, Execution>, order: seq<string>) {
    && order == Tasks(events)
    && (forall t :: t in byTask <==> t in order)
    && (forall t :: t in byTask ==> byTask[t] == ExecutionOf(origin, events, t))
  }

  lemma SkippedEvent(origin: Origin, events: seq<Event>, e: Event, byTask: map<string, Execution>, order: seq<string>)
    requires Folded(origin, events, byTask, order)
    ensures (e.payload.taskId == "" || (e.payload.taskId !in byTask && e.payload.taskKind != DELEGATED) ==>
             Folded(origin, events + [e], byTask, order))
  {
    hide ExecutionOf, FromDelegation, Own, Tasks;
    OneMoreTask(events, e);
    assert "" !in byTask;
    forall t | t in byTask && t != e.payload.taskId ensures ExecutionOf(origin, events + [e], t) == byTask[t] {
      OneMoreExecution(origin, events, e, t);
    }
  }

  lemma FoldedEvent(origin: Origin, events: seq<Event>, e: Event, byTask: map<string, Execution>, order: seq<string>,
      updated: Execution)
    requires Folded(origin, events, byTask, order)
    requires e.payload.taskId != "" && (e.payload.taskId in byTask || e.payload.taskKind == DELEGATED)
    requires updated == Digest(origin, e.payload.taskId, FromDelegation(Own(events, e.payload.taskId)) + [e])
    ensures Folded(origin, events + [e], byTask[e.payload.taskId := updated],
                   if e.payload.taskId in byTask then order else order + [e.payload.taskId])
  {
    hide ExecutionOf, FromDelegation, Own, Digest, Tasks;
    OneMoreTask(events, e);
    OneMoreExecution(origin, events, e, e.payload.taskId);
    var task, after := e.payload.taskId, events + [e];
    var byTask', order' := byTask[task := updated], if task in byTask then order else order + [task];
    assert ExecutionOf(origin, after, task) == updated;
    forall t | t in byTask' ensures byTask'[t] == ExecutionOf(origin, after, t) {
      OneMoreExecution(origin, events, e, t);
    }
  }

  /** What the table holds for a task, a fresh item included, is the digest of the task's events so far. */
  lemma ItemIsDigest(origin: Origin, events: seq<Event>, byTask: map<string, Execution>, order: seq<string>,
                     task: string)
    requires Folded(origin, events, byTask, order) && task != ""
    ensures var own := FromDelegation(Own(events, task));
            if task in byTask then byTask[task] == Digest(origin, task, own)
            else Digest(origin, task, own) == Execution(task, origin, "", "", "", "running", None, None, map[])
  {
    if task !in byTask {
      assert task !in Tasks(events);
      OneMoreFromDelegation(Own(events, task), Event("", Payload("", "", "", "", "", "", ""), "", None));
    }
  }

  lemma FoldedListing(origin: Origin, events: seq<Event>, byTask: map<string, Execution>, order: seq<string>)
    requires Folded(origin, events, byTask, order)
    ensures forall i :: 0 <= i < |order| ==> order[i] in byTask
    ensures forall result :: |result| == |order| && (forall i :: 0 <= i < |order| ==> result[i] == byTask[order[i]]) ==>
              result == Executions(origin, events)
  {
    hide ExecutionOf;
  }

  method FoldEvent(origin: Origin, event: Event, byTask: map<string, Execution>, order: seq<string>,
      ghost before: seq<Event>)
      returns (byTask': map<string, Execution>, order': seq<string>)
    requires Folded(origin, before, byTask, order)
    ensures Folded(origin, before + [event], byTask', order')
  {
    hide Folded, ExecutionOf, FromDelegation, Own, Digest;
    byTask', order' := byTask, order;
    var task := event.payload.taskId;
    SkippedEvent(origin, before, event, byTask, order);
    if task == "" {
      return;
    }
    ghost var own := FromDelegation(Own(before, task));
    ItemIsDigest(origin, before, byTask, order, task);
    if task !in byTask {
      if event.payload.taskKind != DELEGATED {
        return;
      }
      byTask' := byTask[task := Execution(task, origin, "", "", "", "running", None, None, map[])];
      order' := order + [task];
    }
    NamedAfterTask(origin, task, own);
    var updated := Update(byTask'[task], event);
    FoldedEvent(origin, before, event, byTask, order, updated);
    byTask' := byTask'[task := updated];
    assert byTask' == byTask[task := updated];
  }

  /** The executions of a run: one for each delegated task, each made of that task's own events alone. */
  method NormalizeDelegatedExecutions(origin: Origin, events: seq<Event>) returns (result: seq<Execution>)
    ensures result == Executions(origin, events)
  {
    hide Folded, ExecutionOf, Executions, Tasks, FromDelegation, Own, Digest;
    var byTask: map<string, Execution>, order := map[], [];
    assert Folded(origin, [], byTask, order) by { NothingFolded(origin); }
    for n := 0 to |events|
      invariant Folded(origin, events[..n], byTask, order)
    {
      byTask, order := FoldEvent(origin, events[n], byTask, order, events[..n]);
      assert events[..n + 1] == events[..n] + [events[n]];
    }
    assert events[..|events|] == events;
    FoldedListing(origin, events, byTask, order);
    result := [];
    for i := 0 to |order|
      invariant |result| == i && forall j :: 0 <= j < i ==> result[j] == byTask[order[j]]
    {
      result := result + [byTask[order[i]]];
    }
  }

  lemma NothingFolded(origin: Origin)
    ensures Folded(origin, [], map[], [])
  {
  }

  // ----- What interleaving can change -----

  /** The position of a task's first delegation. */
  function FirstDelegation(events: seq<Event>, task: string): (k: nat)
    requires task in Tasks(events)
    ensures k < |events| && Delegates(events[k], task)
    ensures forall j :: 0 <= j < k ==> !Delegates(events[j], task)
  {
    var n := |events| - 1;
    if task in Tasks(events[..n]) then FirstDelegation(events[..n], task)
    else
      TasksOfPrefix(events, n, task);
      n
  }

  predicate Delegates(event: Event, task: string) {
    IsDelegation(event) && event.payload.taskId == task
  }

  lemma TasksOfPrefix(events: seq<Event>, n: nat, task: string)
    requires |events| == n + 1
    ensures task !in Tasks(events[..n]) ==> forall j :: 0 <= j < n ==> !Delegates(events[j], task)
    ensures task in Tasks(events) ==> task in Tasks(events[..n]) || Delegates(events[n], task)
  {
    hide Tasks;
    assert events == events[..n] + [events[n]];
    OneMoreTask(events[..n], events[n]);
    forall j | 0 <= j < n ensures Delegates(events[j], task) ==> task in Tasks(events[..n]) {
      assert events[..n][j] == events[j] && events[j] in events[..n];
    }
  }

  /** Executions come in the order in which their tasks were first delegated, each task once. */
  lemma {:induction false} OrderedByFirstDelegation(events: seq<Event>, i: nat, j: nat)
    requires i < j < |Tasks(events)|
    ensures FirstDelegation(events, Tasks(events)[i]) < FirstDelegation(events, Tasks(events)[j])
  {
    var n := |events| - 1;
    var init := Tasks(events[..n]);
    assert events == events[..n] + [events[n]];
    OneMoreTask(events[..n], events[n]);
    assert Tasks(events)[i] in init;
    if j < |init| {
      OrderedByFirstDelegation(events[..n], i, j);
      assert Tasks(events)[j] in init;
    }
  }

  lemma ExecutionIds(origin: Origin, events: seq<Event>)
    ensures forall x: Execution :: x in Executions(origin, events) <==>
              x.taskId in Tasks(events) && x == ExecutionOf(origin, events, x.taskId)
    ensures var xs := Executions(origin, events);
            forall i, j :: 0 <= i < j < |xs| ==> xs[i].taskId != xs[j].taskId
  {
    var xs := Executions(origin, events);
    forall i | 0 <= i < |xs| ensures xs[i].taskId == Tasks(events)[i] {
      NamedAfterTask(origin, Tasks(events)[i], FromDelegation(Own(events, Tasks(events)[i])));
    }
    forall x: Execution | x.taskId in Tasks(events) && x == ExecutionOf(origin, events, x.taskId) ensures x in xs {
      var i :| 0 <= i < |xs| && Tasks(events)[i] == x.taskId;
      assert xs[i] == x;
    }
  }

  lemma TaskHasDelegation(events: seq<Event>, task: string)
    ensures task in Tasks(events) <==> exists e :: e in Own(events, task) && IsDelegation(e)
  {
    if task in Tasks(events) {
      var e :| e in events && IsDelegation(e) && e.payload.taskId == task;
      assert e in Own(events, task);
    }
  }

  /** Streams in which every task's events come in the same order yield the same executions, up to their order. */
  lemma InterleavingIsIrrelevant(origin: Origin, a: seq<Event>, b: seq<Event>)
    requires forall t :: t != "" ==> Own(a, t) == Own(b, t)
    ensures multiset(Executions(origin, a)) == multiset(Executions(origin, b))
  {
    hide Executions, ExecutionOf;
    var xs, ys := Executions(origin, a), Executions(origin, b);
    ExecutionIds(origin, a);
    ExecutionIds(origin, b);
    forall x: Execution ensures x in xs <==> x in ys {
      TaskHasDelegation(a, x.taskId);
      TaskHasDelegation(b, x.taskId);
      SameExecution(origin, a, b, x.taskId);
    }
    SameMultiset(xs, ys);
  }

  lemma SameExecution(origin: Origin, a: seq<Event>, b: seq<Event>, task: string)
    ensures Own(a, task) == Own(b, task) ==> ExecutionOf(origin, a, task) == ExecutionOf(origin, b, task)
  {
  }

  // ----- What a digest says, event by event -----

  /** k is the last of the events at which the text is not empty. */
  ghost predicate LastNonEmpty(texts: seq<string>, k: nat) {
    k < |texts| && texts[k] != "" && forall j :: k < j < |texts| ==> texts[j] == ""
  }

  function Words(events: seq<Event>, field: Field): (texts: seq<string>)
    ensures |texts| == |events|
    ensures forall i :: 0 <= i < |events| ==>
              texts[i] == match field
                          case SubagentType => events[i].payload.subagentType
                          case Description => events[i].payload.description
                          case Summary => events[i].payload.summary
                          case Status =>
                            if events[i].payload.patch == "" then events[i].payload.status else events[i].payload.patch
  {
    seq(|events|, i requires 0 <= i < |events| => Said(events[i], field))
  }

  lemma PrefixWords(events: seq<Event>, field: Field, n: nat)
    requires n <= |events|
    ensures Words(events[..n], field) == Words(events, field)[..n]
  {
  }

  lemma {:induction false} LastSaidIsLast(events: seq<Event>, field: Field, before: string, k: nat)
    requires LastNonEmpty(Words(events, field), k)
    ensures LastSaid(events, field, before) == Words(events, field)[k]
  {
    hide Said;
    var n := |events| - 1;
    PrefixWords(events, field, n);
    SaidIsWord(events, field, n);
    if k < n {
      LastSaidIsLast(events[..n], field, before, k);
    }
  }

  lemma SaidIsWord(events: seq<Event>, field: Field, n: nat)
    requires n < |events|
    ensures Said(events[n], field) == Words(events, field)[n]
  {
  }

  lemma {:induction false} NothingSaid(events: seq<Event>, field: Field, before: string)
    requires forall i :: 0 <= i < |events| ==> Words(events, field)[i] == ""
    ensures LastSaid(events, field, before) == before
  {
    hide Said;
    if events != [] {
      var n := |events| - 1;
      PrefixWords(events, field, n);
      SaidIsWord(events, field, n);
      NothingSaid(events[..n], field, before);
    }
  }

  /**
   * Subagent type, description, summary and status are what the last event that says anything about them says, the
   * status in a patch before the one beside it; without such an event they are empty, and the status is running.
   */
  lemma DigestTexts(origin: Origin, task: string, own: seq<Event>, field: Field, k: nat)
    ensures LastNonEmpty(Words(own, field), k) ==>
              TextOf(Digest(origin, task, own), field) == Words(own, field)[k]
    ensures (forall i :: 0 <= i < |own| ==> Words(own, field)[i] == "") ==>
              TextOf(Digest(origin, task, own), field) == if field.Status? then "running" else ""
  {
    hide Said, LastNonEmpty;
    var before := if field.Status? then "running" else "";
    if LastNonEmpty(Words(own, field), k) {
      LastSaidIsLast(own, field, before, k);
    }
    if forall i :: 0 <= i < |own| ==> Words(own, field)[i] == "" {
      NothingSaid(own, field, before);
    }
  }

  function TextOf(x: Execution, field: Field): string {
    match field
    case SubagentType => x.subagentType
    case Description => x.description
    case Summary => x.summary
    case Status => x.status
  }

  lemma {:induction false} FirstStartIsFirst(events: seq<Event>)
    ensures forall k :: (0 <= k < |events| &&
                         events[k].runtimeEventType == "task.started" && events[k].createdAt.Some? &&
                         forall j :: 0 <= j < k ==>
                           events[j].runtimeEventType != "task.started" || events[j].createdAt.None?) ==>
              FirstStart(events) == events[k].createdAt
    ensures FirstStart(events).None? <==>
              forall k :: 0 <= k < |events| ==>
                events[k].runtimeEventType != "task.started" || events[k].createdAt.None?
  {
    if events != [] {
      var rest := events[1..];
      FirstStartIsFirst(rest);
      forall k | (0 < k < |events| && events[k].runtimeEventType == "task.started" && events[k].createdAt.Some? &&
                  forall j :: 0 <= j < k ==>
                    events[j].runtimeEventType != "task.started" || events[j].createdAt.None?)
        ensures FirstStart(rest) == events[k].createdAt
      {
        assert rest[k - 1] == events[k];
        assert forall j :: 0 <= j < k - 1 ==> rest[j] == events[j + 1];
      }
      assert forall k :: 0 <= k < |rest| ==> rest[k] == events[k + 1];
    }
  }

  ghost predicate EndsAt(events: seq<Event>, k: nat) {
    && k < |events| && Words(events, Status)[k] in {"completed", "failed", "cancelled", "timed_out"}
    && forall j :: k < j < |events| ==> Words(events, Status)[j] !in {"completed", "failed", "cancelled", "timed_out"}
  }

  lemma {:induction false} LastEndIsLast(events: seq<Event>, k: nat)
    requires EndsAt(events, k)
    ensures LastEnd(events) == events[k].createdAt
  {
    hide Said;
    var n := |events| - 1;
    PrefixWords(events, Status, n);
    SaidIsWord(events, Status, n);
    if k < n {
      LastEndIsLast(events[..n], k);
    }
  }

  lemma {:induction false} NeverEnds(events: seq<Event>)
    requires forall i :: 0 <= i < |events| ==>
               Words(events, Status)[i] !in {"completed", "failed", "cancelled", "timed_out"}
    ensures LastEnd(events).None?
  {
    hide Said;
    if events != [] {
      var n := |events| - 1;
      PrefixWords(events, Status, n);
      SaidIsWord(events, Status, n);
      NeverEnds(events[..n]);
    }
  }

  /** Under every event id the digest keeps the last payload that came with it. */
  lemma {:induction false} RawIsLast(events: seq<Event>, k: nat)
    requires k < |events| && forall j :: k < j < |events| ==> events[j].id != events[k].id
    ensures events[k].id in RawOf(events) && RawOf(events)[events[k].id] == events[k].payload
  {
    if k < |events| - 1 {
      RawIsLast(events[..|events| - 1], k);
    }
  }

  /** An execution starts at its first readable start event, ends with its last final status, and keeps its payloads. */
  lemma DigestTimes(origin: Origin, task: string, own: seq<Event>, k: nat)
    requires k < |own|
    ensures var d := Digest(origin, task, own);
            && ((own[k].runtimeEventType == "task.started" && own[k].createdAt.Some? &&
                 forall j :: 0 <= j < k ==> own[j].runtimeEventType != "task.started" || own[j].createdAt.None?) ==>
                  d.startedAt == own[k].createdAt)
            && (EndsAt(own, k) ==> d.endedAt == own[k].createdAt)
            && ((forall j :: k < j < |own| ==> own[j].id != own[k].id) ==>
                  own[k].id in d.raw && d.raw[own[k].id] == own[k].payload)
  {
    hide EndsAt;
    FirstStartIsFirst(own);
    if EndsAt(own, k) {
      LastEndIsLast(own, k);
    }
    if forall j :: k < j < |own| ==> own[j].id != own[k].id {
      RawIsLast(own, k);
    }
  }

  /** The events that count: those from the task's first delegation on, none before. */
  lemma {:induction false} CountedFromDelegation(events: seq<Event>) returns (k: nat)
    ensures k <= |events| && FromDelegation(events) == events[k..]
    ensures forall j :: 0 <= j < k ==>
              !(events[j].payload.taskId != "" && events[j].payload.taskKind == "delegated_agent")
    ensures k < |events| ==> events[k].payload.taskId != "" && events[k].payload.taskKind == "delegated_agent"
  {
    k := 0;
    if events != [] && !IsDelegation(events[0]) {
      var rest := CountedFromDelegation(events[1..]);
      k := rest + 1;
      assert events[k..] == events[1..][rest..];
      forall j | 0 < j < k ensures !IsDelegation(events[j]) {
        assert events[j] == events[1..][j - 1];
      }
    }
  }
}
