/**
 The queue of messages awaiting the user interface and the retry task spawned
 for each (rust/src/native.rs, start_loop; rust/src/api/api.rs, complete_msg
 and ptr_to_dart).

 A step is what happens under one acquisition of the queue's lock, or one call
 out of a task between two acquisitions. A run is any sequence of steps.
 */
module RetryQueue {
  import opened Wrappers
  import opened Tally

  /** The counter is an unsigned 64-bit word that wraps around. */
  const WORD: nat := 0x1_0000_0000_0000_0000

  const MAX_RETRIES: nat := 5

  datatype Message = TwoFaAuth(success: bool) | Payload(body: string)

  /** A queued message; id counts the messages ever queued. */
  datatype Entry = Entry(id: nat, body: string)

  /** Asleep, about to re-emit, about to drop its message, or over. */
  datatype Pc = Sleeping | Emitting | Dropping | Done

  /** The retry task of the message with the same position in the list of tasks. */
  datatype Task = Task(key: nat, retry: nat, pc: Pc)

  datatype Pump = Polling | MustEmit(id: nat, key: nat) | Stopped

  datatype Emission = Emission(id: nat, key: nat, retry: nat)

  /** How a message left the map. */
  datatype Cause = Completed | Dropped | Overwritten

  datatype Departure = Departure(id: nat, cause: Cause)

  datatype State = State(
    next: nat,
    messages: map<nat, Entry>,
    tasks: seq<Task>,
    pump: Pump,
    emissions: seq<Emission>,
    departures: seq<Departure>,
    twoFa: seq<bool>)

  const INIT := State(0, map[], [], Polling, [], [], [])

  datatype PollResult = Cont(msg: Option<Message>) | Stop | Panicked

  datatype Action = Poll(result: PollResult) | EmitFirst | TaskStep(id: nat) | Complete(key: nat)

  // ---------------------------------------------------------------- the steps

  /** The departure of whatever the map holds under a key. */
  function Leaving(messages: map<nat, Entry>, key: nat, cause: Cause): seq<Departure> {
    if key in messages then [Departure(messages[key].id, cause)] else []
  }

  function Enqueue(st: State, body: string): State {
    var id := |st.tasks|;
    st.(next := (st.next + 1) % WORD,
        messages := st.messages[st.next := Entry(id, body)],
        tasks := st.tasks + [Task(st.next, 0, Sleeping)],
        pump := MustEmit(id, st.next),
        departures := st.departures + Leaving(st.messages, st.next, Overwritten))
  }

  function PollStep(st: State, result: PollResult): State {
    if !st.pump.Polling? then st
    else
      match result
      case Stop => st.(pump := Stopped)
      case Panicked => st
      case Cont(None) => st
      case Cont(Some(TwoFaAuth(success))) => st.(twoFa := st.twoFa + [success])
      case Cont(Some(Payload(body))) => Enqueue(st, body)
  }

  function EmitFirstStep(st: State): State {
    match st.pump
    case MustEmit(id, key) => st.(pump := Polling, emissions := st.emissions + [Emission(id, key, 0)])
    case _ => st
  }

  /** The check at the head of the retry loop, under the lock. */
  function Check(t: Task, queued: bool): Task {
    if !queued then t.(pc := Done)
    else if t.retry + 1 > MAX_RETRIES then t.(retry := t.retry + 1, pc := Dropping)
    else t.(retry := t.retry + 1, pc := Emitting)
  }

  function RunTask(st: State, id: nat): State
    requires id < |st.tasks|
  {
    var t := st.tasks[id];
    match t.pc
    case Sleeping => st.(tasks := st.tasks[id := Check(t, t.key in st.messages)])
    case Emitting =>
      st.(tasks := st.tasks[id := t.(pc := Sleeping)], emissions := st.emissions + [Emission(id, t.key, t.retry)])
    case Dropping =>
      st.(tasks := st.tasks[id := t.(pc := Done)], messages := st.messages - {t.key},
          departures := st.departures + Leaving(st.messages, t.key, Dropped))
    case Done => st
  }

  function CompleteStep(st: State, key: nat): State {
    st.(messages := st.messages - {key},
        departures := st.departures + Leaving(st.messages, key, Completed))
  }

  /** One atomic step; a step that is not enabled changes nothing. */
  function Step(st: State, a: Action): State {
    match a
    case Poll(result) => PollStep(st, result)
    case EmitFirst => EmitFirstStep(st)
    case TaskStep(id) => if id < |st.tasks| then RunTask(st, id) else st
    case Complete(key) => CompleteStep(st, key)
  }

  predicate Enqueues(st: State, a: Action) {
    st.pump.Polling? && a.Poll? && a.result.Cont? && a.result.msg.Some? && a.result.msg.value.Payload?
  }

  function Run(st: State, actions: seq<Action>): State
    decreases actions
  {
    if actions == [] then st else Run(Step(st, actions[0]), actions[1..])
  }

  // ---------------------------------------------------------------- the invariants

  predicate Live(t: Task) {
    t.pc != Done
  }

  /** The message with this id is still in the map. */
  predicate Queued(st: State, id: nat) {
    id < |st.tasks| && st.tasks[id].key in st.messages && st.messages[st.tasks[id].key].id == id
  }

  predicate TaskOk(t: Task) {
    match t.pc
    case Sleeping => t.retry <= MAX_RETRIES
    case Emitting => 1 <= t.retry <= MAX_RETRIES
    case Dropping => t.retry == MAX_RETRIES + 1
    case Done => t.retry <= MAX_RETRIES + 1
  }

  /** Keys are handed out in order, wrapping around. */
  predicate KeysOk(st: State) {
    && st.next == |st.tasks| % WORD
    && (forall i :: 0 <= i < |st.tasks| ==> st.tasks[i].key == i % WORD && TaskOk(st.tasks[i]))
  }

  /** Whatever is in the map has a live task waiting for it. */
  predicate MapOk(st: State) {
    forall k :: k in st.messages ==>
      Queued(st, st.messages[k].id) && st.tasks[st.messages[k].id].key == k && Live(st.tasks[st.messages[k].id])
  }

  function Departed(d: Departure): Option<nat> {
    Some(d.id)
  }

  /** Every message is in the map or has left it, exactly once. */
  ghost predicate Accounted(st: State) {
    forall id: nat ::
      Tokens(st.departures, Departed)[id] == if id < |st.tasks| && !Queued(st, id) then 1 else 0
  }

  /** How often a task has re-emitted so far. */
  function Emitted(t: Task): nat {
    if t.pc == Emitting && t.retry > 0 then t.retry - 1
    else if t.retry > MAX_RETRIES then MAX_RETRIES
    else t.retry
  }

  /** The retry numbers of a message's re-emissions, in order. */
  function Retries(es: seq<Emission>, id: nat): seq<nat> {
    if es == [] then []
    else
      var last := es[|es| - 1];
      Retries(es[..|es| - 1], id) + if last.id == id && last.retry > 0 then [last.retry] else []
  }

  /** How often a message's first emission happened. */
  function Firsts(es: seq<Emission>, id: nat): nat {
    if es == [] then 0
    else
      var last := es[|es| - 1];
      Firsts(es[..|es| - 1], id) + if last.id == id && last.retry == 0 then 1 else 0
  }

  /** 1, 2, ..., n. */
  function CountUp(n: nat): (s: seq<nat>)
    ensures |s| == n && forall i :: 0 <= i < n ==> s[i] == i + 1
  {
    if n == 0 then [] else CountUp(n - 1) + [n]
  }

  ghost predicate EmissionsOk(st: State) {
    && (forall id: nat :: id < |st.tasks| ==> Retries(st.emissions, id) == CountUp(Emitted(st.tasks[id])))
    && (forall id: nat :: id >= |st.tasks| ==> Retries(st.emissions, id) == [])
    && (forall id: nat :: Firsts(st.emissions, id) ==
          if id < |st.tasks| && !(st.pump.MustEmit? && st.pump.id == id) then 1 else 0)
    && (st.pump.MustEmit? ==> st.pump.id == |st.tasks| - 1)
  }

  /** The handler is told of a message under the message's own key, and is about to be. */
  predicate TellsKeys(st: State) {
    && (forall i :: 0 <= i < |st.emissions| ==>
          st.emissions[i].id < |st.tasks| && st.emissions[i].key == st.emissions[i].id % WORD)
    && (st.pump.MustEmit? ==> st.pump.id < |st.tasks| && st.pump.key == st.pump.id % WORD)
  }

  ghost predicate Valid(st: State) {
    KeysOk(st) && MapOk(st) && Accounted(st) && EmissionsOk(st) && TellsKeys(st)
  }

  // ---------------------------------------------------------------- every step keeps them

  lemma EnqueueKeepsKeys(st: State, body: string)
    requires KeysOk(st) && MapOk(st)
    ensures KeysOk(Enqueue(st, body)) && MapOk(Enqueue(st, body))
  {
    var st' := Enqueue(st, body);
    NextKey(|st.tasks|);
    forall k | k in st'.messages
      ensures Queued(st', st'.messages[k].id) && st'.tasks[st'.messages[k].id].key == k && Live(st'.tasks[st'.messages[k].id])
    {
      if k != st.next { assert Queued(st, st.messages[k].id); }
    }
  }

  lemma NextKey(n: nat)
    ensures (n % WORD + 1) % WORD == (n + 1) % WORD
  {
    assert n == n / WORD * WORD + n % WORD;
    if n % WORD + 1 == WORD { assert n + 1 == (n / WORD + 1) * WORD; } else { assert (n + 1) / WORD == n / WORD; }
  }

  lemma StepKeepsKeys(st: State, a: Action)
    requires KeysOk(st) && MapOk(st)
    ensures KeysOk(Step(st, a)) && MapOk(Step(st, a))
  {
    match a
    case Poll(Cont(Some(Payload(body)))) => EnqueueKeepsKeys(st, body);
    case Poll(_) =>
    case EmitFirst =>
    case TaskStep(id) =>
      if id < |st.tasks| { RunTaskKeepsKeys(st, id); }
    case Complete(key) =>
  }

  lemma RunTaskKeepsKeys(st: State, id: nat)
    requires KeysOk(st) && MapOk(st) && id < |st.tasks|
    ensures KeysOk(RunTask(st, id)) && MapOk(RunTask(st, id))
  {
    var st' := RunTask(st, id);
    assert TaskOk(st.tasks[id]);
    forall k | k in st'.messages
      ensures Queued(st', st'.messages[k].id) && st'.tasks[st'.messages[k].id].key == k && Live(st'.tasks[st'.messages[k].id])
    {
      assert k in st.messages && Queued(st, st.messages[k].id);
    }
  }

  /** What leaves the map under a key is accounted for by one departure. */
  lemma LeavingAccounts(st: State, key: nat, cause: Cause)
    ensures Tokens(st.departures + Leaving(st.messages, key, cause), Departed)
            == Tokens(st.departures, Departed) + if key in st.messages then multiset{st.messages[key].id} else multiset{}
  {
    if key in st.messages {
      TokensAppend(st.departures, Departure(st.messages[key].id, cause), Departed);
    } else {
      assert st.departures + [] == st.departures;
    }
  }

  lemma RemovalKeepsAccounts(st: State, st': State, key: nat, cause: Cause)
    requires MapOk(st) && Accounted(st)
    requires st'.messages == st.messages - {key} && st'.departures == st.departures + Leaving(st.messages, key, cause)
    requires |st'.tasks| == |st.tasks| && forall i :: 0 <= i < |st.tasks| ==> st'.tasks[i].key == st.tasks[i].key
    ensures Accounted(st')
  {
    hide Tokens, Leaving;
    LeavingAccounts(st, key, cause);
    forall id: nat
      ensures Tokens(st'.departures, Departed)[id] == if id < |st'.tasks| && !Queued(st', id) then 1 else 0
    {
      if key in st.messages { assert Queued(st, st.messages[key].id); }
    }
  }

  /** A new message under an unused key. */
  lemma InsertKeepsAccounts(st: State, key: nat, body: string)
    requires Accounted(st) && key !in st.messages
    ensures Accounted(st.(messages := st.messages[key := Entry(|st.tasks|, body)], tasks := st.tasks + [Task(key, 0, Sleeping)]))
  {
    var n := |st.tasks|;
    var st' := st.(messages := st.messages[key := Entry(n, body)], tasks := st.tasks + [Task(key, 0, Sleeping)]);
    assert Queued(st', n);
    forall id: nat
      ensures Tokens(st'.departures, Departed)[id] == if id < |st'.tasks| && !Queued(st', id) then 1 else 0
    {
      if id < n { assert Queued(st', id) == Queued(st, id); }
    }
  }

  lemma EnqueueKeepsAccounts(st: State, body: string)
    requires KeysOk(st) && MapOk(st) && Accounted(st)
    ensures Accounted(Enqueue(st, body))
  {
    var emptied := st.(messages := st.messages - {st.next},
                       departures := st.departures + Leaving(st.messages, st.next, Overwritten));
    RemovalKeepsAccounts(st, emptied, st.next, Overwritten);
    InsertKeepsAccounts(emptied, st.next, body);
    var filled := emptied.(messages := emptied.messages[st.next := Entry(|st.tasks|, body)],
                           tasks := st.tasks + [Task(st.next, 0, Sleeping)]);
    var st' := Enqueue(st, body);
    assert st'.messages == filled.messages;
    SameQueueSameAccounts(filled, st');
  }

  lemma SameQueueSameAccounts(st: State, st': State)
    requires Accounted(st) && st'.messages == st.messages && st'.departures == st.departures
    requires |st'.tasks| == |st.tasks| && forall i :: 0 <= i < |st.tasks| ==> st'.tasks[i].key == st.tasks[i].key
    ensures Accounted(st')
  {
    forall id: nat
      ensures Tokens(st'.departures, Departed)[id] == if id < |st'.tasks| && !Queued(st', id) then 1 else 0
    {
      assert Queued(st', id) == Queued(st, id);
    }
  }

  lemma StepKeepsAccounts(st: State, a: Action)
    requires KeysOk(st) && MapOk(st) && Accounted(st)
    ensures Accounted(Step(st, a))
  {
    var st' := Step(st, a);
    if Enqueues(st, a) {
      EnqueueKeepsAccounts(st, a.result.msg.value.body);
    } else if a.Complete? {
      RemovalKeepsAccounts(st, st', a.key, Completed);
    } else if a.TaskStep? && a.id < |st.tasks| && st.tasks[a.id].pc == Dropping {
      RemovalKeepsAccounts(st, st', st.tasks[a.id].key, Dropped);
    } else {
      SameQueueSameAccounts(st, st');
    }
  }

  lemma EmissionAppends(es: seq<Emission>, e: Emission, id: nat)
    ensures Retries(es + [e], id) == Retries(es, id) + if e.id == id && e.retry > 0 then [e.retry] else []
    ensures Firsts(es + [e], id) == Firsts(es, id) + if e.id == id && e.retry == 0 then 1 else 0
  {
    assert (es + [e])[..|es|] == es;
  }

  /** A task that does not emit keeps its number of re-emissions. */
  lemma QuietTaskKeepsEmissions(st: State, id: nat)
    requires EmissionsOk(st) && id < |st.tasks| && TaskOk(st.tasks[id]) && st.tasks[id].pc != Emitting
    ensures EmissionsOk(RunTask(st, id))
  {
    hide Retries, Firsts, CountUp, TaskOk;
    SameEmitted(st, id);
  }

  lemma SameEmitted(st: State, id: nat)
    requires id < |st.tasks| && TaskOk(st.tasks[id]) && st.tasks[id].pc != Emitting
    ensures Emitted(RunTask(st, id).tasks[id]) == Emitted(st.tasks[id])
  {
  }

  lemma EmittingKeepsEmissions(st: State, id: nat)
    requires EmissionsOk(st) && id < |st.tasks| && TaskOk(st.tasks[id]) && st.tasks[id].pc == Emitting
    ensures EmissionsOk(RunTask(st, id))
  {
    hide Retries, Firsts, CountUp;
    var t := st.tasks[id];
    var e := Emission(id, t.key, t.retry);
    CountOneMore(t.retry);
    forall i: nat
      ensures Retries(st.emissions + [e], i) == Retries(st.emissions, i) + if i == id then [t.retry] else []
      ensures Firsts(st.emissions + [e], i) == Firsts(st.emissions, i)
    {
      EmissionAppends(st.emissions, e, i);
    }
  }

  lemma CountOneMore(n: nat)
    requires n > 0
    ensures CountUp(n) == CountUp(n - 1) + [n]
  {
  }

  lemma EnqueueKeepsEmissions(st: State, body: string)
    requires EmissionsOk(st) && st.pump.Polling?
    ensures EmissionsOk(Enqueue(st, body))
  {
    var st' := Enqueue(st, body);
    forall id: nat | id < |st'.tasks| ensures Retries(st'.emissions, id) == CountUp(Emitted(st'.tasks[id])) {
      if id == |st.tasks| { assert Retries(st.emissions, id) == [] == CountUp(0); }
    }
  }

  lemma EmitFirstKeepsEmissions(st: State)
    requires EmissionsOk(st)
    ensures EmissionsOk(EmitFirstStep(st))
  {
    if st.pump.MustEmit? {
      var e := Emission(st.pump.id, st.pump.key, 0);
      forall id: nat
        ensures Retries(st.emissions + [e], id) == Retries(st.emissions, id)
        ensures Firsts(st.emissions + [e], id) == Firsts(st.emissions, id) + if id == st.pump.id then 1 else 0
      {
        EmissionAppends(st.emissions, e, id);
      }
    }
  }

  lemma StepTellsKeys(st: State, a: Action)
    requires KeysOk(st) && TellsKeys(st)
    ensures TellsKeys(Step(st, a))
  {
    if a.TaskStep? && a.id < |st.tasks| { assert st.tasks[a.id].key == a.id % WORD; }
  }

  lemma StepKeepsValid(st: State, a: Action)
    requires Valid(st)
    ensures Valid(Step(st, a))
  {
    StepTellsKeys(st, a);
    StepKeepsKeys(st, a);
    StepKeepsAccounts(st, a);
    match a
    case Poll(Cont(Some(Payload(body)))) => if st.pump.Polling? { EnqueueKeepsEmissions(st, body); }
    case Poll(_) =>
    case EmitFirst => EmitFirstKeepsEmissions(st);
    case TaskStep(id) =>
      if id < |st.tasks| {
        if st.tasks[id].pc == Emitting { EmittingKeepsEmissions(st, id); } else { QuietTaskKeepsEmissions(st, id); }
      }
    case Complete(key) =>
  }

  lemma {:induction false} RunKeepsValid(st: State, actions: seq<Action>)
    requires Valid(st)
    ensures Valid(Run(st, actions))
    decreases actions
  {
    if actions != [] {
      StepKeepsValid(st, actions[0]);
      RunKeepsValid(Step(st, actions[0]), actions[1..]);
    }
  }

  lemma ReachableStatesAreValid(actions: seq<Action>)
    ensures Valid(Run(INIT, actions))
  {
    assert Valid(INIT);
    RunKeepsValid(INIT, actions);
  }

  // ---------------------------------------------------------------- emissions and departures

  /** A message is re-emitted with 1, 2, ... in order, never beyond 5, and first emitted at most once. */
  lemma RetriesInOrder(actions: seq<Action>, id: nat)
    ensures var es := Run(INIT, actions).emissions;
            && |Retries(es, id)| <= 5
            && Retries(es, id) == CountUp(|Retries(es, id)|)
            && Firsts(es, id) <= 1
  {
    ReachableStatesAreValid(actions);
    var st := Run(INIT, actions);
    if id < |st.tasks| { assert TaskOk(st.tasks[id]); }
  }

  /** The payloads a run takes from the poll, in order. */
  function Payloads(st: State, actions: seq<Action>): seq<string>
    decreases actions
  {
    if actions == [] then []
    else
      (if Enqueues(st, actions[0]) then [actions[0].result.msg.value.body] else [])
      + Payloads(Step(st, actions[0]), actions[1..])
  }

  /** What is queued as message number id is payload number id. */
  predicate HoldsPayloads(st: State, bodies: seq<string>) {
    && |bodies| == |st.tasks|
    && forall k :: k in st.messages ==> st.messages[k].id < |bodies| && st.messages[k].body == bodies[st.messages[k].id]
  }

  lemma StepHoldsPayloads(st: State, a: Action, bodies: seq<string>)
    requires HoldsPayloads(st, bodies)
    ensures HoldsPayloads(Step(st, a), bodies + if Enqueues(st, a) then [a.result.msg.value.body] else [])
  {
  }

  lemma {:induction false} RunHoldsPayloads(st: State, actions: seq<Action>, bodies: seq<string>)
    requires HoldsPayloads(st, bodies)
    ensures HoldsPayloads(Run(st, actions), bodies + Payloads(st, actions))
    decreases actions
  {
    hide HoldsPayloads, Step;
    if actions == [] {
      assert bodies + [] == bodies;
    } else {
      var polled := if Enqueues(st, actions[0]) then [actions[0].result.msg.value.body] else [];
      StepHoldsPayloads(st, actions[0], bodies);
      RunHoldsPayloads(Step(st, actions[0]), actions[1..], bodies + polled);
      assert bodies + polled + Payloads(Step(st, actions[0]), actions[1..]) == bodies + Payloads(st, actions);
    }
  }

  /**
   In every run each emission, the first and every retry, carries its message's own key, and while
   the message is queued a lookup under that key finds the payload that was polled for it.
   */
  lemma EmittedKeyFindsThePayload(actions: seq<Action>, i: nat)
    requires i < |Run(INIT, actions).emissions|
    ensures var st, bodies := Run(INIT, actions), Payloads(INIT, actions);
            var e := st.emissions[i];
            && |bodies| == |st.tasks|
            && e.id < |st.tasks| && e.key == e.id % WORD
            && (Queued(st, e.id) ==> e.key in st.messages && st.messages[e.key].body == bodies[e.id])
  {
    hide Accounted, EmissionsOk, MapOk;
    ReachableStatesAreValid(actions);
    RunHoldsPayloads(INIT, actions, []);
    assert [] + Payloads(INIT, actions) == Payloads(INIT, actions);
  }

  /** The sign-in results a run takes from the poll, in order. */
  function TwoFas(st: State, actions: seq<Action>): seq<bool>
    decreases actions
  {
    if actions == [] then []
    else
      (match actions[0]
       case Poll(Cont(Some(TwoFaAuth(success)))) => if st.pump.Polling? then [success] else []
       case _ => [])
      + TwoFas(Step(st, actions[0]), actions[1..])
  }

  /** Sign-in results go straight to the handler: all of them, in order, and never through the queue. */
  lemma {:induction false} TwoFasAreHandedOn(st: State, actions: seq<Action>)
    ensures Run(st, actions).twoFa == st.twoFa + TwoFas(st, actions)
    decreases actions
  {
    if actions != [] { TwoFasAreHandedOn(Step(st, actions[0]), actions[1..]); }
  }

  /** Once stopped the loop takes and emits nothing first any more; what is queued is still retried. */
  lemma {:induction false} StoppedLoopTakesNothing(st: State, actions: seq<Action>)
    requires st.pump.Stopped?
    ensures var st' := Run(st, actions);
            st'.pump.Stopped? && |st'.tasks| == |st.tasks| && st'.twoFa == st.twoFa && Payloads(st, actions) == []
    decreases actions
  {
    if actions != [] { StoppedLoopTakesNothing(Step(st, actions[0]), actions[1..]); }
  }

  /** The poll that stops the loop, and nothing else, stops it. */
  lemma StoppedExactly(st: State, a: Action)
    requires !st.pump.Stopped?
    ensures Step(st, a).pump.Stopped? <==> st.pump.Polling? && a == Poll(Stop)
  {
  }

  /** Every message ever queued is still in the map or has left it exactly once. */
  lemma EachMessageLeavesOnce(actions: seq<Action>, id: nat)
    requires id < |Run(INIT, actions).tasks|
    ensures var st := Run(INIT, actions);
            Tokens(st.departures, Departed)[id] == if Queued(st, id) then 0 else 1
  {
    ReachableStatesAreValid(actions);
  }

  /** When a task ends, nothing is left under its key. */
  lemma EndedTaskLeavesNothing(st: State, id: nat)
    requires id < |st.tasks| && Live(st.tasks[id]) && !Live(RunTask(st, id).tasks[id])
    ensures st.tasks[id].key !in RunTask(st, id).messages
  {
  }

  lemma QueuedHasLiveTask(st: State, key: nat)
    requires MapOk(st) && key in st.messages
    ensures var id := st.messages[key].id; id < |st.tasks| && st.tasks[id].key == key && Live(st.tasks[id])
  {
  }

  /** Nothing waits unattended: once every task has ended the map is empty. */
  lemma WaitingMessageHasATask(actions: seq<Action>, key: nat)
    requires key in Run(INIT, actions).messages
    ensures var st := Run(INIT, actions); exists i :: 0 <= i < |st.tasks| && st.tasks[i].key == key && Live(st.tasks[i])
  {
    ReachableStatesAreValid(actions);
    QueuedHasLiveTask(Run(INIT, actions), key);
  }

  // ---------------------------------------------------------------- one task per key

  predicate OneTaskPerKey(st: State) {
    forall i, j :: 0 <= i < j < |st.tasks| && Live(st.tasks[i]) && Live(st.tasks[j]) ==> st.tasks[i].key != st.tasks[j].key
  }

  /** No live task still works on the key that is about to be handed out. */
  predicate KeyIsFree(st: State) {
    forall i :: 0 <= i < |st.tasks| && Live(st.tasks[i]) ==> st.tasks[i].key != st.next
  }

  /** Along the run, every key is free when it is handed out. */
  predicate KeysAreFree(st: State, actions: seq<Action>)
    decreases actions
  {
    actions == [] ||
    ((Enqueues(st, actions[0]) ==> KeyIsFree(st)) && KeysAreFree(Step(st, actions[0]), actions[1..]))
  }

  predicate OneTaskPerKeyThroughout(st: State, actions: seq<Action>)
    decreases actions
  {
    OneTaskPerKey(st) && (actions == [] || OneTaskPerKeyThroughout(Step(st, actions[0]), actions[1..]))
  }

  lemma OneTaskStep(st: State, a: Action)
    requires OneTaskPerKey(st)
    ensures OneTaskPerKey(Step(st, a)) <==> (Enqueues(st, a) ==> KeyIsFree(st))
  {
    var st' := Step(st, a);
    if Enqueues(st, a) {
      var n := |st.tasks|;
      assert st'.tasks[n] == Task(st.next, 0, Sleeping) && forall i :: 0 <= i < n ==> st'.tasks[i] == st.tasks[i];
    } else {
      assert |st'.tasks| == |st.tasks|;
      assert forall i :: 0 <= i < |st.tasks| ==>
        st'.tasks[i].key == st.tasks[i].key && (Live(st'.tasks[i]) ==> Live(st.tasks[i]));
    }
  }

  /** A key never has two retry tasks exactly when no key is handed out while a task still holds it. */
  lemma {:induction false} OneTaskPerKeyExactly(st: State, actions: seq<Action>)
    requires OneTaskPerKey(st)
    ensures OneTaskPerKeyThroughout(st, actions) <==> KeysAreFree(st, actions)
    decreases actions
  {
    if actions != [] {
      var a, st' := actions[0], Step(st, actions[0]);
      OneTaskStep(st, a);
      if OneTaskPerKey(st') { OneTaskPerKeyExactly(st', actions[1..]); }
    }
  }

  lemma EarlyKeyIsFree(st: State)
    requires KeysOk(st) && |st.tasks| < WORD
    ensures KeyIsFree(st)
  {
    forall i | 0 <= i < |st.tasks| ensures st.tasks[i].key == i && st.next == |st.tasks| {
      SmallMod(i);
      SmallMod(|st.tasks|);
    }
  }

  lemma SmallMod(n: nat)
    requires n < WORD
    ensures n % WORD == n
  {
  }

  /** The word is wide enough: fewer than 2^64 messages never meet a key twice. */
  lemma {:induction false} FewMessagesFindKeysFree(st: State, actions: seq<Action>)
    requires Valid(st) && |Run(st, actions).tasks| <= WORD
    ensures KeysAreFree(st, actions)
    decreases actions
  {
    if actions != [] {
      var a := actions[0];
      StepKeepsValid(st, a);
      TasksOnlyGrow(Step(st, a), actions[1..]);
      if Enqueues(st, a) { EarlyKeyIsFree(st); }
      FewMessagesFindKeysFree(Step(st, actions[0]), actions[1..]);
    }
  }

  lemma {:induction false} TasksOnlyGrow(st: State, actions: seq<Action>)
    ensures |st.tasks| <= |Run(st, actions).tasks|
    decreases actions
  {
    if actions != [] { TasksOnlyGrow(Step(st, actions[0]), actions[1..]); }
  }

  lemma QueuedKeyIsBusy(st: State)
    requires MapOk(st)
    ensures st.next in st.messages ==> !KeyIsFree(st)
  {
    if st.next in st.messages {
      QueuedHasLiveTask(st, st.next);
      var id := st.messages[st.next].id;
      assert Live(st.tasks[id]) && st.tasks[id].key == st.next;
    }
  }

  /** Whenever keys are free, nothing is overwritten: a message leaves completed or dropped. */
  lemma FreeKeyOverwritesNothing(st: State, body: string)
    requires Valid(st) && KeyIsFree(st)
    ensures Enqueue(st, body).departures == st.departures
  {
    QueuedKeyIsBusy(st);
  }

  /** A task's check goes on exactly while its own message is queued: none made after completion emits. */
  lemma CheckSeesOwnMessage(st: State, id: nat)
    requires Valid(st) && OneTaskPerKey(st) && id < |st.tasks| && st.tasks[id].pc == Sleeping
    ensures Live(RunTask(st, id).tasks[id]) <==> Queued(st, id)
    ensures RunTask(st, id).emissions == st.emissions
  {
    var k := st.tasks[id].key;
    if k in st.messages {
      var other := st.messages[k].id;
      assert Queued(st, other) && Live(st.tasks[other]);
    }
  }

  /** An ended task stays ended. */
  lemma EndedTaskStaysEnded(st: State, a: Action, id: nat)
    requires id < |st.tasks| && !Live(st.tasks[id])
    ensures Step(st, a).tasks[id] == st.tasks[id]
  {
  }

  /** An ended task stays silent. */
  lemma EndedTaskStaysSilent(st: State, a: Action, id: nat)
    requires id < |st.tasks| && !Live(st.tasks[id])
    ensures Retries(Step(st, a).emissions, id) == Retries(st.emissions, id)
  {
    var es, es' := st.emissions, Step(st, a).emissions;
    if es' != es {
      var e := es'[|es|];
      assert es' == es + [e] && (e.id != id || e.retry == 0);
      EmissionAppends(es, e, id);
    }
  }

  /** The message is gone and its task has no emission left to make. */
  predicate Settled(st: State, id: nat) {
    id < |st.tasks| && (st.tasks[id].pc == Done || (st.tasks[id].pc == Sleeping && !Queued(st, id)))
  }

  lemma SettledStep(st: State, a: Action, id: nat)
    requires Valid(st) && OneTaskPerKey(st) && (Enqueues(st, a) ==> KeyIsFree(st)) && Settled(st, id)
    ensures Settled(Step(st, a), id)
    ensures Retries(Step(st, a).emissions, id) == Retries(st.emissions, id)
  {
    hide Valid, KeysOk, MapOk, Accounted, EmissionsOk, Retries;
    if st.tasks[id].pc == Done {
      EndedTaskStaysEnded(st, a, id);
      EndedTaskStaysSilent(st, a, id);
    } else {
      if a.TaskStep? && a.id == id { CheckSeesOwnMessage(st, id); }
      SleeperStaysSilent(st, a, id);
    }
  }

  lemma SleeperStaysSilent(st: State, a: Action, id: nat)
    requires id < |st.tasks| && st.tasks[id].pc == Sleeping
    ensures Retries(Step(st, a).emissions, id) == Retries(st.emissions, id)
  {
    var es, es' := st.emissions, Step(st, a).emissions;
    if es' != es {
      var e := es'[|es|];
      assert es' == es + [e] && (e.id != id || e.retry == 0);
      EmissionAppends(es, e, id);
    }
  }

  /** Once a message is completed or dropped, no check its task makes afterwards ever emits it again. */
  lemma {:induction false} SettledMessageStaysSilent(st: State, actions: seq<Action>, id: nat)
    requires Valid(st) && OneTaskPerKey(st) && KeysAreFree(st, actions) && Settled(st, id)
    ensures Retries(Run(st, actions).emissions, id) == Retries(st.emissions, id)
    decreases actions
  {
    hide Valid, Settled, OneTaskPerKey, Retries, KeyIsFree;
    if actions != [] {
      SettledStep(st, actions[0], id);
      StepKeepsValid(st, actions[0]);
      OneTaskStep(st, actions[0]);
      SettledMessageStaysSilent(Step(st, actions[0]), actions[1..], id);
    }
  }

  predicate NoneOverwritten(ds: seq<Departure>) {
    forall i :: 0 <= i < |ds| ==> ds[i].cause != Overwritten
  }

  /** While keys are free when handed out, every message leaves completed or dropped. */
  lemma {:induction false} NothingIsOverwritten(st: State, actions: seq<Action>)
    requires Valid(st) && KeysAreFree(st, actions) && NoneOverwritten(st.departures)
    ensures NoneOverwritten(Run(st, actions).departures)
    decreases actions
  {
    hide Valid, KeyIsFree;
    if actions != [] {
      var a := actions[0];
      StepKeepsValid(st, a);
      if Enqueues(st, a) { FreeKeyOverwritesNothing(st, a.result.msg.value.body); }
      NothingIsOverwritten(Step(st, a), actions[1..]);
    }
  }

  lemma {:induction false} RunAppend(st: State, a: seq<Action>, b: seq<Action>)
    ensures Run(st, a + b) == Run(Run(st, a), b)
    decreases a
  {
    if a == [] {
      assert a + b == b;
    } else {
      assert (a + b)[0] == a[0] && (a + b)[1..] == a[1..] + b;
      RunAppend(Step(st, a[0]), a[1..], b);
    }
  }

  lemma {:induction false} FreeAfter(st: State, a: seq<Action>, b: seq<Action>)
    requires KeysAreFree(st, a + b)
    ensures KeysAreFree(st, a) && KeysAreFree(Run(st, a), b)
    decreases a
  {
    if a == [] {
      assert a + b == b;
    } else {
      assert (a + b)[0] == a[0] && (a + b)[1..] == a[1..] + b;
      FreeAfter(Step(st, a[0]), a[1..], b);
    }
  }

  lemma {:induction false} OneTaskAtTheEnd(st: State, actions: seq<Action>)
    requires OneTaskPerKeyThroughout(st, actions)
    ensures OneTaskPerKey(Run(st, actions))
    decreases actions
  {
    if actions != [] { OneTaskAtTheEnd(Step(st, actions[0]), actions[1..]); }
  }

  /** A run from the start that queues no more messages than the counter has values. */
  predicate FitsTheCounter(actions: seq<Action>) {
    |Run(INIT, actions).tasks| <= WORD
  }

  /** The queue's promise without conditions on keys: one task a key throughout, and every message leaves completed or dropped. */
  lemma QueueKeepsItsPromise(actions: seq<Action>)
    requires FitsTheCounter(actions)
    ensures KeysAreFree(INIT, actions) && OneTaskPerKeyThroughout(INIT, actions)
    ensures NoneOverwritten(Run(INIT, actions).departures)
  {
    ReachableStatesAreValid([]);
    FewMessagesFindKeysFree(INIT, actions);
    OneTaskPerKeyExactly(INIT, actions);
    NothingIsOverwritten(INIT, actions);
  }

  /** In such a run a check goes on exactly while its own message is queued. */
  lemma EveryCheckSeesItsOwnMessage(actions: seq<Action>, id: nat)
    requires FitsTheCounter(actions)
    requires id < |Run(INIT, actions).tasks| && Run(INIT, actions).tasks[id].pc == Sleeping
    ensures var st := Run(INIT, actions);
            Live(RunTask(st, id).tasks[id]) <==> Queued(st, id)
  {
    hide OneTaskPerKey, OneTaskPerKeyThroughout;
    QueueKeepsItsPromise(actions);
    OneTaskAtTheEnd(INIT, actions);
    ReachableStatesAreValid(actions);
    CheckSeesOwnMessage(Run(INIT, actions), id);
  }

  /** And once a message has left and its task sleeps, nothing later in the run emits it again. */
  lemma CompletedMessageIsNeverReemitted(before: seq<Action>, after: seq<Action>, id: nat)
    requires FitsTheCounter(before + after) && Settled(Run(INIT, before), id)
    ensures Retries(Run(INIT, before + after).emissions, id) == Retries(Run(INIT, before).emissions, id)
  {
    hide OneTaskPerKey, OneTaskPerKeyThroughout, KeysAreFree, Settled, Retries;
    QueueKeepsItsPromise(before + after);
    FreeAfter(INIT, before, after);
    RunAppend(INIT, before, after);
    TasksOnlyGrow(Run(INIT, before), after);
    QueueKeepsItsPromise(before);
    OneTaskAtTheEnd(INIT, before);
    ReachableStatesAreValid(before);
    SettledMessageStaysSilent(Run(INIT, before), after, id);
  }

  /**
   How a message leaves, while keys are handed out free: completed under its key, or dropped by its
   own task after it was re-emitted five times.
   */
  lemma MessageLeavesExactly(st: State, a: Action, id: nat)
    requires Valid(st) && OneTaskPerKey(st) && (Enqueues(st, a) ==> KeyIsFree(st))
    requires Queued(st, id)
    ensures !Queued(Step(st, a), id) <==>
            a == Complete(st.tasks[id].key) || (a == TaskStep(id) && st.tasks[id].pc == Dropping)
    ensures a == Complete(st.tasks[id].key) ==> Step(st, a).departures == st.departures + [Departure(id, Completed)]
    ensures a == TaskStep(id) && st.tasks[id].pc == Dropping ==>
              && Step(st, a).departures == st.departures + [Departure(id, Dropped)]
              && Retries(st.emissions, id) == [1, 2, 3, 4, 5]
  {
    hide Accounted, TellsKeys;
    var t := st.tasks[id];
    assert TaskOk(t) && Live(t);
    if t.pc == Dropping { assert Retries(st.emissions, id) == CountUp(5); }
    if a.TaskStep? && a.id != id && a.id < |st.tasks| && st.tasks[a.id].pc == Dropping {
      assert st.tasks[a.id].key != t.key;
    }
  }

  /** So it is along every run from the start, up to 2^64 messages. */
  lemma EveryMessageLeavesExactly(actions: seq<Action>, a: Action, id: nat)
    requires FitsTheCounter(actions + [a]) && Queued(Run(INIT, actions), id)
    ensures var st := Run(INIT, actions);
            && (!Queued(Step(st, a), id) <==>
                  a == Complete(st.tasks[id].key) || (a == TaskStep(id) && st.tasks[id].pc == Dropping))
            && (a == Complete(st.tasks[id].key) ==> Step(st, a).departures == st.departures + [Departure(id, Completed)])
            && (a == TaskStep(id) && st.tasks[id].pc == Dropping ==>
                  && Step(st, a).departures == st.departures + [Departure(id, Dropped)]
                  && Retries(st.emissions, id) == [1, 2, 3, 4, 5])
  {
    hide OneTaskPerKey, OneTaskPerKeyThroughout, Queued, Retries, KeyIsFree;
    QueueKeepsItsPromise(actions + [a]);
    FreeAfter(INIT, actions, [a]);
    RunAppend(INIT, actions, [a]);
    TasksOnlyGrow(Run(INIT, actions), [a]);
    QueueKeepsItsPromise(actions);
    OneTaskAtTheEnd(INIT, actions);
    ReachableStatesAreValid(actions);
    MessageLeavesExactly(Run(INIT, actions), a, id);
  }

  // ---------------------------------------------------------------- termination

  /** Steps a task may still take: a measure on 6 - retry. */
  function Work(t: Task): nat {
    match t.pc
    case Done => 0
    case Dropping => 1
    case Sleeping => if t.retry <= MAX_RETRIES + 1 then 2 * (MAX_RETRIES + 1 - t.retry) else 0
    case Emitting => if t.retry <= MAX_RETRIES + 1 then 2 * (MAX_RETRIES + 1 - t.retry) + 1 else 0
  }

  function TotalWork(ts: seq<Task>): nat {
    if ts == [] then 0 else TotalWork(ts[..|ts| - 1]) + Work(ts[|ts| - 1])
  }

  lemma {:induction false} TotalWorkUpdate(ts: seq<Task>, i: nat, t: Task)
    requires i < |ts|
    ensures TotalWork(ts[i := t]) + Work(ts[i]) == TotalWork(ts) + Work(t)
  {
    var n := |ts| - 1;
    if i < n {
      assert ts[i := t][..n] == ts[..n][i := t];
      TotalWorkUpdate(ts[..n], i, t);
    } else {
      assert ts[i := t][..n] == ts[..n];
    }
  }

  predicate TaskRuns(st: State, a: Action) {
    a.TaskStep? && a.id < |st.tasks| && Live(st.tasks[a.id])
  }

  lemma StepWork(st: State, a: Action)
    requires KeysOk(st)
    ensures TaskRuns(st, a) ==> TotalWork(Step(st, a).tasks) < TotalWork(st.tasks)
    ensures !TaskRuns(st, a) && !Enqueues(st, a) ==> Step(st, a).tasks == st.tasks
    ensures Enqueues(st, a) ==> TotalWork(Step(st, a).tasks) == TotalWork(st.tasks) + 12
  {
    if TaskRuns(st, a) {
      assert TaskOk(st.tasks[a.id]);
      TotalWorkUpdate(st.tasks, a.id, Step(st, a).tasks[a.id]);
    } else if Enqueues(st, a) {
      assert Step(st, a).tasks[..|st.tasks|] == st.tasks;
    }
  }

  /** How many steps of a run are steps of live retry tasks, and how many queue a message. */
  function TaskSteps(st: State, actions: seq<Action>): nat
    decreases actions
  {
    if actions == [] then 0
    else (if TaskRuns(st, actions[0]) then 1 else 0) + TaskSteps(Step(st, actions[0]), actions[1..])
  }

  function Arrivals(st: State, actions: seq<Action>): nat
    decreases actions
  {
    if actions == [] then 0
    else (if Enqueues(st, actions[0]) then 1 else 0) + Arrivals(Step(st, actions[0]), actions[1..])
  }

  /** No retry task runs forever: at most twelve steps for every message queued. */
  lemma {:induction false} TaskStepsAreBounded(st: State, actions: seq<Action>)
    requires Valid(st)
    ensures TaskSteps(st, actions) + TotalWork(Run(st, actions).tasks) <= TotalWork(st.tasks) + 12 * Arrivals(st, actions)
    decreases actions
  {
    if actions != [] {
      StepWork(st, actions[0]);
      StepKeepsValid(st, actions[0]);
      TaskStepsAreBounded(Step(st, actions[0]), actions[1..]);
    }
  }

  // ---------------------------------------------------------------- the shared queue itself

  /** QUEUED_MESSAGES with the tasks around it; each method is one step. */
  class MessageQueue {
    var next: nat
    var messages: map<nat, Entry>
    var tasks: seq<Task>
    var pump: Pump
    var emissions: seq<Emission>
    var departures: seq<Departure>
    var twoFa: seq<bool>

    ghost function Now(): State
      reads this
    {
      State(next, messages, tasks, pump, emissions, departures, twoFa)
    }

    constructor ()
      ensures Now() == INIT
    {
      next, messages, tasks, pump := 0, map[], [], Polling;
      emissions, departures, twoFa := [], [], [];
    }

    /** One turn of the receive loop up to the release of the lock. */
    method Pump(result: PollResult)
      requires pump.Polling?
      modifies this
      ensures Now() == PollStep(old(Now()), result)
    {
      match result {
        case Stop => pump := Stopped;
        case Panicked =>
        case Cont(None) =>
        case Cont(Some(TwoFaAuth(event))) => twoFa := twoFa + [event];
        case Cont(Some(Payload(body))) =>
          var key, id := next, |tasks|;
          departures := departures + Leaving(messages, key, Overwritten);
          messages := messages[key := Entry(id, body)];
          next := (next + 1) % WORD;
          tasks := tasks + [Task(key, 0, Sleeping)];
          pump := MustEmit(id, key);
      }
    }

    /** The receive loop's own emission, after the retry task is spawned. */
    method EmitPending()
      requires pump.MustEmit?
      modifies this
      ensures Now() == EmitFirstStep(old(Now()))
      ensures Valid(old(Now())) ==> Firsts(emissions, old(pump.id)) == 1
      ensures Valid(old(Now())) ==> emissions == old(emissions) + [Emission(old(pump.id), old(pump.id) % WORD, 0)]
    {
      ghost var before := Now();
      if Valid(before) { StepKeepsValid(before, EmitFirst); }
      emissions := emissions + [Emission(pump.id, pump.key, 0)];
      pump := Polling;
    }

    /** One turn of a retry task. */
    method Retry(id: nat)
      requires id < |tasks|
      modifies this
      ensures Now() == RunTask(old(Now()), id)
    {
      var t := tasks[id];
      match t.pc {
        case Sleeping =>
          if t.key in messages {
            var retry := t.retry + 1;
            tasks := tasks[id := Task(t.key, retry, if retry > MAX_RETRIES then Dropping else Emitting)];
          } else {
            tasks := tasks[id := t.(pc := Done)];
          }
        case Emitting =>
          emissions := emissions + [Emission(id, t.key, t.retry)];
          tasks := tasks[id := t.(pc := Sleeping)];
        case Dropping =>
          departures := departures + Leaving(messages, t.key, Dropped);
          messages := messages - {t.key};
          tasks := tasks[id := t.(pc := Done)];
        case Done =>
      }
    }

    method CompleteMsg(key: nat)
      modifies this
      ensures Now() == CompleteStep(old(Now()), key)
      ensures key !in messages && forall k :: k in messages <==> k != key && k in old(messages)
      ensures forall k :: k in messages ==> messages[k] == old(messages)[k]
    {
      departures := departures + Leaving(messages, key, Completed);
      messages := messages - {key};
    }

    /** ptr_to_dart: looking never removes. */
    method PtrToDart(key: nat) returns (body: Option<string>)
      ensures body.Some? <==> key in messages
      ensures body.Some? ==> body.value == messages[key].body
    {
      body := if key in messages then Some(messages[key].body) else None;
    }
  }
}
