/**
 Two-factor circle sessions (rust/src/api/api.rs, handle_circle and
 approve_circle).

 Every critical section is one atomic step. A run is any sequence of steps, so
 any interleaving of messages, approvals and spawned deliveries is covered.
 The session object itself is opaque: a step is told what it answers.
 */
module Circle {
  import opened Wrappers
  import opened Tally

  const MAX_SESSIONS := 5

  datatype CircleMessage = CircleMessage(step: nat, atxnid: string, body: string)

  /** An active session; uid is its place in the order of creation. */
  datatype Session = Session(uid: nat, atxnid: string, txnid: string, initMessage: Option<CircleMessage>, otp: nat)

  /** A delivery spawned by an approval; origin is the session the message was taken from. */
  datatype Task = Task(origin: nat, txnid: string, message: CircleMessage)

  /** What a session was made from. */
  datatype Birth = Birth(txnid: string, message: CircleMessage, otp: nat)

  /** Everything done with messages, in order. */
  datatype Record =
    | Wire(target: nat, message: CircleMessage)                          // handed over as it arrived
    | Approved(origin: nat, target: nat, message: CircleMessage)         // a stored message, delivered
    | Vanished(origin: nat)                                              // no session left to deliver to
    | Discarded(origin: nat)                                             // removed with its session, never approved

  datatype Broadcast = TwoFaAuth(success: bool) | CircleFinish

  datatype Account = NoServices | GsaFailed | SignedIn

  datatype Reply = Failed | Answered(success: bool)

  datatype ClientReply = ClientFailed | ClientLoggedIn | ClientContinues

  datatype State = State(
    client: bool,
    sessions: seq<Session>,
    tasks: seq<Task>,
    births: seq<Birth>,
    log: seq<Record>,
    broadcasts: seq<Broadcast>)

  const INIT := State(false, [], [], [], [], [])

  datatype Action =
    | StartClient
    | Handle(msg: CircleMessage, signin: Option<string>, account: Account, otp: nat, reply: Reply, clientReply: ClientReply)
    | Take(txnid: string)
    | Deliver(task: nat)

  // ---------------------------------------------------------------- the steps

  predicate Known(ss: seq<Session>, atxnid: string) {
    exists i :: 0 <= i < |ss| && ss[i].atxnid == atxnid
  }

  /** Position of the first session with a transaction id. */
  function FindTxn(ss: seq<Session>, txnid: string): (r: Option<nat>)
    ensures r.Some? ==> r.value < |ss| && ss[r.value].txnid == txnid && forall j :: 0 <= j < r.value ==> ss[j].txnid != txnid
    ensures r.None? ==> forall j :: 0 <= j < |ss| ==> ss[j].txnid != txnid
  {
    if ss == [] then None
    else if ss[0].txnid == txnid then Some(0)
    else
      match FindTxn(ss[1..], txnid)
      case None => None
      case Some(i) => Some(i + 1)
  }

  function FindAtxn(ss: seq<Session>, atxnid: string): (i: nat)
    requires Known(ss, atxnid)
    ensures i < |ss| && ss[i].atxnid == atxnid
  {
    if ss[0].atxnid == atxnid then 0 else
      assert Known(ss[1..], atxnid) by {
        var i :| 0 <= i < |ss| && ss[i].atxnid == atxnid;
        assert ss[1..][i - 1].atxnid == atxnid;
      }
      1 + FindAtxn(ss[1..], atxnid)
  }

  /** The sessions with (keep) or without an association id. */
  function Select(ss: seq<Session>, atxnid: string, keep: bool): seq<Session> {
    if ss == [] then []
    else if (ss[0].atxnid == atxnid) == keep then [ss[0]] + Select(ss[1..], atxnid, keep)
    else Select(ss[1..], atxnid, keep)
  }

  /** A removed session takes its unapproved message with it. */
  function Discards(ss: seq<Session>): seq<Record> {
    if ss == [] then []
    else if ss[0].initMessage.Some? then [Discarded(ss[0].uid)] + Discards(ss[1..])
    else Discards(ss[1..])
  }

  function HandleClient(st: State, reply: ClientReply): State {
    if !st.client || !reply.ClientLoggedIn? then st
    else st.(client := false, broadcasts := st.broadcasts + [CircleFinish])
  }

  function Admit(st: State, msg: CircleMessage, txnid: string, otp: nat): State {
    var grown := st.sessions + [Session(|st.births|, msg.atxnid, txnid, Some(msg), otp)];
    var births := st.births + [Birth(txnid, msg, otp)];
    if |grown| > MAX_SESSIONS
    then st.(sessions := grown[1..], births := births, log := st.log + Discards([grown[0]]))
    else st.(sessions := grown, births := births)
  }

  function Continue(st: State, msg: CircleMessage, reply: Reply): State
    requires Known(st.sessions, msg.atxnid)
  {
    var target := st.sessions[FindAtxn(st.sessions, msg.atxnid)].uid;
    var log := st.log + [Wire(target, msg)];
    var broadcasts := if reply.Answered? && msg.step == 3 then st.broadcasts + [TwoFaAuth(reply.success)] else st.broadcasts;
    if msg.step == 5
    then st.(sessions := Select(st.sessions, msg.atxnid, false),
             log := log + Discards(Select(st.sessions, msg.atxnid, true)), broadcasts := broadcasts)
    else st.(log := log, broadcasts := broadcasts)
  }

  function HandleServer(st: State, msg: CircleMessage, signin: Option<string>, account: Account, otp: nat,
                        reply: Reply): State {
    if Known(st.sessions, msg.atxnid) then Continue(st, msg, reply)
    else if msg.step != 1 || signin.None? || !account.SignedIn? then st
    else Admit(st, msg, signin.value, otp)
  }

  datatype Approval = AccountCode | InitMissing | Otp(otp: nat)

  /** The first critical section of an approval. */
  function TakeStep(st: State, txnid: string): (State, Approval) {
    match FindTxn(st.sessions, txnid)
    case None => (st, AccountCode)
    case Some(i) =>
      var item := st.sessions[i];
      match item.initMessage
      case None => (st, InitMissing)
      case Some(msg) =>
        (st.(sessions := st.sessions[i := item.(initMessage := None)],
             tasks := st.tasks + [Task(item.uid, txnid, msg)]), Otp(item.otp))
  }

  /** The second critical section, run by the spawned task. */
  function DeliverStep(st: State, t: nat): State
    requires t < |st.tasks|
  {
    var task := st.tasks[t];
    var record := match FindTxn(st.sessions, task.txnid)
                  case None => Vanished(task.origin)
                  case Some(i) => Approved(task.origin, st.sessions[i].uid, task.message);
    st.(tasks := st.tasks[..t] + st.tasks[t + 1..], log := st.log + [record])
  }

  /** One atomic step; a step that is not enabled changes nothing. */
  function Step(st: State, a: Action): State {
    match a
    case StartClient => st.(client := true)
    case Handle(msg, signin, account, otp, reply, clientReply) =>
      if msg.step % 2 == 0 then HandleClient(st, clientReply)
      else HandleServer(st, msg, signin, account, otp, reply)
    case Take(txnid) => TakeStep(st, txnid).0
    case Deliver(t) => if t < |st.tasks| then DeliverStep(st, t) else st
  }

  function Run(st: State, actions: seq<Action>): State
    decreases actions
  {
    if actions == [] then st else Run(Step(st, actions[0]), actions[1..])
  }

  // ---------------------------------------------------------------- the invariant

  function Held(s: Session): Option<nat> {
    if s.initMessage.Some? then Some(s.uid) else None
  }

  function InFlight(t: Task): Option<nat> {
    Some(t.origin)
  }

  /** The stored message a record disposes of. */
  function Settled(r: Record): Option<nat> {
    match r
    case Wire(_, _) => None
    case Approved(o, _, _) => Some(o)
    case Vanished(o) => Some(o)
    case Discarded(o) => Some(o)
  }

  /** Where every stored first message is now. */
  function Places(st: State): multiset<nat> {
    Tokens(st.sessions, Held) + Tokens(st.tasks, InFlight) + Tokens(st.log, Settled)
  }

  /** The list between lock holds: bounded, in creation order, association ids distinct. */
  predicate ListOk(ss: seq<Session>) {
    && |ss| <= MAX_SESSIONS
    && (forall i, j :: 0 <= i < j < |ss| ==> ss[i].uid < ss[j].uid)
    && (forall i, j :: 0 <= i < j < |ss| ==> ss[i].atxnid != ss[j].atxnid)
  }

  /** A session agrees with what it was made from. */
  predicate SessionOk(s: Session, births: seq<Birth>) {
    && s.uid < |births|
    && s.txnid == births[s.uid].txnid
    && s.atxnid == births[s.uid].message.atxnid
    && s.otp == births[s.uid].otp
    && (s.initMessage.Some? ==> s.initMessage.value == births[s.uid].message)
  }

  predicate TaskOk(t: Task, births: seq<Birth>) {
    t.origin < |births| && t.txnid == births[t.origin].txnid && t.message == births[t.origin].message
  }

  predicate RecordOk(r: Record, births: seq<Birth>) {
    match r
    case Wire(t, m) => t < |births| && births[t].message.atxnid == m.atxnid
    case Approved(o, t, m) =>
      o < |births| && t < |births| && births[o].txnid == births[t].txnid && m == births[o].message
    case Vanished(o) => o < |births|
    case Discarded(o) => o < |births|
  }

  predicate Live(st: State, uid: nat) {
    exists i :: 0 <= i < |st.sessions| && st.sessions[i].uid == uid
  }

  /** If the session a message was taken from is still listed, it is the first with its transaction id. */
  predicate FirstOfItsTxn(ss: seq<Session>, t: Task) {
    forall i, j :: 0 <= i < j < |ss| && ss[j].uid == t.origin ==> ss[i].txnid != t.txnid
  }

  predicate SessionsOk(ss: seq<Session>, births: seq<Birth>) {
    forall i :: 0 <= i < |ss| ==> SessionOk(ss[i], births)
  }

  predicate TasksOk(tasks: seq<Task>, ss: seq<Session>, births: seq<Birth>) {
    forall i :: 0 <= i < |tasks| ==> TaskOk(tasks[i], births) && FirstOfItsTxn(ss, tasks[i])
  }

  predicate LogOk(log: seq<Record>, births: seq<Birth>) {
    forall i :: 0 <= i < |log| ==> RecordOk(log[i], births)
  }

  predicate WellKept(st: State) {
    && ListOk(st.sessions)
    && SessionsOk(st.sessions, st.births)
    && TasksOk(st.tasks, st.sessions, st.births)
    && LogOk(st.log, st.births)
  }

  /** Every session's first message is in exactly one place. */
  predicate Conserved(st: State) {
    Places(st) == UpTo(|st.births|)
  }

  predicate Valid(st: State) {
    WellKept(st) && Conserved(st)
  }

  // ---------------------------------------------------------------- every step keeps it

  lemma {:induction false} SelectProperties(ss: seq<Session>, atxnid: string, keep: bool)
    ensures forall i :: 0 <= i < |Select(ss, atxnid, keep)| ==>
              Select(ss, atxnid, keep)[i] in ss && ((Select(ss, atxnid, keep)[i].atxnid == atxnid) == keep)
    ensures forall s :: s in ss && ((s.atxnid == atxnid) == keep) ==> s in Select(ss, atxnid, keep)
    ensures |Select(ss, atxnid, keep)| <= |ss|
  {
    if ss != [] { SelectProperties(ss[1..], atxnid, keep); }
  }

  /** A filtered list keeps its order: every pair of it is a pair of the list. */
  lemma {:induction false} SelectKeepsPairs(ss: seq<Session>, atxnid: string, keep: bool, i: nat,
                                            j: nat) returns (k: nat, l: nat)
    requires i < j < |Select(ss, atxnid, keep)|
    ensures k < l < |ss| && ss[k] == Select(ss, atxnid, keep)[i] && ss[l] == Select(ss, atxnid, keep)[j]
  {
    var rest := Select(ss[1..], atxnid, keep);
    if (ss[0].atxnid == atxnid) != keep {
      assert Select(ss, atxnid, keep) == rest;
      k, l := SelectKeepsPairs(ss[1..], atxnid, keep, i, j);
      k, l := k + 1, l + 1;
    } else if i > 0 {
      k, l := SelectKeepsPairs(ss[1..], atxnid, keep, i - 1, j - 1);
      k, l := k + 1, l + 1;
    } else {
      SelectProperties(ss[1..], atxnid, keep);
      var m :| 0 <= m < |ss[1..]| && ss[1..][m] == rest[j - 1];
      k, l := 0, m + 1;
    }
  }

  lemma {:induction false} SelectTokens(ss: seq<Session>, atxnid: string)
    ensures Tokens(ss, Held) == Tokens(Select(ss, atxnid, false), Held) + Tokens(Select(ss, atxnid, true), Held)
  {
    if ss != [] {
      SelectTokens(ss[1..], atxnid);
      var keep := ss[0].atxnid == atxnid;
      TokensConcat([ss[0]], Select(ss[1..], atxnid, keep), Held);
      TokensOne(ss[0], Held);
      assert Select(ss, atxnid, !keep) == Select(ss[1..], atxnid, !keep);
    }
  }

  lemma {:induction false} DiscardsTokens(ss: seq<Session>)
    ensures Tokens(Discards(ss), Settled) == Tokens(ss, Held)
  {
    if ss != [] {
      DiscardsTokens(ss[1..]);
      if ss[0].initMessage.Some? {
        TokensConcat([Discarded(ss[0].uid)], Discards(ss[1..]), Settled);
        TokensOne(Discarded(ss[0].uid), Settled);
      } else {
        assert Discards(ss) == Discards(ss[1..]);
      }
    }
  }

  lemma {:induction false} DiscardsOk(ss: seq<Session>, births: seq<Birth>)
    requires SessionsOk(ss, births)
    ensures LogOk(Discards(ss), births)
  {
    if ss != [] { DiscardsOk(ss[1..], births); }
  }

  /** Removing the first session and recording its discard moves its token from the list to the log. */
  lemma EvictKeepsTokens(ss: seq<Session>, log: seq<Record>, inFlight: multiset<nat>)
    requires ss != []
    ensures Tokens(ss[1..], Held) + inFlight + Tokens(log + Discards([ss[0]]), Settled)
            == Tokens(ss, Held) + inFlight + Tokens(log, Settled)
  {
    DiscardsTokens([ss[0]]);
    TokensOne(ss[0], Held);
    TokensConcat(log, Discards([ss[0]]), Settled);
    Transfer(Tokens(ss, Held), Tokens(ss[1..], Held), inFlight, Tokens(log, Settled),
             Tokens(log + Discards([ss[0]]), Settled), TokenOf(Held(ss[0])));
  }

  lemma AdmitKeepsPlaces(st: State, msg: CircleMessage, txnid: string, otp: nat)
    requires Conserved(st)
    ensures Conserved(Admit(st, msg, txnid, otp))
  {
    var s := Session(|st.births|, msg.atxnid, txnid, Some(msg), otp);
    var grown := st.sessions + [s];
    var inFlight, settled := Tokens(st.tasks, InFlight), Tokens(st.log, Settled);
    AppendedTokens(st.sessions, s, inFlight, settled);
    var st' := Admit(st, msg, txnid, otp);
    assert |st'.births| == s.uid + 1 && st'.tasks == st.tasks;
    if |grown| > MAX_SESSIONS {
      EvictKeepsTokens(grown, st.log, inFlight);
      assert st'.sessions == grown[1..] && st'.log == st.log + Discards([grown[0]]);
    } else {
      assert st'.sessions == grown && st'.log == st.log;
    }
  }

  lemma AppendedTokens(ss: seq<Session>, s: Session, inFlight: multiset<nat>, settled: multiset<nat>)
    requires Tokens(ss, Held) + inFlight + settled == UpTo(s.uid) && s.initMessage.Some?
    ensures Tokens(ss + [s], Held) + inFlight + settled == UpTo(s.uid + 1)
  {
    TokensAppend(ss, s, Held);
    Enter(Tokens(ss, Held), Tokens(ss + [s], Held), inFlight, settled, s.uid);
  }

  /** Everything recorded before a new birth still agrees with the births. */
  lemma MoreBirths(st: State, b: Birth)
    requires SessionsOk(st.sessions, st.births) && TasksOk(st.tasks, st.sessions, st.births) && LogOk(st.log, st.births)
    ensures SessionsOk(st.sessions, st.births + [b]) && TasksOk(st.tasks, st.sessions, st.births + [b])
    ensures LogOk(st.log, st.births + [b])
  {
    var births := st.births + [b];
    forall i | 0 <= i < |st.tasks| ensures TaskOk(st.tasks[i], births) && FirstOfItsTxn(st.sessions, st.tasks[i]) {
      assert TaskOk(st.tasks[i], st.births);
    }
    forall i | 0 <= i < |st.log| ensures RecordOk(st.log[i], births) {
      assert RecordOk(st.log[i], st.births);
    }
  }

  lemma GrownTasksOk(st: State, s: Session, from: nat)
    requires TasksOk(st.tasks, st.sessions, st.births) && s.uid == |st.births| && from <= |st.sessions|
    ensures forall i :: 0 <= i < |st.tasks| ==> FirstOfItsTxn((st.sessions + [s])[from..], st.tasks[i])
  {
    var grown := (st.sessions + [s])[from..];
    forall i | 0 <= i < |st.tasks| ensures FirstOfItsTxn(grown, st.tasks[i]) {
      assert TaskOk(st.tasks[i], st.births) && FirstOfItsTxn(st.sessions, st.tasks[i]);
      forall k, j | 0 <= k < j < |grown| && grown[j].uid == st.tasks[i].origin ensures grown[k].txnid != st.tasks[i].txnid {
        assert grown[k] == st.sessions[from + k] && grown[j] == st.sessions[from + j];
      }
    }
  }

  lemma AdmitKeepsShape(st: State, msg: CircleMessage, txnid: string, otp: nat)
    requires WellKept(st) && !Known(st.sessions, msg.atxnid)
    ensures WellKept(Admit(st, msg, txnid, otp))
  {
    var s := Session(|st.births|, msg.atxnid, txnid, Some(msg), otp);
    var b := Birth(txnid, msg, otp);
    var grown := st.sessions + [s];
    MoreBirths(st, b);
    assert SessionOk(s, st.births + [b]);
    assert SessionsOk(grown, st.births + [b]);
    forall i | 0 <= i < |st.sessions| ensures st.sessions[i].uid < s.uid && st.sessions[i].atxnid != s.atxnid {
      assert SessionOk(st.sessions[i], st.births);
    }
    GrownTasksOk(st, s, 0);
    assert grown[0..] == grown;
    if |grown| > MAX_SESSIONS {
      GrownTasksOk(st, s, 1);
      DiscardsOk([grown[0]], st.births + [b]);
    }
  }

  /** Removing the sessions with an id moves their tokens from the list to the log. */
  lemma FinishKeepsTokens(ss: seq<Session>, atxnid: string, log: seq<Record>, inFlight: multiset<nat>)
    ensures Tokens(Select(ss, atxnid, false), Held) + inFlight + Tokens(log + Discards(Select(ss, atxnid, true)), Settled)
            == Tokens(ss, Held) + inFlight + Tokens(log, Settled)
  {
    var kept, gone := Select(ss, atxnid, false), Select(ss, atxnid, true);
    SelectTokens(ss, atxnid);
    DiscardsTokens(gone);
    TokensConcat(log, Discards(gone), Settled);
    Transfer(Tokens(ss, Held), Tokens(kept, Held), inFlight, Tokens(log, Settled),
             Tokens(log + Discards(gone), Settled), Tokens(gone, Held));
  }

  lemma ContinueKeepsPlaces(st: State, msg: CircleMessage, reply: Reply)
    requires Known(st.sessions, msg.atxnid) && Conserved(st)
    ensures Conserved(Continue(st, msg, reply))
  {
    var r := Wire(st.sessions[FindAtxn(st.sessions, msg.atxnid)].uid, msg);
    TokensAppend(st.log, r, Settled);
    assert TokenOf(Settled(r)) == multiset{};
    if msg.step == 5 { FinishKeepsTokens(st.sessions, msg.atxnid, st.log + [r], Tokens(st.tasks, InFlight)); }
  }

  lemma SelectKeepsList(ss: seq<Session>, atxnid: string)
    requires ListOk(ss)
    ensures ListOk(Select(ss, atxnid, false))
  {
    var kept := Select(ss, atxnid, false);
    SelectProperties(ss, atxnid, false);
    forall i, j | 0 <= i < j < |kept| ensures kept[i].uid < kept[j].uid && kept[i].atxnid != kept[j].atxnid {
      var k, l := SelectKeepsPairs(ss, atxnid, false, i, j);
    }
  }

  lemma SelectKeepsFirst(ss: seq<Session>, atxnid: string, t: Task)
    requires FirstOfItsTxn(ss, t)
    ensures FirstOfItsTxn(Select(ss, atxnid, false), t)
  {
    var kept := Select(ss, atxnid, false);
    forall i, j | 0 <= i < j < |kept| && kept[j].uid == t.origin ensures kept[i].txnid != t.txnid {
      var k, l := SelectKeepsPairs(ss, atxnid, false, i, j);
    }
  }

  lemma ContinueKeepsShape(st: State, msg: CircleMessage, reply: Reply)
    requires WellKept(st) && Known(st.sessions, msg.atxnid)
    ensures WellKept(Continue(st, msg, reply))
  {
    var st' := Continue(st, msg, reply);
    var target := st.sessions[FindAtxn(st.sessions, msg.atxnid)];
    assert SessionOk(target, st.births);
    if msg.step == 5 {
      SelectKeepsList(st.sessions, msg.atxnid);
      SelectProperties(st.sessions, msg.atxnid, false);
      SelectProperties(st.sessions, msg.atxnid, true);
      DiscardsOk(Select(st.sessions, msg.atxnid, true), st.births);
      forall i | 0 <= i < |st.tasks| ensures FirstOfItsTxn(st'.sessions, st.tasks[i]) {
        SelectKeepsFirst(st.sessions, msg.atxnid, st.tasks[i]);
      }
    }
  }

  lemma TakeKeepsShape(st: State, txnid: string)
    requires WellKept(st)
    ensures WellKept(TakeStep(st, txnid).0)
  {
    var found := FindTxn(st.sessions, txnid);
    if found.Some? && st.sessions[found.value].initMessage.Some? {
      var item := st.sessions[found.value];
      assert SessionOk(item, st.births);
      TakenTaskIsFirst(st, found.value, Task(item.uid, txnid, item.initMessage.value));
    }
  }

  /** Taking a stored message moves its token from the list to the spawned task. */
  lemma TakeKeepsTokens(ss: seq<Session>, i: nat, tasks: seq<Task>, t: Task, settled: multiset<nat>)
    requires i < |ss| && ss[i].initMessage.Some? && t.origin == ss[i].uid
    ensures Tokens(ss[i := ss[i].(initMessage := None)], Held) + Tokens(tasks + [t], InFlight) + settled
            == Tokens(ss, Held) + Tokens(tasks, InFlight) + settled
  {
    var taken := ss[i].(initMessage := None);
    TokensReplace(ss, i, taken, Held);
    TokensAppend(tasks, t, InFlight);
    Transfer(Tokens(ss, Held), Tokens(ss[i := taken], Held), settled,
             Tokens(tasks, InFlight), Tokens(tasks + [t], InFlight), multiset{t.origin});
  }

  lemma TakeKeepsPlaces(st: State, txnid: string)
    requires Conserved(st)
    ensures Conserved(TakeStep(st, txnid).0)
  {
    var found := FindTxn(st.sessions, txnid);
    if found.Some? && st.sessions[found.value].initMessage.Some? {
      var item := st.sessions[found.value];
      TakeKeepsTokens(st.sessions, found.value, st.tasks, Task(item.uid, txnid, item.initMessage.value), Tokens(st.log, Settled));
    }
  }

  lemma TakenTaskIsFirst(st: State, i: nat, t: Task)
    requires ListOk(st.sessions) && TasksOk(st.tasks, st.sessions, st.births)
    requires FindTxn(st.sessions, t.txnid) == Some(i) && t.origin == st.sessions[i].uid && TaskOk(t, st.births)
    ensures TasksOk(st.tasks + [t], st.sessions[i := st.sessions[i].(initMessage := None)], st.births)
  {
    var after := st.sessions[i := st.sessions[i].(initMessage := None)];
    var tasks := st.tasks + [t];
    forall k | 0 <= k < |tasks| ensures TaskOk(tasks[k], st.births) && FirstOfItsTxn(after, tasks[k]) {
      if k < |st.tasks| {
        assert FirstOfItsTxn(st.sessions, st.tasks[k]);
        assert forall m :: 0 <= m < |after| ==> after[m].uid == st.sessions[m].uid && after[m].txnid == st.sessions[m].txnid;
      }
    }
  }

  lemma DeliverKeepsShape(st: State, t: nat)
    requires WellKept(st) && t < |st.tasks|
    ensures WellKept(DeliverStep(st, t))
  {
    var task := st.tasks[t];
    assert TaskOk(task, st.births);
    var found := FindTxn(st.sessions, task.txnid);
    if found.Some? { assert SessionOk(st.sessions[found.value], st.births); }
    assert RecordOk(DeliverStep(st, t).log[|st.log|], st.births);
    RemovedTaskOk(st, t);
  }

  lemma DeliverKeepsPlaces(st: State, t: nat)
    requires Conserved(st) && t < |st.tasks|
    ensures Conserved(DeliverStep(st, t))
  {
    var r := DeliverStep(st, t).log[|st.log|];
    var rest := st.tasks[..t] + st.tasks[t + 1..];
    TokensAppend(st.log, r, Settled);
    TokensRemove(st.tasks, t, InFlight);
    assert TokenOf(Settled(r)) == TokenOf(InFlight(st.tasks[t]));
    Transfer(Tokens(st.tasks, InFlight), Tokens(rest, InFlight), Tokens(st.sessions, Held),
             Tokens(st.log, Settled), Tokens(st.log + [r], Settled), TokenOf(Settled(r)));
  }

  lemma RemovedTaskOk(st: State, t: nat)
    requires TasksOk(st.tasks, st.sessions, st.births) && t < |st.tasks|
    ensures TasksOk(st.tasks[..t] + st.tasks[t + 1..], st.sessions, st.births)
  {
    var rest := st.tasks[..t] + st.tasks[t + 1..];
    forall k | 0 <= k < |rest| ensures TaskOk(rest[k], st.births) && FirstOfItsTxn(st.sessions, rest[k]) {
      assert rest[k] == st.tasks[if k < t then k else k + 1];
    }
  }

  lemma HandleServerKeepsValid(st: State, msg: CircleMessage, signin: Option<string>, account: Account, otp: nat,
                               reply: Reply)
    requires Valid(st)
    ensures Valid(HandleServer(st, msg, signin, account, otp, reply))
  {
    if Known(st.sessions, msg.atxnid) {
      ContinueKeepsShape(st, msg, reply);
      ContinueKeepsPlaces(st, msg, reply);
    } else if msg.step == 1 && signin.Some? && account.SignedIn? {
      AdmitKeepsShape(st, msg, signin.value, otp);
      AdmitKeepsPlaces(st, msg, signin.value, otp);
    }
  }

  lemma StepKeepsValid(st: State, a: Action)
    requires Valid(st)
    ensures Valid(Step(st, a))
  {
    hide HandleServer, TakeStep, DeliverStep, ListOk, SessionsOk, TasksOk, LogOk, Tokens;
    match a
    case StartClient =>
    case Handle(msg, signin, account, otp, reply, _) =>
      if msg.step % 2 != 0 { HandleServerKeepsValid(st, msg, signin, account, otp, reply); }
    case Take(txnid) =>
      TakeKeepsShape(st, txnid);
      TakeKeepsPlaces(st, txnid);
    case Deliver(t) =>
      if t < |st.tasks| {
        DeliverKeepsShape(st, t);
        DeliverKeepsPlaces(st, t);
      }
  }

  lemma {:induction false} RunKeepsValid(st: State, actions: seq<Action>)
    requires Valid(st)
    ensures Valid(Run(st, actions))
    decreases actions
  {
    if actions != [] {
      StepKeepsValid(st, actions[0]);
      RunKeepsValid(Step(st, actions[0]), actions[1..]);
    }
  }

  /** Between lock holds, in every reachable state. */
  lemma ReachableStatesAreValid(actions: seq<Action>)
    ensures Valid(Run(INIT, actions))
  {
    RunKeepsValid(INIT, actions);
  }

  // ---------------------------------------------------------------- what a run promises

  /** In every run each stored message is in exactly one place: still held, in flight, or settled once. */
  lemma StoredMessageIsSettledAtMostOnce(actions: seq<Action>, i: nat, j: nat)
    requires var log := Run(INIT, actions).log;
             i < j < |log| && Settled(log[i]).Some?
    ensures var log := Run(INIT, actions).log; Settled(log[i]) != Settled(log[j])
  {
    var st := Run(INIT, actions);
    ReachableStatesAreValid(actions);
    assert Settled(st.log[i]) == Settled(st.log[j]) ==> Places(st)[Settled(st.log[i]).value] >= 2 by {
      if Settled(st.log[i]) == Settled(st.log[j]) { TokenTwice(st.log, i, j, Settled); }
    }
  }

  /** A message once settled is neither still held nor in flight, and conversely nothing is ever lost. */
  lemma NoStoredMessageIsLost(actions: seq<Action>, uid: nat)
    requires uid < |Run(INIT, actions).births|
    ensures var st := Run(INIT, actions);
            Tokens(st.sessions, Held)[uid] + Tokens(st.tasks, InFlight)[uid] + Tokens(st.log, Settled)[uid] == 1
  {
    ReachableStatesAreValid(actions);
    var st := Run(INIT, actions);
    assert Places(st)[uid] == 1;
  }

  predicate DistinctTxns(births: seq<Birth>) {
    forall i, j :: 0 <= i < j < |births| ==> births[i].txnid != births[j].txnid
  }

  /** With transaction ids distinct across the run, a stored message reaches only the session it was taken from. */
  lemma DeliveredToItsOwnSession(actions: seq<Action>, i: nat)
    requires var st := Run(INIT, actions);
             DistinctTxns(st.births) && i < |st.log| && st.log[i].Approved?
    ensures var r := Run(INIT, actions).log[i];
            && r.origin == r.target < |Run(INIT, actions).births|
            && r.message == Run(INIT, actions).births[r.origin].message
  {
    ReachableStatesAreValid(actions);
    var st := Run(INIT, actions);
    var r := st.log[i];
    assert RecordOk(r, st.births);
    SameTxnSameBirth(st.births, r.origin, r.target);
  }

  lemma SameTxnSameBirth(births: seq<Birth>, a: nat, b: nat)
    requires DistinctTxns(births) && a < |births| && b < |births| && births[a].txnid == births[b].txnid
    ensures a == b
  {
  }

  /**
   Without that assumption: the spawned delivery reaches the session it came from exactly
   when that session is still listed; otherwise it goes to the first other session with
   the same transaction id, and to none exactly when there is no such session.
   */
  lemma DeliveryTarget(st: State, t: nat)
    requires Valid(st) && t < |st.tasks|
    ensures var task, r := st.tasks[t], DeliverStep(st, t).log[|st.log|];
            && (r == Approved(task.origin, task.origin, task.message) <==> Live(st, task.origin))
            && (r == Vanished(task.origin) <==> FindTxn(st.sessions, task.txnid).None?)
            && (r.Approved? && r.target != task.origin ==>
                  && !Live(st, task.origin)
                  && exists i :: 0 <= i < |st.sessions| && st.sessions[i].uid == r.target && st.sessions[i].txnid == task.txnid)
  {
    var task := st.tasks[t];
    assert TaskOk(task, st.births) && FirstOfItsTxn(st.sessions, task);
    var found := FindTxn(st.sessions, task.txnid);
    if Live(st, task.origin) {
      var j :| 0 <= j < |st.sessions| && st.sessions[j].uid == task.origin;
      assert SessionOk(st.sessions[j], st.births);
      assert found == Some(j);
    }
  }

  /** The run that shows the assumption is needed. */
  function SharedTxnRun(): seq<Action> {
    var signin, m1, m2 := Some("t"), CircleMessage(1, "a", "first"), CircleMessage(1, "b", "second");
    [Handle(m1, signin, SignedIn, 0, Failed, ClientFailed), Take("t"),
     Handle(m2, signin, SignedIn, 1, Failed, ClientFailed),
     Handle(CircleMessage(5, "a", ""), signin, SignedIn, 0, Failed, ClientFailed), Deliver(0)]
  }

  lemma SharedTxnMisdelivers()
    ensures var log := Run(INIT, SharedTxnRun()).log;
            |log| == 2 && log[1] == Approved(0, 1, CircleMessage(1, "a", "first"))
  {
    var acts := SharedTxnRun();
    var m1, m2 := CircleMessage(1, "a", "first"), CircleMessage(1, "b", "second");
    var sa, sb := Session(0, "a", "t", Some(m1), 0), Session(1, "b", "t", Some(m2), 1);
    var births := [Birth("t", m1, 0), Birth("t", m2, 1)];
    var s1 := Step(INIT, acts[0]);
    assert s1 == State(false, [sa], [], [Birth("t", m1, 0)], [], []);
    var s2 := Step(s1, acts[1]);
    var ta := Task(0, "t", m1);
    assert s2 == State(false, [sa.(initMessage := None)], [ta], [Birth("t", m1, 0)], [], []);
    var s3 := Step(s2, acts[2]);
    var both := [sa.(initMessage := None), sb];
    assert s3 == State(false, both, [ta], births, [], []);
    var m5 := CircleMessage(5, "a", "");
    assert both[0].atxnid == "a" && both[1..] == [sb];
    assert Known(both, "a") && FindAtxn(both, "a") == 0;
    assert Select([sb], "a", false) == [sb] + Select([sb][1..], "a", false) == [sb];
    assert Select(both, "a", false) == [sb];
    assert Select([sb], "a", true) == [];
    assert Select(both, "a", true) == [both[0]];
    assert Discards([both[0]]) == [];
    var s4 := Step(s3, acts[3]);
    assert s4 == State(false, [sb], [ta], births, [Wire(0, m5)], []);
    var s5 := Step(s4, acts[4]);
    assert s5.log == [Wire(0, m5), Approved(0, 1, m1)];
    RunFive(acts);
  }

  lemma RunFive(acts: seq<Action>)
    requires |acts| == 5
    ensures Run(INIT, acts) == Step(Step(Step(Step(Step(INIT, acts[0]), acts[1]), acts[2]), acts[3]), acts[4])
  {
    var s1 := Step(INIT, acts[0]);
    var s2 := Step(s1, acts[1]);
    var s3 := Step(s2, acts[2]);
    var s4 := Step(s3, acts[3]);
    var s5 := Step(s4, acts[4]);
    assert acts[1..][0] == acts[1] && acts[1..][1..] == acts[2..];
    assert acts[2..][0] == acts[2] && acts[2..][1..] == acts[3..];
    assert acts[3..][0] == acts[3] && acts[3..][1..] == acts[4..];
    assert acts[4..][0] == acts[4] && acts[4..][1..] == [];
    assert Run(s4, acts[4..]) == Run(s5, []) == s5;
    assert Run(s3, acts[3..]) == Run(s4, acts[4..]);
    assert Run(s2, acts[2..]) == Run(s3, acts[3..]);
    assert Run(s1, acts[1..]) == Run(s2, acts[2..]);
  }

  /** An odd message for a listed session; at most one is listed. */
  predicate IsFor(st: State, msg: CircleMessage, i: nat) {
    i < |st.sessions| && st.sessions[i].atxnid == msg.atxnid
  }

  /** From a position on the log holds only what removed sessions took along. */
  predicate OnlyDiscards(log: seq<Record>, from: nat) {
    forall k :: from <= k < |log| ==> log[k].Discarded?
  }

  lemma {:induction false} DiscardsAreDiscards(ss: seq<Session>)
    ensures OnlyDiscards(Discards(ss), 0)
  {
    if ss != [] { DiscardsAreDiscards(ss[1..]); }
  }

  lemma OnlyDiscardsAppended(log: seq<Record>, more: seq<Record>)
    requires OnlyDiscards(more, 0)
    ensures OnlyDiscards(log + more, |log|)
  {
    forall k | |log| <= k < |log + more| ensures (log + more)[k].Discarded? {
      assert (log + more)[k] == more[k - |log|];
    }
  }

  /**
   Every odd message for a listed session, whatever its step and the answer, is handed to that session
   and to no other: the log gains its Wire record, and beside that only discards.
   */
  lemma ListedSessionGetsTheMessage(st: State, a: Action, i: nat)
    requires Valid(st) && a.Handle? && a.msg.step % 2 == 1 && IsFor(st, a.msg, i)
    ensures var log := Step(st, a).log;
            && st.log + [Wire(st.sessions[i].uid, a.msg)] <= log
            && OnlyDiscards(log, |st.log| + 1)
            && Step(st, a).births == st.births
  {
    assert Known(st.sessions, a.msg.atxnid);
    var f := FindAtxn(st.sessions, a.msg.atxnid);
    assert ListOk(st.sessions) && f == i;
    var wired := st.log + [Wire(st.sessions[i].uid, a.msg)];
    var gone := Select(st.sessions, a.msg.atxnid, true);
    DiscardsAreDiscards(gone);
    OnlyDiscardsAppended(wired, Discards(gone));
  }

  /**
   Otherwise nobody gets it. A first message with a signed-in account becomes a session, last in the
   list, with this very message and code; anything else changes nothing.
   */
  lemma UnlistedMessageIsAdmittedOrIgnored(st: State, a: Action)
    requires a.Handle? && a.msg.step % 2 == 1 && !exists i: nat :: IsFor(st, a.msg, i)
    ensures var st' := Step(st, a);
            if a.msg.step == 1 && a.signin.Some? && a.account == SignedIn then
              && st'.births == st.births + [Birth(a.signin.value, a.msg, a.otp)]
              && st'.sessions != []
              && st'.sessions[|st'.sessions| - 1] == Session(|st.births|, a.msg.atxnid, a.signin.value, Some(a.msg), a.otp)
              && st.log <= st'.log && OnlyDiscards(st'.log, |st.log|)
              && st'.broadcasts == st.broadcasts && st'.client == st.client && st'.tasks == st.tasks
            else st' == st
  {
    assert forall i :: 0 <= i < |st.sessions| && st.sessions[i].atxnid == a.msg.atxnid ==> IsFor(st, a.msg, i);
    if a.msg.step == 1 && a.signin.Some? && a.account == SignedIn {
      var grown := st.sessions + [Session(|st.births|, a.msg.atxnid, a.signin.value, Some(a.msg), a.otp)];
      DiscardsAreDiscards([grown[0]]);
      OnlyDiscardsAppended(st.log, Discards([grown[0]]));
    }
  }

  /** The sign-in is announced exactly for the answer of a listed session to a message of step 3. */
  lemma AnnouncedExactly(st: State, a: Action)
    requires a.Handle? && a.msg.step % 2 == 1
    ensures Step(st, a).broadcasts == st.broadcasts
            + if (exists i: nat :: IsFor(st, a.msg, i)) && a.msg.step == 3 && a.reply.Answered?
              then [TwoFaAuth(a.reply.success)]
              else []
  {
    assert forall i: nat :: IsFor(st, a.msg, i) ==> Known(st.sessions, a.msg.atxnid);
    if Known(st.sessions, a.msg.atxnid) {
      var i :| 0 <= i < |st.sessions| && st.sessions[i].atxnid == a.msg.atxnid;
      assert IsFor(st, a.msg, i);
    }
  }

  /** Odd messages in one statement: who gets them, what else the log gains, and what is announced. */
  lemma OddMessageExactly(st: State, a: Action)
    requires Valid(st) && a.Handle? && a.msg.step % 2 == 1
    ensures var st' := Step(st, a);
            && (forall i: nat :: IsFor(st, a.msg, i) ==>
                  && i < |st.sessions| && st.log + [Wire(st.sessions[i].uid, a.msg)] <= st'.log
                  && OnlyDiscards(st'.log, |st.log| + 1))
            && ((forall i: nat :: !IsFor(st, a.msg, i)) ==> st.log <= st'.log && OnlyDiscards(st'.log, |st.log|))
            && st'.broadcasts == st.broadcasts
               + if (exists i: nat :: IsFor(st, a.msg, i)) && a.msg.step == 3 && a.reply.Answered?
                 then [TwoFaAuth(a.reply.success)]
                 else []
  {
    hide Valid, Step;
    AnnouncedExactly(st, a);
    if exists i: nat :: IsFor(st, a.msg, i) {
      forall i: nat | IsFor(st, a.msg, i)
        ensures st.log + [Wire(st.sessions[i].uid, a.msg)] <= Step(st, a).log && OnlyDiscards(Step(st, a).log, |st.log| + 1)
      {
        ListedSessionGetsTheMessage(st, a, i);
      }
    } else {
      UnlistedMessageIsAdmittedOrIgnored(st, a);
    }
  }

  /** Even messages concern only our own client session, which ends, announced, exactly when it is logged in. */
  lemma ClientFinishesExactly(st: State, a: Action)
    requires a.Handle? && a.msg.step % 2 == 0
    ensures Step(st, a) == st.(client := Step(st, a).client, broadcasts := Step(st, a).broadcasts)
    ensures st.client && !Step(st, a).client <==> st.client && a.clientReply == ClientLoggedIn
    ensures !st.client ==> !Step(st, a).client
    ensures Step(st, a).broadcasts
            == st.broadcasts + if st.client && a.clientReply == ClientLoggedIn then [CircleFinish] else []
  {
  }

  /**
   What an approval answers: the account's own code if no session has the transaction id, an error if the
   first one with it has no message left, and otherwise the code that session was made with, its first
   message going out with a new delivery.
   */
  lemma ApprovalAnswersExactly(st: State, txnid: string)
    requires Valid(st)
    ensures var (st', answer) := TakeStep(st, txnid);
            && (answer == AccountCode <==> forall s :: s in st.sessions ==> s.txnid != txnid)
            && (!answer.Otp? ==> st' == st)
            && forall i :: 0 <= i < |st.sessions| && st.sessions[i].txnid == txnid
                           && (forall j :: 0 <= j < i ==> st.sessions[j].txnid != txnid) ==>
                 var uid := st.sessions[i].uid;
                 && (answer == InitMissing <==> st.sessions[i].initMessage.None?)
                 && (st.sessions[i].initMessage.Some? ==>
                       && answer == Otp(st.births[uid].otp)
                       && st'.tasks == st.tasks + [Task(uid, txnid, st.births[uid].message)]
                       && st'.sessions == st.sessions[i := st.sessions[i].(initMessage := None)]
                       && st'.births == st.births && st'.log == st.log && st'.broadcasts == st.broadcasts)
  {
    forall i | 0 <= i < |st.sessions| && st.sessions[i].txnid == txnid
               && (forall j :: 0 <= j < i ==> st.sessions[j].txnid != txnid)
      ensures FindTxn(st.sessions, txnid) == Some(i) && SessionOk(st.sessions[i], st.births)
    {
      FindTxnUnique(st.sessions, txnid, i);
    }
    assert FindTxn(st.sessions, txnid).Some? ==> st.sessions[FindTxn(st.sessions, txnid).value] in st.sessions;
  }

  /** Whatever leaves the list when a session is admitted is older than everything kept; nothing leaves a short list. */
  lemma EvictedIsOldest(st: State, msg: CircleMessage, txnid: string, otp: nat)
    requires Valid(st)
    ensures var st' := Admit(st, msg, txnid, otp);
            forall i :: 0 <= i < |st.sessions| ==>
              || Live(st', st.sessions[i].uid)
              || (|st.sessions| == 5
                  && forall j :: 0 <= j < |st'.sessions| ==> st.sessions[i].uid < st'.sessions[j].uid)
  {
    hide SessionOk;
    var grown := st.sessions + [Session(|st.births|, msg.atxnid, txnid, Some(msg), otp)];
    GrownInOrder(st, grown[|st.sessions|]);
    if |grown| > MAX_SESSIONS {
      assert Admit(st, msg, txnid, otp).sessions == grown[1..];
      DroppedFirst(Admit(st, msg, txnid, otp), grown);
      assert forall i :: 0 <= i < |st.sessions| ==> st.sessions[i] == grown[i];
    } else {
      assert Admit(st, msg, txnid, otp).sessions == grown;
      forall i | 0 <= i < |st.sessions| ensures Live(Admit(st, msg, txnid, otp), st.sessions[i].uid) {
        assert grown[i].uid == st.sessions[i].uid;
      }
    }
  }

  lemma GrownInOrder(st: State, s: Session)
    requires Valid(st) && s.uid == |st.births|
    ensures forall i, j :: 0 <= i < j < |st.sessions + [s]| ==> (st.sessions + [s])[i].uid < (st.sessions + [s])[j].uid
  {
    assert forall i :: 0 <= i < |st.sessions| ==> SessionOk(st.sessions[i], st.births);
  }

  lemma DroppedFirst(st: State, grown: seq<Session>)
    requires grown != [] && st.sessions == grown[1..]
    requires forall i, j :: 0 <= i < j < |grown| ==> grown[i].uid < grown[j].uid
    ensures forall j :: 0 <= j < |st.sessions| ==> grown[0].uid < st.sessions[j].uid
    ensures forall i :: 0 < i < |grown| ==> Live(st, grown[i].uid)
  {
    forall i | 0 < i < |grown| ensures Live(st, grown[i].uid) {
      assert st.sessions[i - 1].uid == grown[i].uid;
    }
  }

  /** A middle message for no session is ignored; a final one leaves no session with its id and touches no other. */
  lemma UnknownAndFinalMessages(st: State, msg: CircleMessage, signin: Option<string>, account: Account, otp: nat,
                                reply: Reply)
    ensures !Known(st.sessions, msg.atxnid) && msg.step != 1 ==> HandleServer(st, msg, signin, account, otp, reply) == st
    ensures msg.step == 5 ==> !Known(HandleServer(st, msg, signin, account, otp, reply).sessions, msg.atxnid)
    ensures msg.step == 5 ==>
              forall s :: s in HandleServer(st, msg, signin, account, otp, reply).sessions <==>
                          s in st.sessions && s.atxnid != msg.atxnid
  {
    SelectProperties(st.sessions, msg.atxnid, false);
    assert forall s :: s in st.sessions && s.atxnid == msg.atxnid ==> Known(st.sessions, msg.atxnid);
  }

  /** An approval answers with a session's code at most once: the next one finds the message missing. */
  lemma SecondApprovalFails(st: State, txnid: string)
    requires TakeStep(st, txnid).1.Otp?
    ensures TakeStep(TakeStep(st, txnid).0, txnid) == (TakeStep(st, txnid).0, InitMissing)
  {
    var st' := TakeStep(st, txnid).0;
    var i := FindTxn(st.sessions, txnid).value;
    assert forall j :: 0 <= j < |st.sessions| ==> st'.sessions[j].txnid == st.sessions[j].txnid;
    FindTxnUnique(st'.sessions, txnid, i);
  }

  lemma FindTxnUnique(ss: seq<Session>, txnid: string, i: nat)
    requires i < |ss| && ss[i].txnid == txnid && forall j :: 0 <= j < i ==> ss[j].txnid != txnid
    ensures FindTxn(ss, txnid) == Some(i)
  {
    assert FindTxn(ss, txnid).Some?;
  }

  // ---------------------------------------------------------------- the shared list itself

  /**
   The shared state; each method body is one critical section of the source.
   births and log are the history: the source keeps no record of them.
   */
  class CircleSessions {
    var client: bool
    var sessions: seq<Session>
    var tasks: seq<Task>
    var broadcasts: seq<Broadcast>
    var births: seq<Birth>
    var log: seq<Record>

    ghost function Now(): State
      reads this
    {
      State(client, sessions, tasks, births, log, broadcasts)
    }

    constructor ()
      ensures Now() == INIT
    {
      client, sessions, tasks, broadcasts := false, [], [], [];
      births, log := [], [];
    }

    method HandleCircle(msg: CircleMessage, signin: Option<string>, account: Account, otp: nat, reply: Reply,
                        clientReply: ClientReply)
      modifies this
      ensures Now() == Step(old(Now()), Handle(msg, signin, account, otp, reply, clientReply))
    {
      hide Discards, Select;
      if msg.step % 2 == 0 {
        if !client { return; }
        match clientReply {
          case ClientLoggedIn =>
            client := false;
            broadcasts := broadcasts + [CircleFinish];
          case _ =>
        }
        return;
      }
      if !(exists i :: 0 <= i < |sessions| && sessions[i].atxnid == msg.atxnid) {
        if msg.step != 1 { return; }
        if signin.None? { return; }
        if account != SignedIn { return; }
        var uid := |births|;
        births := births + [Birth(signin.value, msg, otp)];
        sessions := sessions + [Session(uid, msg.atxnid, signin.value, Some(msg), otp)];
        if |sessions| > MAX_SESSIONS {
          log := log + Discards([sessions[0]]);
          sessions := sessions[1..];
        }
        return;
      }
      log := log + [Wire(sessions[FindAtxn(sessions, msg.atxnid)].uid, msg)];
      match reply {
        case Failed =>
        case Answered(success) =>
          if msg.step == 3 { broadcasts := broadcasts + [TwoFaAuth(success)]; }
      }
      if msg.step == 5 {
        log := log + Discards(Select(sessions, msg.atxnid, true));
        sessions := Select(sessions, msg.atxnid, false);
      }
    }

    /** The part of approve_circle before the lock is dropped and the delivery spawned. */
    method ApproveCircle(txnid: string) returns (answer: Approval)
      modifies this
      ensures (Now(), answer) == TakeStep(old(Now()), txnid)
    {
      var found := FindTxn(sessions, txnid);
      if found.None? { return AccountCode; }
      var item := sessions[found.value];
      if item.initMessage.None? { return InitMissing; }
      sessions := sessions[found.value := item.(initMessage := None)];
      tasks := tasks + [Task(item.uid, txnid, item.initMessage.value)];
      return Otp(item.otp);
    }

    /** The body of a spawned task. */
    method RunSpawned(t: nat)
      requires t < |tasks|
      modifies this
      ensures Now() == DeliverStep(old(Now()), t)
      ensures var st, task := old(Now()), old(tasks[t]);
              Valid(st) ==>
                && (log == st.log + [Approved(task.origin, task.origin, task.message)] <==> Live(st, task.origin))
                && (log == st.log + [Vanished(task.origin)] <==> FindTxn(st.sessions, task.txnid).None?)
    {
      ghost var before := Now();
      if Valid(before) { DeliveryTarget(before, t); }
      var task := tasks[t];
      tasks := tasks[..t] + tasks[t + 1..];
      var found := FindTxn(sessions, task.txnid);
      if found.None? {
        log := log + [Vanished(task.origin)];
        return;
      }
      log := log + [Approved(task.origin, sessions[found.value].uid, task.message)];
    }
  }
}
