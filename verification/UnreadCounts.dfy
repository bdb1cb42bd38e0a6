/**
 The cached unread_count against the rows it summarises, over whole runs
 (rust/src/storage.rs, insert_message and mark_chat_read).
 */
module UnreadCounts {
  import opened Wrappers
  import opened ChatGuids
  import opened Tables
  import opened Receive
  import opened Runs
  import Sends

  function UnreadRows(db: Db, chat: string): set<string> {
    set g | g in db.messages && IsUnread(db.messages[g], chat)
  }

  /** By how much the cached count exceeds the rows. */
  function Gap(db: Db, chat: string): int {
    UnreadOf(db, chat) - |UnreadRows(db, chat)|
  }

  // ---------------------------------------------------------------- what a statement does to count and rows

  predicate KeepsMail(db: Db, db': Db, chat: string) {
    UnreadOf(db', chat) == UnreadOf(db, chat) && UnreadRows(db', chat) == UnreadRows(db, chat)
  }

  /** A row m came in under guid. */
  predicate TakesIn(db: Db, db': Db, guid: string, m: Message, chat: string) {
    && UnreadOf(db', chat) == UnreadOf(db, chat) + (if m.chat == chat && !m.isFromMe then 1 else 0)
    && UnreadRows(db', chat) == UnreadRows(db, chat) - {guid} + (if IsUnread(m, chat) then {guid} else {})
  }

  /** What the arrival adds to the count and not to the rows: an unread row it replaces, and itself if it comes in read. */
  function Drift(db: Db, guid: string, m: Message, chat: string): nat {
    (if guid in UnreadRows(db, chat) then 1 else 0) + if m.chat == chat && !m.isFromMe && m.dateRead != 0 then 1 else 0
  }

  lemma ArrivalDrifts(db: Db, db': Db, guid: string, m: Message, chat: string)
    requires TakesIn(db, db', guid, m, chat)
    ensures Gap(db', chat) == Gap(db, chat) + Drift(db, guid, m, chat)
  {
    var rows := UnreadRows(db, chat);
    var rest := rows - {guid};
    assert if guid in rows then |rest| == |rows| - 1 else rest == rows;
    if IsUnread(m, chat) { assert |rest + {guid}| == |rest| + 1; } else { assert rest + {} == rest; }
  }

  lemma InsertMessageTakesIn(db: Db, guid: string, m: Message, chat: string)
    requires MessageFits(db, m)
    ensures TakesIn(db, InsertMessage(db, guid, m), guid, m, chat)
  {
    hide DeleteMessage, ReactionsWithout, InsertMessage;
    InsertMessageRows(db, guid, m);
  }

  /** Until the last statement the row is in and not counted. */
  lemma CutInsertCounts(db: Db, guid: string, m: Message, n: nat, chat: string)
    requires MessageFits(db, m) && 0 < n < 3
    ensures InsertMessageCut(db, guid, m, n).messages == InsertMessage(db, guid, m).messages
    ensures UnreadOf(InsertMessageCut(db, guid, m, n), chat) == UnreadOf(db, chat)
  {
    hide ReactionsWithout;
  }

  /** Cut off before its last statement, the insertion of a received row leaves the count one short. */
  lemma CutInsertGap(db: Db, guid: string, m: Message, n: nat, chat: string)
    requires MessageFits(db, m) && n > 0
    ensures Gap(InsertMessageCut(db, guid, m, n), chat)
            == Gap(db, chat) + Drift(db, guid, m, chat) - if n < 3 && m.chat == chat && !m.isFromMe then 1 else 0
  {
    hide InsertMessage, UnreadOf, Drift, IsUnread, DeleteMessage;
    var whole := InsertMessage(db, guid, m);
    InsertMessageTakesIn(db, guid, m, chat);
    ArrivalDrifts(db, whole, guid, m, chat);
    if n < 3 {
      CutInsertCounts(db, guid, m, n, chat);
      assert UnreadRows(InsertMessageCut(db, guid, m, n), chat) == UnreadRows(whole, chat);
    }
  }

  lemma InsertAttachmentKeepsMail(db: Db, guid: string, a: Attachment, chat: string)
    ensures KeepsMail(db, InsertAttachment(db, guid, a), chat)
  {
  }

  lemma TextUpdatesKeepMail(db: Db, guid: string, text: string, now: int, chat: string)
    ensures KeepsMail(db, EditMessage(db, guid, text, now), chat)
    ensures KeepsMail(db, UnsendMessage(db, guid), chat)
  {
  }

  lemma MarkReadClears(db: Db, read: string, now: int, chat: string)
    ensures chat != read ==> KeepsMail(db, MarkRead(db, read, now), chat)
    ensures Gap(MarkRead(db, read, now), read) == if now != 0 then 0 else -|UnreadRows(db, read)|
  {
    var db' := MarkRead(db, read, now);
    if now != 0 {
      assert UnreadRows(db', read) == {};
    } else {
      assert UnreadRows(db', read) == UnreadRows(db, read);
    }
    if chat != read { assert UnreadRows(db', chat) == UnreadRows(db, chat); }
  }

  // ---------------------------------------------------------------- receiving and sending

  /** The row an action brings in, if any: its guid and the row as it arrives. */
  function Arrival(lower: string -> string, db: Db, a: Action): Option<(string, Message)> {
    match a
    case Receiving(inst, now, calls) =>
      if inst.conversation.Some? && StoreMessage(lower, db, inst, now, calls).result == Ok
      then Some((inst.id, RowOf(inst, ChatGuidFor(lower, inst.conversation.value.participants, !inst.isSms), None)))
      else None
    case Sending(guid, chat, text, now) => if chat in db.chats then Some((guid, Sends.LocalRow(chat, text, now, false))) else None
    case Attaching(guid, chat, text, now, _, _) =>
      if chat in db.chats then Some((guid, Sends.LocalRow(chat, text, now, true))) else None
    case Inserting(guid, m) => if MessageFits(db, m) then Some((guid, m)) else None
    case _ => None
  }

  predicate Moves(db: Db, db': Db, arrival: Option<(string, Message)>, chat: string) {
    match arrival
    case None => KeepsMail(db, db', chat)
    case Some((guid, m)) => TakesIn(db, db', guid, m, chat)
  }

  lemma RowTakenIn(db: Db, db': Db, inst: Incoming, guid: string, chat: string)
    requires TakesRow(db, db', inst, guid)
    ensures TakesIn(db, db', inst.id, RowOf(inst, guid, None), chat)
  {
    hide UnreadOf;
  }

  lemma ReceivingMoves(lower: string -> string, db: Db, a: Action, chat: string)
    requires a.Receiving?
    ensures Moves(db, Step(lower, db, a), Arrival(lower, db, a), chat)
  {
    hide StoreIn, ChatGuidFor, KeepsAnonymous, TakesRow, TakesIn;
    var r := StoreMessage(lower, db, a.inst, a.now, a.calls);
    StoreDelivers(lower, db, a.inst, a.now, a.calls);
    if r.result == Ok { RowTakenIn(db, r.db, a.inst, OwnChat(lower, a.inst), chat); }
  }

  lemma SendingMoves(lower: string -> string, db: Db, a: Action, chat: string)
    requires a.Sending? || a.Attaching?
    ensures Moves(db, Step(lower, db, a), Arrival(lower, db, a), chat)
  {
    hide InsertMessage, InsertAttachment, UnreadRows, UnreadOf;
    if a.chat in db.chats {
      var row := Sends.LocalRow(a.chat, a.text, a.now, a.Attaching?);
      InsertMessageTakesIn(db, a.guid, row, chat);
      if a.Attaching? {
        var hung := a.file.(message := a.guid, transferState := 0);
        InsertAttachmentKeepsMail(InsertMessage(db, a.guid, row), a.attachment, hung, chat);
      }
    }
  }

  lemma StepMoves(lower: string -> string, db: Db, a: Action, chat: string)
    requires !(a.Reading? && a.chat == chat)
    ensures Moves(db, Step(lower, db, a), Arrival(lower, db, a), chat)
  {
    hide StoreMessage, Sends.SendMessage, Sends.AttachFile, InsertMessage, InsertAttachment, MarkRead, EditMessage, UnsendMessage;
    match a
    case Receiving(_, _, _) => ReceivingMoves(lower, db, a, chat);
    case Sending(_, _, _, _) => SendingMoves(lower, db, a, chat);
    case Attaching(_, _, _, _, _, _) => SendingMoves(lower, db, a, chat);
    case Reading(read, now) => MarkReadClears(db, read, now, chat);
    case Editing(guid, text, now) => TextUpdatesKeepMail(db, guid, text, now, chat);
    case Unsending(guid) => TextUpdatesKeepMail(db, guid, "", 0, chat);
    case Inserting(guid, m) =>
      if MessageFits(db, m) { InsertMessageTakesIn(db, guid, m, chat); } else { RejectedInsert(db, guid, m); }
    case Hanging(guid, at) => InsertAttachmentKeepsMail(db, guid, at, chat);
    case _ =>
  }

  lemma RejectedInsert(db: Db, guid: string, m: Message)
    requires !MessageFits(db, m)
    ensures InsertMessage(db, guid, m) == db
  {
  }

  // ---------------------------------------------------------------- over whole runs

  /** The last action of a run reads the chat. */
  predicate JustRead(actions: seq<Action>, chat: string) {
    actions != [] && actions[|actions| - 1].Reading? && actions[|actions| - 1].chat == chat
  }

  /** What the last action of a run adds to the gap, if it does not read the chat. */
  function LastDrift(lower: string -> string, actions: seq<Action>, chat: string): nat
    requires actions != []
  {
    var db := Run(lower, actions[..|actions| - 1]);
    match Arrival(lower, db, actions[|actions| - 1])
    case None => 0
    case Some((guid, m)) => Drift(db, guid, m, chat)
  }

  /** The drift gathered since the chat was last read; a read at clock zero clears the count but no row. */
  function Excess(lower: string -> string, actions: seq<Action>, chat: string): int {
    if actions == [] then 0
    else
      var before, last := actions[..|actions| - 1], actions[|actions| - 1];
      if !JustRead(actions, chat) then Excess(lower, before, chat) + LastDrift(lower, actions, chat)
      else if last.now != 0 then 0
      else -|UnreadRows(Run(lower, before), chat)|
  }

  /** In every run the cached count is the unread rows plus the gathered drift. */
  lemma {:induction false} UnreadCountExactly(lower: string -> string, actions: seq<Action>, chat: string)
    ensures UnreadOf(Run(lower, actions), chat) == |UnreadRows(Run(lower, actions), chat)| + Excess(lower, actions, chat)
  {
    hide Step, UnreadOf, UnreadRows, Drift;
    if actions == [] {
      EmptyHasNoMail(chat);
    } else {
      var before, last := actions[..|actions| - 1], actions[|actions| - 1];
      var db := Run(lower, before);
      UnreadCountExactly(lower, before, chat);
      if JustRead(actions, chat) {
        StepReads(lower, db, last);
      } else {
        StepMoves(lower, db, last, chat);
        match Arrival(lower, db, last)
        case None =>
        case Some((guid, m)) => ArrivalDrifts(db, Run(lower, actions), guid, m, chat);
      }
    }
  }

  lemma EmptyHasNoMail(chat: string)
    ensures UnreadOf(EMPTY, chat) == 0 && |UnreadRows(EMPTY, chat)| == 0
  {
    assert UnreadRows(EMPTY, chat) == {};
  }

  lemma StepReads(lower: string -> string, db: Db, a: Action)
    requires a.Reading?
    ensures Gap(Step(lower, db, a), a.chat) == if a.now != 0 then 0 else -|UnreadRows(db, a.chat)|
  {
    MarkReadClears(db, a.chat, a.now, a.chat);
  }

  /** The clock never reads zero when the chat is marked read. */
  predicate ClockRuns(actions: seq<Action>, chat: string) {
    forall i :: 0 <= i < |actions| && actions[i].Reading? && actions[i].chat == chat ==> actions[i].now != 0
  }

  /** Since the chat was last read nothing replaced one of its unread rows or came in read. */
  predicate NoDrift(lower: string -> string, actions: seq<Action>, chat: string) {
    actions == [] || JustRead(actions, chat)
    || (LastDrift(lower, actions, chat) == 0 && NoDrift(lower, actions[..|actions| - 1], chat))
  }

  lemma {:induction false} ExcessIsDrift(lower: string -> string, actions: seq<Action>, chat: string)
    requires ClockRuns(actions, chat)
    ensures Excess(lower, actions, chat) >= 0
    ensures Excess(lower, actions, chat) == 0 <==> NoDrift(lower, actions, chat)
  {
    hide LastDrift, UnreadRows, Run;
    if actions != [] { ExcessIsDrift(lower, actions[..|actions| - 1], chat); }
  }

  /** While the clock runs the cached count never falls below the unread rows, and equals them exactly without drift. */
  lemma UnreadCountBoundsRows(lower: string -> string, actions: seq<Action>, chat: string)
    requires ClockRuns(actions, chat)
    ensures UnreadOf(Run(lower, actions), chat) >= |UnreadRows(Run(lower, actions), chat)|
    ensures UnreadOf(Run(lower, actions), chat) == |UnreadRows(Run(lower, actions), chat)| <==> NoDrift(lower, actions, chat)
  {
    hide *;
    UnreadCountExactly(lower, actions, chat);
    ExcessIsDrift(lower, actions, chat);
  }

  /** Every arrival is a new guid and comes in unread. */
  predicate FreshArrivals(lower: string -> string, actions: seq<Action>) {
    forall n :: 0 <= n < |actions| ==>
      var db := Run(lower, actions[..n]);
      match Arrival(lower, db, actions[n])
      case None => true
      case Some((guid, m)) => guid !in db.messages && (m.isFromMe || m.dateRead == 0)
  }

  lemma {:induction false} FreshArrivalsDoNotDrift(lower: string -> string, actions: seq<Action>, chat: string)
    requires FreshArrivals(lower, actions)
    ensures NoDrift(lower, actions, chat)
  {
    hide Run, Arrival;
    if actions != [] {
      var n := |actions| - 1;
      var before := actions[..n];
      forall k | 0 <= k < |before| ensures before[..k] == actions[..k] && before[k] == actions[k] {}
      FreshArrivalsDoNotDrift(lower, before, chat);
      assert LastDrift(lower, actions, chat) == 0;
    }
  }

  /** With new guids, unread arrivals and a running clock the badge is exactly the number of unread rows. */
  lemma BadgeIsExact(lower: string -> string, actions: seq<Action>, chat: string)
    requires ClockRuns(actions, chat) && FreshArrivals(lower, actions)
    ensures UnreadOf(Run(lower, actions), chat) == |UnreadRows(Run(lower, actions), chat)|
  {
    hide *;
    FreshArrivalsDoNotDrift(lower, actions, chat);
    UnreadCountBoundsRows(lower, actions, chat);
  }

  // ---------------------------------------------------------------- how the conditions can fail

  const HELLO := Incoming("m", Some(Conversation(["x"], None)), false, Some("x"), 5000, "hi", false)

  /** Storing it takes five storage calls. */
  const ARRIVING := Receiving(HELLO, 6, 5)

  function HelloChat(lower: string -> string): string {
    ChatGuidFor(lower, ["x"], true)
  }

  lemma HelloArrives(lower: string -> string, db: Db)
    requires Valid(db)
    ensures TakesIn(db, Step(lower, db, ARRIVING), "m", RowOf(HELLO, HelloChat(lower), None), HelloChat(lower))
  {
    hide StoreMessage, ChatGuidFor, TakesIn;
    StoreSucceedsExactly(lower, db, HELLO, 6, 5);
    StepMoves(lower, db, ARRIVING, HelloChat(lower));
  }

  lemma AfterHello(lower: string -> string)
    ensures var db := Run(lower, [ARRIVING]);
            UnreadOf(db, HelloChat(lower)) == 1 && UnreadRows(db, HelloChat(lower)) == {"m"}
  {
    hide Step, HelloChat;
    assert Run(lower, []) == EMPTY;
    RunOneMore(lower, [], ARRIVING);
    assert [] + [ARRIVING] == [ARRIVING];
    ReachableTablesAreValid(lower, []);
    HelloArrives(lower, EMPTY);
    assert UnreadRows(EMPTY, HelloChat(lower)) == {};
  }

  /** A clock that reads zero empties the badge while the row stays unread. */
  lemma ClockAtZeroHidesARow(lower: string -> string)
    ensures var db := Run(lower, [ARRIVING, Reading(HelloChat(lower), 0)]);
            UnreadOf(db, HelloChat(lower)) == 0 && |UnreadRows(db, HelloChat(lower))| == 1
  {
    hide Run, HelloChat;
    var chat := HelloChat(lower);
    var db := Run(lower, [ARRIVING]);
    AfterHello(lower);
    RunOneMore(lower, [ARRIVING], Reading(chat, 0));
    assert [ARRIVING] + [Reading(chat, 0)] == [ARRIVING, Reading(chat, 0)];
    assert UnreadRows(MarkRead(db, chat, 0), chat) == UnreadRows(db, chat);
  }

  /** A message delivered twice is one row and counts twice. */
  lemma RedeliveryCountsTwice(lower: string -> string)
    ensures var db := Run(lower, [ARRIVING, ARRIVING]);
            UnreadOf(db, HelloChat(lower)) == 2 && |UnreadRows(db, HelloChat(lower))| == 1
  {
    hide Run, HelloChat, Step;
    var db := Run(lower, [ARRIVING]);
    AfterHello(lower);
    RunOneMore(lower, [ARRIVING], ARRIVING);
    assert [ARRIVING] + [ARRIVING] == [ARRIVING, ARRIVING];
    ReachableTablesAreValid(lower, [ARRIVING]);
    HelloArrives(lower, db);
    assert UnreadRows(Step(lower, db, ARRIVING), HelloChat(lower)) == {"m"};
  }
}
