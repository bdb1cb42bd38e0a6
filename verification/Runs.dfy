/**
 Whole runs over the tables: every storage operation, and the app's two ways of
 using them, receiving (rust/src/receive.rs) and sending (rust/src/ffi.rs).

 What is proved of every run: the schema's invariants, stable handle ids, chats
 whose participants regenerate their guid, and unread counts.
 */
module Runs {
  import opened Wrappers
  import opened ChatGuids
  import opened Tables
  import opened Receive
  import Sends

  datatype Action =
    | Receiving(inst: Incoming, now: int, calls: nat)
    | Sending(guid: string, chat: string, text: string, now: int)
    | Attaching(guid: string, chat: string, text: string, now: int, attachment: string, file: Attachment)
    | Reading(chat: string, now: int)
    | Pinning(chat: string, pinned: bool, order: int)
    | Archiving(chat: string, archived: bool)
    | Editing(guid: string, text: string, now: int)
    | Unsending(guid: string)
    | Reacting(r: Reaction)
    | Inserting(guid: string, m: Message)
    | Hanging(guid: string, a: Attachment)
    | Naming(address: string, service: string, name: string, now: int)
    | OpeningChat(chat: string, title: string, service: string, isGroup: bool, now: int)
    | Enrolling(chat: string, ids: seq<nat>)

  function Step(lower: string -> string, db: Db, a: Action): Db {
    match a
    case Receiving(inst, now, calls) => StoreMessage(lower, db, inst, now, calls).db
    case Sending(guid, chat, text, now) => Sends.SendMessage(db, guid, chat, text, now).db
    case Attaching(guid, chat, text, now, attachment, file) => Sends.AttachFile(db, guid, chat, text, now, attachment, file).db
    case Reading(chat, now) => MarkRead(db, chat, now)
    case Pinning(chat, pinned, order) => SetPin(db, chat, pinned, order)
    case Archiving(chat, archived) => SetArchived(db, chat, archived)
    case Editing(guid, text, now) => EditMessage(db, guid, text, now)
    case Unsending(guid) => UnsendMessage(db, guid)
    case Reacting(r) => AddReaction(db, r)
    case Inserting(guid, m) => InsertMessage(db, guid, m)
    case Hanging(guid, a) => InsertAttachment(db, guid, a)
    case Naming(address, service, name, now) => UpsertHandle(db, address, service, name, now).0
    case OpeningChat(chat, title, service, isGroup, now) => UpsertChat(db, chat, title, service, isGroup, now)
    case Enrolling(chat, ids) => SetParticipants(db, chat, ids)
  }

  function Run(lower: string -> string, actions: seq<Action>): Db {
    if actions == [] then EMPTY
    else Step(lower, Run(lower, actions[..|actions| - 1]), actions[|actions| - 1])
  }

  lemma RunOneMore(lower: string -> string, actions: seq<Action>, a: Action)
    ensures Run(lower, actions + [a]) == Step(lower, Run(lower, actions), a)
  {
    assert (actions + [a])[..|actions|] == actions;
  }

  // ---------------------------------------------------------------- the schema's invariants

  lemma RowUpdatesKeepValid(db: Db, a: Action)
    requires Valid(db)
    ensures a.Pinning? ==> Valid(SetPin(db, a.chat, a.pinned, a.order))
    ensures a.Archiving? ==> Valid(SetArchived(db, a.chat, a.archived))
  {
  }

  lemma TextUpdatesKeepValid(db: Db, guid: string, text: string, now: int)
    requires Valid(db)
    ensures Valid(EditMessage(db, guid, text, now)) && Valid(UnsendMessage(db, guid))
  {
  }

  lemma SendsKeepValid(db: Db, guid: string, chat: string, text: string, now: int, attachment: string, file: Attachment)
    requires Valid(db)
    ensures Valid(Sends.SendMessage(db, guid, chat, text, now).db)
    ensures Valid(Sends.AttachFile(db, guid, chat, text, now, attachment, file).db)
  {
    InsertMessageKeepsValid(db, guid, Sends.LocalRow(chat, text, now, false));
    var row := Sends.LocalRow(chat, text, now, true);
    InsertMessageKeepsValid(db, guid, row);
    InsertAttachmentKeepsValid(InsertMessage(db, guid, row), attachment, file.(message := guid, transferState := 0));
  }

  lemma StepKeepsValid(lower: string -> string, db: Db, a: Action)
    requires Valid(db)
    ensures Valid(Step(lower, db, a))
  {
    hide Valid, StoreMessage, Sends.SendMessage, Sends.AttachFile, MarkRead, EditMessage, UnsendMessage, AddReaction,
         InsertMessage, InsertAttachment, UpsertHandle, UpsertChat, SetParticipants, SetPin, SetArchived;
    match a
    case Receiving(inst, now, calls) => StoreKeepsValid(lower, db, inst, now, calls);
    case Sending(guid, chat, text, now) => SendsKeepValid(db, guid, chat, text, now, "", Attachment("", "", "", 0, "", 0));
    case Attaching(guid, chat, text, now, attachment, file) => SendsKeepValid(db, guid, chat, text, now, attachment, file);
    case Reading(chat, now) => MarkReadKeepsValid(db, chat, now);
    case Editing(guid, text, now) => TextUpdatesKeepValid(db, guid, text, now);
    case Unsending(guid) => TextUpdatesKeepValid(db, guid, "", 0);
    case Reacting(r) => AddReactionKeepsValid(db, r);
    case Inserting(guid, m) => InsertMessageKeepsValid(db, guid, m);
    case Hanging(guid, at) => InsertAttachmentKeepsValid(db, guid, at);
    case Naming(address, service, name, now) => UpsertHandleKeepsValid(db, address, service, name, now);
    case OpeningChat(chat, title, service, isGroup, now) => UpsertChatKeepsValid(db, chat, title, service, isGroup, now);
    case Enrolling(chat, ids) => SetParticipantsKeepsValid(db, chat, ids);
    case _ => RowUpdatesKeepValid(db, a);
  }

  lemma {:induction false} ReachableTablesAreValid(lower: string -> string, actions: seq<Action>)
    ensures Valid(Run(lower, actions))
  {
    if actions != [] {
      var before := actions[..|actions| - 1];
      ReachableTablesAreValid(lower, before);
      StepKeepsValid(lower, Run(lower, before), actions[|actions| - 1]);
    }
  }

  // ---------------------------------------------------------------- chat identity

  /** What the app does: only store_message opens a chat or replaces its participants. */
  predicate AppAction(a: Action) {
    !a.OpeningChat? && !a.Enrolling?
  }

  predicate AppActions(actions: seq<Action>) {
    forall i :: 0 <= i < |actions| ==> AppAction(actions[i])
  }

  lemma SendsKeepIdentity(db: Db, guid: string, chat: string, text: string, now: int, attachment: string,
                          file: Attachment)
    ensures SameIdentity(db, Sends.SendMessage(db, guid, chat, text, now).db)
    ensures SameIdentity(db, Sends.AttachFile(db, guid, chat, text, now, attachment, file).db)
  {
    hide InsertMessage;
    InsertMessageIdentity(db, guid, Sends.LocalRow(chat, text, now, false));
    InsertMessageIdentity(db, guid, Sends.LocalRow(chat, text, now, true));
  }

  lemma MarkReadIdentity(db: Db, chat: string, now: int)
    ensures SameIdentity(db, MarkRead(db, chat, now))
  {
  }

  lemma AddReactionIdentity(db: Db, r: Reaction)
    ensures SameIdentity(db, AddReaction(db, r))
  {
  }

  lemma HangingIdentity(db: Db, guid: string, a: Attachment)
    ensures SameIdentity(db, InsertAttachment(db, guid, a))
  {
  }

  lemma SetPinIdentity(db: Db, chat: string, pinned: bool, order: int)
    ensures SameIdentity(db, SetPin(db, chat, pinned, order))
  {
  }

  lemma SetArchivedIdentity(db: Db, chat: string, archived: bool)
    ensures SameIdentity(db, SetArchived(db, chat, archived))
  {
  }

  lemma TextUpdatesIdentity(db: Db, guid: string, text: string, now: int)
    ensures SameIdentity(db, EditMessage(db, guid, text, now)) && SameIdentity(db, UnsendMessage(db, guid))
  {
  }

  lemma StepKeepsIdentity(lower: string -> string, db: Db, a: Action)
    requires Valid(db) && AppAction(a) && !a.Receiving?
    ensures SameIdentity(db, Step(lower, db, a))
  {
    hide Valid, Sends.SendMessage, Sends.AttachFile, InsertMessage, UpsertHandle, AddReaction, MarkRead, SameIdentity,
         SetPin, SetArchived, EditMessage, UnsendMessage, InsertAttachment;
    match a
    case Sending(guid, chat, text, now) => SendsKeepIdentity(db, guid, chat, text, now, "", Attachment("", "", "", 0, "", 0));
    case Attaching(guid, chat, text, now, attachment, file) => SendsKeepIdentity(db, guid, chat, text, now, attachment, file);
    case Inserting(guid, m) => InsertMessageIdentity(db, guid, m);
    case Naming(address, service, name, now) => UpsertHandleIdentity(db, address, service, name, now);
    case Reading(chat, now) => MarkReadIdentity(db, chat, now);
    case Reacting(r) => AddReactionIdentity(db, r);
    case Hanging(guid, at) => HangingIdentity(db, guid, at);
    case Pinning(chat, pinned, order) => SetPinIdentity(db, chat, pinned, order);
    case Archiving(chat, archived) => SetArchivedIdentity(db, chat, archived);
    case Editing(guid, text, now) => TextUpdatesIdentity(db, guid, text, now);
    case Unsending(guid) => TextUpdatesIdentity(db, guid, "", 0);
  }

  lemma StepFollows(lower: string -> string, db: Db, a: Action)
    requires Valid(db) && AppAction(a)
    ensures Follows(lower, db, Step(lower, db, a))
  {
    hide Valid, Follows, StoreMessage;
    match a
    case Receiving(inst, now, calls) => StoreCoherence(lower, db, inst, now, calls);
    case _ =>
      StepKeepsIdentity(lower, db, a);
      StepKeepsValid(lower, db, a);
      SameIdentityFollows(lower, db, Step(lower, db, a));
  }

  /** What a run has established, its continuation keeps. */
  lemma {:induction false} LaterRunsFollow(lower: string -> string, actions: seq<Action>, n: nat)
    requires AppActions(actions) && n <= |actions|
    ensures Follows(lower, Run(lower, actions[..n]), Run(lower, actions))
  {
    hide Follows, Step, SameIdentity;
    ReachableTablesAreValid(lower, actions[..n]);
    if n == |actions| {
      assert actions[..n] == actions;
      FollowsItself(lower, Run(lower, actions));
    } else {
      var before := actions[..|actions| - 1];
      assert before[..n] == actions[..n];
      LaterRunsFollow(lower, before, n);
      ReachableTablesAreValid(lower, before);
      StepFollows(lower, Run(lower, before), actions[|actions| - 1]);
      FollowsTransitive(lower, Run(lower, actions[..n]), Run(lower, before), Run(lower, actions));
    }
  }

  /** In every run of the app each chat regenerates its guid, or was cut off before its participants were stored. */
  lemma ChatsStayCoherent(lower: string -> string, actions: seq<Action>)
    requires AppActions(actions)
    ensures forall g :: g in Run(lower, actions).chats ==> CoherentOrUnfilled(lower, Run(lower, actions), g)
  {
    hide CoherentOrUnfilled, Step;
    LaterRunsFollow(lower, actions, 0);
    assert actions[..0] == [];
  }

  /** An unfilled chat regenerates its guid only if it is the chat of nobody. */
  lemma UnfilledExactly(lower: string -> string, db: Db, guid: string)
    requires HandlesOk(db) && guid in db.chats && Unfilled(db, guid)
    ensures Coherent(lower, db, guid) <==> guid == Prefix(db.chats[guid].service == IMESSAGE) + ";"
  {
    CoherentVia(lower, db, guid, []);
    assert LowerAll(lower, []) == [] && Canonical([]) == [] && Join([]) == "";
    assert ChatGuidFor(lower, [], db.chats[guid].service == IMESSAGE) == Prefix(db.chats[guid].service == IMESSAGE) + ";";
  }

  /** Exactly the chats with stored participants, and the chat of nobody, lead back to themselves. */
  lemma ChatIsCoherentExactly(lower: string -> string, actions: seq<Action>, guid: string)
    requires AppActions(actions) && guid in Run(lower, actions).chats
    ensures var db := Run(lower, actions);
            Coherent(lower, db, guid) <==> !Unfilled(db, guid) || guid == Prefix(db.chats[guid].service == IMESSAGE) + ";"
  {
    hide Coherent, Unfilled, Step;
    var db := Run(lower, actions);
    ChatsStayCoherent(lower, actions);
    ReachableTablesAreValid(lower, actions);
    assert CoherentOrUnfilled(lower, db, guid);
    if Unfilled(db, guid) { UnfilledExactly(lower, db, guid); }
  }

  /** A first message to one participant, of whom storage learns nothing but the chat. */
  const CUT_OFF := Incoming("m", Some(Conversation(["x"], None)), false, None, 0, "", false)

  lemma CutOffState(lower: string -> string)
    ensures Run(lower, [Receiving(CUT_OFF, 1, 1)])
            == UpsertChat(EMPTY, ChatGuidFor(lower, ["x"], true), "", IMESSAGE, false, 1)
  {
    hide ChatGuidFor;
    RunOneMore(lower, [], Receiving(CUT_OFF, 1, 1));
    assert [] + [Receiving(CUT_OFF, 1, 1)] == [Receiving(CUT_OFF, 1, 1)];
    assert Run(lower, []) == EMPTY;
  }

  /** The exception is reached: cut off after its first storage call, the chat of a first message does not lead back to itself. */
  lemma CutOffChatIsNotCoherent(lower: string -> string)
    requires lower("x") != ""
    ensures var db, guid := Run(lower, [Receiving(CUT_OFF, 1, 1)]), ChatGuidFor(lower, ["x"], true);
            guid in db.chats && Unfilled(db, guid) && !Coherent(lower, db, guid)
  {
    var db, guid := Run(lower, [Receiving(CUT_OFF, 1, 1)]), ChatGuidFor(lower, ["x"], true);
    CutOffState(lower);
    ReachableTablesAreValid(lower, [Receiving(CUT_OFF, 1, 1)]);
    assert MemberAddresses(db, guid) == {};
    OnePersonGuid(lower, "x");
    UnfilledExactly(lower, db, guid);
    assert |guid| > |Prefix(true) + ";"|;
  }

  lemma OnePersonGuid(lower: string -> string, x: string)
    ensures ChatGuidFor(lower, [x], true) == Prefix(true) + ";" + lower(x)
  {
    assert LowerAll(lower, [x]) == [lower(x)];
    assert Sort([lower(x)]) == [lower(x)];
  }

  /** No storage call of a store_message failed. */
  predicate Completes(a: Action) {
    a.Receiving? && a.inst.conversation.Some? ==> a.calls >= CallsNeeded(a.inst, a.inst.conversation.value)
  }

  predicate AllComplete(actions: seq<Action>) {
    forall i :: 0 <= i < |actions| ==> Completes(actions[i])
  }

  predicate AllCoherent(lower: string -> string, db: Db) {
    forall g :: g in db.chats ==> Coherent(lower, db, g)
  }

  lemma StepKeepsAllCoherent(lower: string -> string, db: Db, a: Action)
    requires Valid(db) && AppAction(a) && Completes(a) && AllCoherent(lower, db)
    ensures AllCoherent(lower, Step(lower, db, a))
  {
    hide Valid, Coherent, StoreMessage, ChatGuidFor, CoherentOrUnfilled;
    StepFollows(lower, db, a);
    match a
    case Receiving(inst, now, calls) =>
      StoreKeepsValid(lower, db, inst, now, calls);
      StoreCoherence(lower, db, inst, now, calls);
      StoreSucceedsExactly(lower, db, inst, now, calls);
    case _ => StepKeepsIdentity(lower, db, a);
  }

  /** While no storage call fails, every chat's stored participants regenerate its own guid. */
  lemma {:induction false} EveryChatLeadsBack(lower: string -> string, actions: seq<Action>)
    requires AppActions(actions) && AllComplete(actions)
    ensures AllCoherent(lower, Run(lower, actions))
  {
    hide Step, Coherent;
    if actions != [] {
      var before := actions[..|actions| - 1];
      EveryChatLeadsBack(lower, before);
      ReachableTablesAreValid(lower, before);
      StepKeepsAllCoherent(lower, Run(lower, before), actions[|actions| - 1]);
    }
  }

  /** So a reply to the stored addresses never opens a second copy of the thread. */
  lemma RepliesStayInTheThread(lower: string -> string, actions: seq<Action>, guid: string, reply: Incoming, now: int,
                               calls: nat)
    requires AppActions(actions) && AllComplete(actions) && guid in Run(lower, actions).chats
    requires reply.conversation.Some? && reply.isSms == (Run(lower, actions).chats[guid].service != IMESSAGE)
    requires var stored := ParticipantAddresses(Run(lower, actions), guid);
             People(lower, reply.conversation.value.participants) == People(lower, stored)
    ensures var db := Run(lower, actions);
            var r := StoreMessage(lower, db, reply, now, calls);
            && r.db.chats.Keys == db.chats.Keys
            && (r.result == Ok ==> Announced(r, reply, guid))
  {
    hide Step, Coherent, StoreMessage, Announced;
    EveryChatLeadsBack(lower, actions);
    ReachableTablesAreValid(lower, actions);
    ReplyBelongsToTheChat(lower, Run(lower, actions), guid, reply, now, calls);
  }

  lemma StepKeepsHandles(lower: string -> string, db: Db, a: Action)
    requires Valid(db)
    ensures KeepsHandles(db, Step(lower, db, a))
  {
    hide Valid, StoreMessage, CoherentOrUnfilled, Coherent;
    if AppAction(a) { StepFollows(lower, db, a); }
  }

  /** Handle ids are stable over every run. */
  lemma {:induction false} HandlesAreStable(lower: string -> string, actions: seq<Action>, n: nat)
    requires n <= |actions|
    ensures KeepsHandles(Run(lower, actions[..n]), Run(lower, actions))
  {
    hide Step;
    if n == |actions| {
      assert actions[..n] == actions;
    } else {
      var before := actions[..|actions| - 1];
      assert before[..n] == actions[..n];
      HandlesAreStable(lower, before, n);
      ReachableTablesAreValid(lower, before);
      StepKeepsHandles(lower, Run(lower, before), actions[|actions| - 1]);
    }
  }

  /** Nothing but store_message writes handles, and it gives them no name. */
  predicate GivesNoName(a: Action) {
    a.Naming? ==> a.name == ""
  }

  lemma StepKeepsAnonymous(lower: string -> string, db: Db, a: Action)
    requires GivesNoName(a)
    ensures KeepsAnonymous(db, Step(lower, db, a))
  {
    hide StoreMessage, InsertMessage, UpsertHandle, ChatGuidFor;
    match a
    case Receiving(inst, now, calls) => StoreDelivers(lower, db, inst, now, calls);
    case Naming(address, service, name, now) => UpsertHandleUntouched(db, address, service, now);
    case Inserting(guid, m) => InsertKeepsHandles(db, guid, m);
    case Sending(guid, chat, text, now) => InsertKeepsHandles(db, guid, Sends.LocalRow(chat, text, now, false));
    case Attaching(guid, chat, text, now, _, _) => InsertKeepsHandles(db, guid, Sends.LocalRow(chat, text, now, true));
    case _ =>
  }

  lemma InsertKeepsHandles(db: Db, guid: string, m: Message)
    ensures InsertMessage(db, guid, m).handles == db.handles && InsertMessage(db, guid, m).nextHandle == db.nextHandle
  {
  }

  /** In every run of the app no handle has a display name. */
  lemma {:induction false} HandlesStayAnonymous(lower: string -> string, actions: seq<Action>)
    requires forall i :: 0 <= i < |actions| ==> GivesNoName(actions[i])
    ensures AnonymousOk(Run(lower, actions))
  {
    hide Step;
    if actions != [] {
      HandlesStayAnonymous(lower, actions[..|actions| - 1]);
      StepKeepsAnonymous(lower, Run(lower, actions[..|actions| - 1]), actions[|actions| - 1]);
    }
  }
}
