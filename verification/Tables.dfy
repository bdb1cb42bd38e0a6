/**
 The SQLite tables and what each statement does to them
 (rust/src/storage.rs), with foreign keys enforced.

 A statement that breaks a foreign key fails and changes nothing. INSERT OR
 REPLACE deletes the old row, with the cascades the schema asks for, and inserts.
 */
module Tables {
  import opened Wrappers
  import opened ChatGuids

  const IMESSAGE: string := "iMessage"
  const SMS: string := "SMS"

  datatype Chat = Chat(
    title: string,
    isImessage: bool,
    service: string,
    isGroup: bool,
    isArchived: bool,
    isPinned: bool,
    pinOrder: int,
    unread: int,
    lastDate: int,
    preview: string,
    createdAt: int)

  datatype Handle = Handle(address: string, service: string, displayName: string, createdAt: int)

  datatype Message = Message(
    chat: string,
    handle: Option<nat>,
    text: string,
    subject: string,
    isFromMe: bool,
    date: int,
    dateRead: int,
    dateEdited: int,
    isUnsent: bool,
    hasAttachments: bool,
    threadOrigin: string)

  datatype Reaction = Reaction(message: string, handle: Option<nat>, isFromMe: bool, kind: string, timestamp: int)

  datatype Attachment = Attachment(
    message: string,
    filename: string,
    mimeType: string,
    sizeBytes: int,
    localPath: string,
    transferState: int)

  /** Tables by primary key. nextHandle is the next AUTOINCREMENT id. */
  datatype Db = Db(
    chats: map<string, Chat>,
    handles: map<nat, Handle>,
    nextHandle: nat,
    members: set<(string, nat)>,
    messages: map<string, Message>,
    reactions: seq<Reaction>,
    attachments: map<string, Attachment>)

  const EMPTY := Db(map[], map[], 1, {}, map[], [], map[])

  // ---------------------------------------------------------------- handles

  /** The row with an address and a service, looked for from an id on. */
  function FindHandle(handles: map<nat, Handle>, from: nat, next: nat, address: string, service: string): (r: Option<nat>)
    ensures r.Some? ==>
              && from <= r.value < next && r.value in handles
              && handles[r.value].address == address && handles[r.value].service == service
    ensures r.None? ==>
              forall i :: from <= i < next && i in handles ==> handles[i].address != address || handles[i].service != service
    decreases next - from
  {
    if from >= next then None
    else if from in handles && handles[from].address == address && handles[from].service == service then Some(from)
    else FindHandle(handles, from + 1, next, address, service)
  }

  function UpsertHandle(db: Db, address: string, service: string, name: string, now: int): (Db, nat) {
    match FindHandle(db.handles, 0, db.nextHandle, address, service)
    case Some(id) => (db.(handles := db.handles[id := db.handles[id].(displayName := name)]), id)
    case None =>
      var row := Handle(address, service, name, now);
      (db.(handles := db.handles[db.nextHandle := row], nextHandle := db.nextHandle + 1), db.nextHandle)
  }

  // ---------------------------------------------------------------- chats

  function UpsertChat(db: Db, guid: string, title: string, service: string, isGroup: bool, now: int): Db {
    var isImessage := service == IMESSAGE;
    var row := if guid in db.chats
               then db.chats[guid].(title := title, isImessage := isImessage, service := service, isGroup := isGroup)
               else Chat(title, isImessage, service, isGroup, false, false, 0, 0, 0, "", now);
    db.(chats := db.chats[guid := row])
  }

  predicate MembersFit(db: Db, guid: string, ids: seq<nat>) {
    ids == [] || (guid in db.chats && forall i :: 0 <= i < |ids| ==> ids[i] in db.handles)
  }

  function MembersOf(members: set<(string, nat)>, guid: string): set<(string, nat)> {
    set m | m in members && m.0 == guid
  }

  /** One transaction: all rows of the chat are replaced, or none. */
  function SetParticipants(db: Db, guid: string, ids: seq<nat>): Db {
    if !MembersFit(db, guid, ids) then db
    else db.(members := db.members - MembersOf(db.members, guid) + set i | 0 <= i < |ids| :: (guid, ids[i]))
  }

  function SetPin(db: Db, guid: string, pinned: bool, order: int): Db {
    if guid !in db.chats then db
    else db.(chats := db.chats[guid := db.chats[guid].(isPinned := pinned, pinOrder := order)])
  }

  function SetArchived(db: Db, guid: string, archived: bool): Db {
    if guid !in db.chats then db
    else db.(chats := db.chats[guid := db.chats[guid].(isArchived := archived)])
  }

  // ---------------------------------------------------------------- messages

  predicate MessageFits(db: Db, m: Message) {
    m.chat in db.chats && (m.handle.Some? ==> m.handle.value in db.handles)
  }

  function ReactionsWithout(rs: seq<Reaction>, message: string): (r: seq<Reaction>)
    ensures forall i :: 0 <= i < |r| ==> r[i] in rs && r[i].message != message
    ensures forall x :: x in rs && x.message != message ==> x in r
  {
    if rs == [] then []
    else if rs[0].message == message then ReactionsWithout(rs[1..], message)
    else [rs[0]] + ReactionsWithout(rs[1..], message)
  }

  /** Deleting a message takes its reactions and attachments along. */
  function DeleteMessage(db: Db, guid: string): Db {
    if guid !in db.messages then db
    else db.(messages := db.messages - {guid},
             reactions := ReactionsWithout(db.reactions, guid),
             attachments := map a | a in db.attachments && db.attachments[a].message != guid :: db.attachments[a])
  }

  function Max(a: int, b: int): int {
    if a < b then b else a
  }

  function ChatAfter(c: Chat, m: Message): Chat {
    c.(lastDate := Max(c.lastDate, m.date), preview := m.text, unread := if m.isFromMe then c.unread else c.unread + 1)
  }

  function InsertMessage(db: Db, guid: string, m: Message): Db {
    if !MessageFits(db, m) then db
    else
      var cleared := DeleteMessage(db, guid);
      cleared.(messages := cleared.messages[guid := m], chats := cleared.chats[m.chat := ChatAfter(cleared.chats[m.chat], m)])
  }

  /** insert_message stopped after n of its three statements, which no transaction holds together. */
  function InsertMessageCut(db: Db, guid: string, m: Message, n: nat): Db {
    if !MessageFits(db, m) || n == 0 then db
    else if n >= 3 then InsertMessage(db, guid, m)
    else
      var cleared := DeleteMessage(db, guid);
      var chat := db.chats[m.chat];
      cleared.(messages := cleared.messages[guid := m],
               chats := if n == 1 then db.chats
                        else db.chats[m.chat := chat.(lastDate := Max(chat.lastDate, m.date), preview := m.text)])
  }

  /** Received, in this chat, and not read. */
  predicate IsUnread(m: Message, chat: string) {
    m.chat == chat && !m.isFromMe && m.dateRead == 0
  }

  function MarkRead(db: Db, chat: string, now: int): Db {
    db.(messages := map g | g in db.messages ::
          if IsUnread(db.messages[g], chat) then db.messages[g].(dateRead := now) else db.messages[g],
        chats := if chat in db.chats then db.chats[chat := db.chats[chat].(unread := 0)] else db.chats)
  }

  function EditMessage(db: Db, guid: string, text: string, now: int): Db {
    if guid !in db.messages then db
    else db.(messages := db.messages[guid := db.messages[guid].(text := text, dateEdited := now)])
  }

  function UnsendMessage(db: Db, guid: string): Db {
    if guid !in db.messages then db
    else db.(messages := db.messages[guid := db.messages[guid].(isUnsent := true, text := "")])
  }

  // ---------------------------------------------------------------- reactions and attachments

  /** Rows the new one replaces: a NULL handle conflicts with nothing. */
  predicate SameReactionKey(a: Reaction, b: Reaction) {
    a.message == b.message && a.kind == b.kind && a.handle.Some? && a.handle == b.handle
  }

  function ReactionsReplaced(rs: seq<Reaction>, r: Reaction): (s: seq<Reaction>)
    ensures forall i :: 0 <= i < |s| ==> s[i] in rs && !SameReactionKey(s[i], r)
    ensures forall x :: x in rs && !SameReactionKey(x, r) ==> x in s
  {
    if rs == [] then []
    else if SameReactionKey(rs[0], r) then ReactionsReplaced(rs[1..], r)
    else [rs[0]] + ReactionsReplaced(rs[1..], r)
  }

  function AddReaction(db: Db, r: Reaction): Db {
    if r.message !in db.messages then db
    else db.(reactions := ReactionsReplaced(db.reactions, r) + [r])
  }

  function InsertAttachment(db: Db, guid: string, a: Attachment): Db {
    if a.message !in db.messages then db
    else db.(attachments := db.attachments[guid := a],
             messages := db.messages[a.message := db.messages[a.message].(hasAttachments := true)])
  }

  // ---------------------------------------------------------------- queries

  /** Ids of the handles that take part in a chat, ascending. */
  function MemberIds(db: Db, guid: string, from: nat): (ids: seq<nat>)
    ensures forall id :: id in ids <==> from <= id < db.nextHandle && (guid, id) in db.members && id in db.handles
    decreases db.nextHandle - from
  {
    if from >= db.nextHandle then []
    else if (guid, from) in db.members && from in db.handles then [from] + MemberIds(db, guid, from + 1)
    else MemberIds(db, guid, from + 1)
  }

  function AddressesOf(handles: map<nat, Handle>, ids: seq<nat>): (r: seq<string>)
    requires forall i :: 0 <= i < |ids| ==> ids[i] in handles
    ensures |r| == |ids| && forall i :: 0 <= i < |ids| ==> r[i] == handles[ids[i]].address
  {
    if ids == [] then [] else [handles[ids[0]].address] + AddressesOf(handles, ids[1..])
  }

  /** Raw addresses of the participants, ordered. */
  function ParticipantAddresses(db: Db, guid: string): seq<string> {
    Sort(AddressesOf(db.handles, MemberIds(db, guid, 0)))
  }

  // ---------------------------------------------------------------- the invariants

  /** Ids below the counter, and (address, service) unique. */
  predicate HandlesOk(db: Db) {
    && 1 <= db.nextHandle
    && (forall i :: i in db.handles ==> 1 <= i < db.nextHandle)
    && (forall i, j :: i in db.handles && j in db.handles && i != j ==>
          db.handles[i].address != db.handles[j].address || db.handles[i].service != db.handles[j].service)
  }

  predicate MembersOk(db: Db) {
    forall m :: m in db.members ==> m.0 in db.chats && m.1 in db.handles
  }

  predicate MessagesOk(db: Db) {
    forall g :: g in db.messages ==> MessageFits(db, db.messages[g])
  }

  predicate ReactionsOk(db: Db) {
    forall i :: 0 <= i < |db.reactions| ==> db.reactions[i].message in db.messages
  }

  /** The primary key of reactions, which binds only rows with a handle. */
  predicate ReactionKeysOk(rs: seq<Reaction>) {
    forall i, j :: 0 <= i < j < |rs| ==> !SameReactionKey(rs[i], rs[j])
  }

  /** Every attachment hangs on a message, and that message says so. */
  predicate AttachmentsOk(db: Db) {
    forall a :: a in db.attachments ==>
      db.attachments[a].message in db.messages && db.messages[db.attachments[a].message].hasAttachments
  }

  /** last_message_date bounds the date of every message of the chat. */
  predicate DatesOk(db: Db) {
    forall g :: g in db.messages && db.messages[g].chat in db.chats ==>
      db.messages[g].date <= db.chats[db.messages[g].chat].lastDate
  }

  predicate Valid(db: Db) {
    && HandlesOk(db) && MembersOk(db) && MessagesOk(db)
    && ReactionsOk(db) && ReactionKeysOk(db.reactions)
    && AttachmentsOk(db) && DatesOk(db)
  }

  /** A handle id, once given, stands for the same address and service. */
  predicate KeepsHandles(db: Db, db': Db) {
    forall i :: i in db.handles ==>
      i in db'.handles && db'.handles[i].address == db.handles[i].address && db'.handles[i].service == db.handles[i].service
  }

  /** The handle rows of a state are still there, as they were. */
  predicate KeepsHandleRows(db: Db, db': Db) {
    forall i :: i in db.handles ==> i in db'.handles && db'.handles[i] == db.handles[i]
  }

  /** The cached count of a chat, or nothing for no chat. */
  function UnreadOf(db: Db, chat: string): int {
    if chat in db.chats then db.chats[chat].unread else 0
  }

  // ---------------------------------------------------------------- every statement keeps them

  /** The handles after an upsert: every old row keeps what it stands for, and the table stays keyed. */
  predicate HandlesFollow(db: Db, db': Db) {
    HandlesOk(db') && KeepsHandles(db, db')
  }

  lemma FoundHandleFollows(db: Db, id: nat, name: string)
    requires HandlesOk(db) && id in db.handles
    ensures HandlesFollow(db, db.(handles := db.handles[id := db.handles[id].(displayName := name)]))
  {
  }

  lemma NewHandleFollows(db: Db, row: Handle)
    requires HandlesOk(db)
    requires forall i :: i in db.handles ==> db.handles[i].address != row.address || db.handles[i].service != row.service
    ensures HandlesFollow(db, db.(handles := db.handles[db.nextHandle := row], nextHandle := db.nextHandle + 1))
  {
  }

  /** More handles, and nothing else changed. */
  lemma MoreHandlesKeepValid(db: Db, db': Db)
    requires Valid(db) && HandlesFollow(db, db')
    requires db' == db.(handles := db'.handles, nextHandle := db'.nextHandle)
    ensures Valid(db')
  {
    hide ReactionKeysOk, HandlesOk;
  }

  lemma UpsertHandleKeepsValid(db: Db, address: string, service: string, name: string, now: int)
    requires Valid(db)
    ensures var (db', id) := UpsertHandle(db, address, service, name, now);
            && Valid(db')
            && id in db'.handles && db'.handles[id].address == address && db'.handles[id].service == service
            && KeepsHandles(db, db')
  {
    hide MembersOk, MessagesOk, ReactionsOk, ReactionKeysOk, AttachmentsOk, DatesOk, KeepsHandles;
    match FindHandle(db.handles, 0, db.nextHandle, address, service) {
      case Some(id) => FoundHandleFollows(db, id, name);
      case None => NewHandleFollows(db, Handle(address, service, name, now));
    }
    MoreHandlesKeepValid(db, UpsertHandle(db, address, service, name, now).0);
  }

  lemma UpsertChatKeepsValid(db: Db, guid: string, title: string, service: string, isGroup: bool, now: int)
    requires Valid(db)
    ensures Valid(UpsertChat(db, guid, title, service, isGroup, now))
  {
  }

  lemma SetParticipantsKeepsValid(db: Db, guid: string, ids: seq<nat>)
    requires Valid(db)
    ensures Valid(SetParticipants(db, guid, ids))
  {
  }

  lemma {:induction false} WithoutKeepsKeys(rs: seq<Reaction>, message: string)
    requires ReactionKeysOk(rs)
    ensures ReactionKeysOk(ReactionsWithout(rs, message))
  {
    if rs != [] {
      WithoutKeepsKeys(rs[1..], message);
      forall x | x in rs[1..] ensures !SameReactionKey(rs[0], x) {
        var k :| 0 <= k < |rs[1..]| && rs[1..][k] == x;
        assert rs[k + 1] == x;
      }
    }
  }

  lemma {:induction false} ReplacedKeepsKeys(rs: seq<Reaction>, r: Reaction)
    requires ReactionKeysOk(rs)
    ensures ReactionKeysOk(ReactionsReplaced(rs, r))
  {
    if rs != [] {
      ReplacedKeepsKeys(rs[1..], r);
      forall x | x in rs[1..] ensures !SameReactionKey(rs[0], x) {
        var k :| 0 <= k < |rs[1..]| && rs[1..][k] == x;
        assert rs[k + 1] == x;
      }
    }
  }

  lemma DeleteMessageKeepsValid(db: Db, guid: string)
    requires Valid(db)
    ensures Valid(DeleteMessage(db, guid))
    ensures guid !in DeleteMessage(db, guid).messages
    ensures forall i :: 0 <= i < |DeleteMessage(db, guid).reactions| ==> DeleteMessage(db, guid).reactions[i].message != guid
    ensures forall a :: a in DeleteMessage(db, guid).attachments ==> DeleteMessage(db, guid).attachments[a].message != guid
  {
    WithoutKeepsKeys(db.reactions, guid);
  }

  lemma InsertMessageRows(db: Db, guid: string, m: Message)
    requires MessageFits(db, m)
    ensures InsertMessage(db, guid, m).messages == db.messages[guid := m]
    ensures InsertMessage(db, guid, m).chats == db.chats[m.chat := ChatAfter(db.chats[m.chat], m)]
    ensures InsertMessage(db, guid, m).handles == db.handles && InsertMessage(db, guid, m).nextHandle == db.nextHandle
  {
  }

  lemma InsertMessageKeepsValid(db: Db, guid: string, m: Message)
    requires Valid(db)
    ensures Valid(InsertMessage(db, guid, m))
  {
    DeleteMessageKeepsValid(db, guid);
  }

  lemma RowAloneIsValidExactly(db: Db, guid: string, m: Message)
    requires Valid(db) && MessageFits(db, m)
    ensures Valid(InsertMessageCut(db, guid, m, 1)) <==> m.date <= db.chats[m.chat].lastDate
  {
    hide ReactionsWithout, ReactionKeysOk;
    DeleteMessageKeepsValid(db, guid);
    var db' := InsertMessageCut(db, guid, m, 1);
    assert db'.messages[guid] == m && db'.chats == db.chats;
  }

  lemma RowAndDateAreValid(db: Db, guid: string, m: Message)
    requires Valid(db) && MessageFits(db, m)
    ensures Valid(InsertMessageCut(db, guid, m, 2))
  {
    hide ReactionsWithout, ReactionKeysOk;
    DeleteMessageKeepsValid(db, guid);
  }

  /** Of the three statements only the first, alone, can break an invariant: when the row is newer than its chat's last date. */
  lemma CutInsertIsValidExactly(db: Db, guid: string, m: Message, n: nat)
    requires Valid(db) && MessageFits(db, m)
    ensures Valid(InsertMessageCut(db, guid, m, n)) <==> n != 1 || m.date <= db.chats[m.chat].lastDate
  {
    hide Valid, InsertMessage, DeleteMessage;
    if n == 1 { RowAloneIsValidExactly(db, guid, m); }
    if n == 2 { RowAndDateAreValid(db, guid, m); }
    if n >= 3 { InsertMessageKeepsValid(db, guid, m); }
  }

  /** The row of an attachment without the flag is harmless exactly when its message has the flag already. */
  lemma CutAttachmentIsValidExactly(db: Db, guid: string, a: Attachment)
    requires Valid(db) && a.message in db.messages
    ensures Valid(db.(attachments := db.attachments[guid := a])) <==> db.messages[a.message].hasAttachments
  {
    var db' := db.(attachments := db.attachments[guid := a]);
    assert db'.attachments[guid] == a;
  }

  /** A replaced message loses everything that hung on the old row, and only that. */
  lemma InsertMessageClears(db: Db, guid: string, m: Message)
    requires ReactionsOk(db) && AttachmentsOk(db) && MessageFits(db, m)
    ensures var db' := InsertMessage(db, guid, m);
            && (forall r :: r in db'.reactions ==> r.message != guid)
            && (forall r :: r in db.reactions && r.message != guid ==> r in db'.reactions)
            && (forall a :: a in db'.attachments <==> a in db.attachments && db.attachments[a].message != guid)
            && (forall a :: a in db'.attachments ==> db'.attachments[a] == db.attachments[a])
  {
    assert InsertMessage(db, guid, m).reactions == DeleteMessage(db, guid).reactions;
    assert InsertMessage(db, guid, m).attachments == DeleteMessage(db, guid).attachments;
  }

  lemma MarkReadKeepsValid(db: Db, chat: string, now: int)
    requires Valid(db)
    ensures Valid(MarkRead(db, chat, now))
  {
  }

  lemma AddReactionKeepsValid(db: Db, r: Reaction)
    requires Valid(db)
    ensures Valid(AddReaction(db, r))
  {
    ReplacedKeepsKeys(db.reactions, r);
  }

  /** The same message, handle and kind, a missing handle included. */
  predicate Alike(a: Reaction, b: Reaction) {
    a.message == b.message && a.kind == b.kind && a.handle == b.handle
  }

  predicate AtMostOneAlike(rs: seq<Reaction>, r: Reaction) {
    forall i, j :: 0 <= i < j < |rs| ==> !(Alike(rs[i], r) && Alike(rs[j], r))
  }

  /** One reaction a key holds except for our own tapbacks: without a handle a repeated one is kept beside the first. */
  lemma ReactionIsAloneExactly(db: Db, r: Reaction)
    requires r.message in db.messages
    ensures AtMostOneAlike(AddReaction(db, r).reactions, r) <==> r.handle.Some? || forall x :: x in db.reactions ==> !Alike(x, r)
  {
    var kept := ReactionsReplaced(db.reactions, r);
    var rs := AddReaction(db, r).reactions;
    assert rs == kept + [r];
    if r.handle.None? {
      forall x | x in db.reactions && Alike(x, r) ensures !AtMostOneAlike(rs, r) {
        var k :| 0 <= k < |kept| && kept[k] == x;
        assert rs[k] == x && rs[|kept|] == r;
      }
    }
  }

  lemma InsertAttachmentKeepsValid(db: Db, guid: string, a: Attachment)
    requires Valid(db)
    ensures Valid(InsertAttachment(db, guid, a))
  {
  }

  // ---------------------------------------------------------------- what every statement does to every column

  /** The one row with an address and a service takes the name, new or not; ids and creation times stay, and so does all else. */
  lemma UpsertHandleExactly(db: Db, address: string, service: string, name: string, now: int)
    requires HandlesOk(db)
    ensures var (db', id) := UpsertHandle(db, address, service, name, now);
            && db' == db.(handles := db'.handles, nextHandle := db'.nextHandle)
            && db'.handles.Keys == db.handles.Keys + {id}
            && (forall i :: i in db.handles && i != id ==> db'.handles[i] == db.handles[i])
            && db'.handles[id].address == address && db'.handles[id].service == service && db'.handles[id].displayName == name
            && (id in db.handles <==>
                  exists i :: i in db.handles && db.handles[i].address == address && db.handles[i].service == service)
            && db'.handles[id].createdAt == if id in db.handles then db.handles[id].createdAt else now
  {
  }

  /** A chat's title, transport and kind are set; what the user and its messages made of it survives. */
  lemma UpsertChatExactly(db: Db, guid: string, title: string, service: string, isGroup: bool, now: int)
    ensures var db' := UpsertChat(db, guid, title, service, isGroup, now);
            && db' == db.(chats := db'.chats) && db'.chats.Keys == db.chats.Keys + {guid}
            && (forall g :: g in db.chats && g != guid ==> db'.chats[g] == db.chats[g])
            && var c := db'.chats[guid];
               && c.title == title && c.service == service && c.isGroup == isGroup && (c.isImessage <==> service == "iMessage")
               && (guid in db.chats ==>
                     && c.isArchived == db.chats[guid].isArchived && c.isPinned == db.chats[guid].isPinned
                     && c.pinOrder == db.chats[guid].pinOrder && c.unread == db.chats[guid].unread
                     && c.lastDate == db.chats[guid].lastDate && c.preview == db.chats[guid].preview
                     && c.createdAt == db.chats[guid].createdAt)
               && (guid !in db.chats ==>
                     && !c.isArchived && !c.isPinned && c.pinOrder == c.unread == c.lastDate == 0
                     && c.preview == "" && c.createdAt == now)
  {
  }

  /** Who takes part afterwards: exactly the ids given, or, if one does not fit, who did before; other chats keep theirs. */
  lemma SetParticipantsExactly(db: Db, guid: string, ids: seq<nat>)
    ensures var db' := SetParticipants(db, guid, ids);
            && db' == db.(members := db'.members)
            && (forall g, id :: g != guid ==> ((g, id) in db'.members <==> (g, id) in db.members))
            && forall id :: (guid, id) in db'.members <==>
                 if ids == [] || (guid in db.chats && forall k :: 0 <= k < |ids| ==> ids[k] in db.handles) then id in ids
                 else (guid, id) in db.members
  {
    var db' := SetParticipants(db, guid, ids);
    if MembersFit(db, guid, ids) {
      forall id ensures (guid, id) in db'.members <==> id in ids {}
    }
  }

  /** A pin sets its two columns and no others, and is undone by the old values. */
  lemma SetPinExactly(db: Db, guid: string, pinned: bool, order: int)
    requires guid in db.chats
    ensures var c, db' := db.chats[guid], SetPin(db, guid, pinned, order);
            && guid in db'.chats && db'.chats[guid].isPinned == pinned && db'.chats[guid].pinOrder == order
            && SetPin(db', guid, c.isPinned, c.pinOrder) == db
  {
    assert SetPin(db, guid, pinned, order).chats[guid := db.chats[guid]] == db.chats;
  }

  /** And so is an archived mark. */
  lemma SetArchivedExactly(db: Db, guid: string, archived: bool)
    requires guid in db.chats
    ensures var c, db' := db.chats[guid], SetArchived(db, guid, archived);
            guid in db'.chats && db'.chats[guid].isArchived == archived && SetArchived(db', guid, c.isArchived) == db
  {
    assert SetArchived(db, guid, archived).chats[guid := db.chats[guid]] == db.chats;
  }

  /**
   The row is the one given, every other one stays; its chat shows its text, is dated by the newest, and
   counts it if it was received. A message that does not fit changes nothing.
   */
  lemma InsertMessageExactly(db: Db, guid: string, m: Message)
    ensures var db' := InsertMessage(db, guid, m);
            if m.chat in db.chats && (m.handle.Some? ==> m.handle.value in db.handles) then
              && db'.messages == db.messages[guid := m]
              && db'.handles == db.handles && db'.members == db.members && db'.nextHandle == db.nextHandle
              && db'.chats.Keys == db.chats.Keys && (forall g :: g in db.chats && g != m.chat ==> db'.chats[g] == db.chats[g])
              && var c, c' := db.chats[m.chat], db'.chats[m.chat];
                 && c' == c.(preview := c'.preview, lastDate := c'.lastDate, unread := c'.unread)
                 && c'.preview == m.text && c'.unread == c.unread + (if m.isFromMe then 0 else 1)
                 && c'.lastDate >= c.lastDate && c'.lastDate >= m.date && (c'.lastDate == c.lastDate || c'.lastDate == m.date)
            else db' == db
  {
    if MessageFits(db, m) { InsertMessageRows(db, guid, m); }
  }

  /** Exactly the unread received rows of the chat take the date; its count is nothing, and all else stays. */
  lemma MarkReadExactly(db: Db, chat: string, now: int)
    ensures var db' := MarkRead(db, chat, now);
            && db' == db.(messages := db'.messages, chats := db'.chats)
            && db'.messages.Keys == db.messages.Keys && db'.chats.Keys == db.chats.Keys
            && (forall g :: g in db.messages ==>
                  var m := db.messages[g];
                  db'.messages[g] == if m.chat == chat && !m.isFromMe && m.dateRead == 0 then m.(dateRead := now) else m)
            && (forall g :: g in db.chats ==> db'.chats[g] == if g == chat then db.chats[g].(unread := 0) else db.chats[g])
  {
  }

  /** An edit sets text and date of its row, an unsend empties it and says so, and neither touches anything else. */
  lemma TextUpdatesExactly(db: Db, guid: string, text: string, now: int)
    ensures var edited, unsent := EditMessage(db, guid, text, now), UnsendMessage(db, guid);
            && edited == db.(messages := edited.messages) && unsent == db.(messages := unsent.messages)
            && edited.messages.Keys == db.messages.Keys == unsent.messages.Keys
            && (forall g :: g in db.messages && g != guid ==> edited.messages[g] == db.messages[g] == unsent.messages[g])
            && (guid in db.messages ==>
                  && edited.messages[guid].text == text && edited.messages[guid].dateEdited == now
                  && unsent.messages[guid].text == "" && unsent.messages[guid].isUnsent
                  && var m := db.messages[guid];
                     && edited.messages[guid].(text := m.text, dateEdited := m.dateEdited) == m
                     && unsent.messages[guid].(text := m.text, isUnsent := m.isUnsent) == m)
  {
  }

  /** The new reaction is there, last; what it replaces is gone, everything else stays. */
  lemma AddReactionExactly(db: Db, r: Reaction)
    ensures var db' := AddReaction(db, r);
            && db' == db.(reactions := db'.reactions)
            && (r.message !in db.messages ==> db' == db)
            && (r.message in db.messages ==>
                  && db'.reactions != [] && db'.reactions[|db'.reactions| - 1] == r
                  && forall x :: x in db'.reactions <==>
                       x == r || (x in db.reactions
                                  && !(x.message == r.message && x.kind == r.kind && x.handle.Some? && x.handle == r.handle)))
  {
    if r.message in db.messages {
      assert AddReaction(db, r).reactions == ReactionsReplaced(db.reactions, r) + [r];
    }
  }

  /** The attachment is stored under its guid, its message is flagged, and nothing else changes. */
  lemma InsertAttachmentExactly(db: Db, guid: string, a: Attachment)
    ensures var db' := InsertAttachment(db, guid, a);
            && (a.message !in db.messages ==> db' == db)
            && (a.message in db.messages ==>
                  && db' == db.(attachments := db'.attachments, messages := db'.messages)
                  && db'.attachments == db.attachments[guid := a]
                  && db'.messages.Keys == db.messages.Keys
                  && (forall g :: g in db.messages && g != a.message ==> db'.messages[g] == db.messages[g])
                  && db'.messages[a.message] == db.messages[a.message].(hasAttachments := true))
  {
  }
}
