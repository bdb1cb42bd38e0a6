/**
 Storing one received message (rust/src/receive.rs, store_message), and why a
 chat's stored participants always lead back to the chat.
 */
module Receive {
  import opened Wrappers
  import opened ChatGuids
  import opened Tables
  import opened Events
  import StorageObject

  datatype Conversation = Conversation(participants: seq<string>, name: Option<string>)

  datatype Incoming = Incoming(
    id: string,
    conversation: Option<Conversation>,
    isSms: bool,
    sender: Option<string>,
    sentMs: nat,
    text: string,
    hasAttachments: bool)

  datatype Stored = Stored(db: Db, result: Outcome, events: seq<Event>)

  function OrEmpty(s: Option<string>): string {
    match s
    case None => ""
    case Some(t) => t
  }

  function ServiceOf(isImessage: bool): string {
    if isImessage then IMESSAGE else SMS
  }

  function RowOf(inst: Incoming, chat: string, handle: Option<nat>): Message {
    Message(chat, handle, inst.text, "", false, inst.sentMs / 1000, 0, 0, false, inst.hasAttachments, "")
  }

  /** The loop that turns participants into handles; calls is how many storage calls still succeed. */
  function UpsertAll(db: Db, ps: seq<string>, service: string, now: int, calls: nat, ids: seq<nat>): (Db, seq<nat>,
                     Option<nat>)
    decreases |ps|
  {
    if ps == [] then (db, ids, Some(calls))
    else if calls == 0 then (db, ids, None)
    else
      var (db', id) := UpsertHandle(db, ps[0], service, "", now);
      UpsertAll(db', ps[1..], service, now, calls - 1, ids + [id])
  }

  /**
   The whole of store_message. Any storage call may be the one that fails: calls is
   the number of calls that succeed before it, and everything after is skipped.
   */
  function StoreMessage(lower: string -> string, db: Db, inst: Incoming, now: int, calls: nat): Stored {
    match inst.conversation
    case None => Stored(db, Err, [])
    case Some(conv) =>
      StoreIn(db, inst, conv, ChatGuidFor(lower, conv.participants, !inst.isSms), ServiceOf(!inst.isSms), now, calls)
  }

  /** The chat row and a handle for every participant. */
  function StoreIn(db: Db, inst: Incoming, conv: Conversation, guid: string, service: string, now: int,
                   calls: nat): Stored {
    if calls == 0 then Stored(db, Err, [])
    else
      var db1 := UpsertChat(db, guid, OrEmpty(conv.name), service, |conv.participants| > 2, now);
      var (db2, ids, left) := UpsertAll(db1, conv.participants, service, now, calls - 1, []);
      Enroll(db2, ids, left, inst, guid, service, now)
  }

  /** The participants' rows. */
  function Enroll(db: Db, ids: seq<nat>, left: Option<nat>, inst: Incoming, guid: string, service: string,
                  now: int): Stored {
    if left.None? || left.value == 0 || !MembersFit(db, guid, ids) then Stored(db, Err, [])
    else StoreRow(SetParticipants(db, guid, ids), inst, guid, service, now, left.value - 1)
  }

  /** From the sender's handle on. */
  function StoreRow(db: Db, inst: Incoming, guid: string, service: string, now: int, calls: nat): Stored {
    var sender := OrEmpty(inst.sender);
    if sender == "" then Announce(db, inst, guid, None, calls)
    else if calls == 0 then Stored(db, Err, [])
    else
      var (db', id) := UpsertHandle(db, sender, service, "", now);
      Announce(db', inst, guid, Some(id), calls - 1)
  }

  function Announce(db: Db, inst: Incoming, guid: string, handle: Option<nat>, calls: nat): Stored {
    var row := RowOf(inst, guid, handle);
    if calls == 0 || !MessageFits(db, row) then Stored(db, Err, [])
    else Stored(Tables.InsertMessage(db, inst.id, row), Ok, [MessageArrived(guid, inst.id)])
  }

  /** store_message on the storage object, one call after another. */
  method Store(lower: string -> string, store: StorageObject.Storage, inst: Incoming, now: int, calls: nat)
    returns (result: Outcome, events: seq<Event>)
    modifies store
    ensures Stored(store.Db(), result, events) == StoreMessage(lower, old(store.Db()), inst, now, calls)
  {
    if inst.conversation.None? { return Err, []; }
    var conversation := inst.conversation.value;
    var guid := ComputeChatGuid(lower, conversation.participants, !inst.isSms);
    var service := if !inst.isSms then IMESSAGE else SMS;
    result, events := StoreConversation(store, inst, conversation, guid, service, now, calls);
  }

  method StoreConversation(store: StorageObject.Storage, inst: Incoming, conversation: Conversation, guid: string,
                           service: string,
                           now: int, calls: nat)
    returns (result: Outcome, events: seq<Event>)
    modifies store
    ensures Stored(store.Db(), result, events) == StoreIn(old(store.Db()), inst, conversation, guid, service, now, calls)
  {
    hide UpsertChat, UpsertHandle, StoreRow;
    if calls == 0 { return Err, []; }
    store.UpsertChat(guid, OrEmpty(conversation.name), service, |conversation.participants| > 2, now);

    ghost var db1 := store.Db();
    var left := calls - 1;
    var ids := [];
    for i := 0 to |conversation.participants|
      invariant 0 <= left
      invariant UpsertAll(db1, conversation.participants, service, now, calls - 1, [])
                == UpsertAll(store.Db(), conversation.participants[i..], service, now, left, ids)
    {
      if left == 0 { return Err, []; }
      var id := store.UpsertHandle(conversation.participants[i], service, "", now);
      left := left - 1;
      ids := ids + [id];
    }

    if left == 0 { return Err, []; }
    var replaced := store.SetChatParticipants(guid, ids);
    if replaced == Err { return Err, []; }
    result, events := FinishStore(store, inst, guid, service, now, left - 1);
  }

  /** The last part of store_message: the sender's handle, the row, the announcement. */
  method FinishStore(store: StorageObject.Storage, inst: Incoming, guid: string, service: string, now: int, calls: nat)
    returns (result: Outcome, events: seq<Event>)
    modifies store
    ensures Stored(store.Db(), result, events) == StoreRow(old(store.Db()), inst, guid, service, now, calls)
  {
    var left := calls;
    var sender := OrEmpty(inst.sender);
    var handle: Option<nat> := None;
    if sender != "" {
      if left == 0 { return Err, []; }
      var id := store.UpsertHandle(sender, service, "", now);
      left := left - 1;
      handle := Some(id);
    }
    if left == 0 { return Err, []; }
    var row := RowOf(inst, guid, handle);
    var inserted := store.InsertMessage(inst.id, row);
    if inserted == Err { return Err, []; }
    return Ok, [MessageArrived(guid, inst.id)];
  }

  // ---------------------------------------------------------------- coherence

  /** The addresses stored for a chat, as a set. */
  function MemberAddresses(db: Db, guid: string): set<string> {
    set id | id in db.handles && (guid, id) in db.members :: db.handles[id].address
  }

  /** The chat's stored participants regenerate its guid. */
  predicate Coherent(lower: string -> string, db: Db, guid: string)
    requires guid in db.chats
  {
    ChatGuidFor(lower, ParticipantAddresses(db, guid), db.chats[guid].service == IMESSAGE) == guid
  }

  lemma AddressesAsSet(db: Db, guid: string)
    requires HandlesOk(db)
    ensures Elements(ParticipantAddresses(db, guid)) == MemberAddresses(db, guid)
  {
    var ids := MemberIds(db, guid, 0);
    var addresses := AddressesOf(db.handles, ids);
    SortSorts(addresses);
    forall a ensures a in Sort(addresses) <==> a in MemberAddresses(db, guid) {
      assert a in Sort(addresses) <==> a in multiset(Sort(addresses));
      assert a in addresses <==> a in multiset(addresses);
      if a in MemberAddresses(db, guid) {
        var id :| id in db.handles && (guid, id) in db.members && db.handles[id].address == a;
        assert id in ids;
        var k :| 0 <= k < |ids| && ids[k] == id;
        assert addresses[k] == a;
      }
      if a in addresses {
        var k :| 0 <= k < |addresses| && addresses[k] == a;
        assert ids[k] in ids;
      }
    }
  }

  /** The ids of a chat's members, as a set. */
  function MemberSet(db: Db, guid: string): set<nat> {
    set id | id in db.handles && (guid, id) in db.members
  }

  function From(ids: set<nat>, from: nat): set<nat> {
    set id | id in ids && id >= from
  }

  lemma FromOneMore(ids: set<nat>, from: nat)
    ensures |From(ids, from)| == |From(ids, from + 1)| + if from in ids then 1 else 0
  {
    if from in ids {
      assert From(ids, from) == From(ids, from + 1) + {from};
    } else {
      assert From(ids, from) == From(ids, from + 1);
    }
  }

  lemma {:induction false} MemberIdsCount(db: Db, guid: string, from: nat)
    requires HandlesOk(db)
    ensures |MemberIds(db, guid, from)| == |From(MemberSet(db, guid), from)|
    decreases db.nextHandle - from
  {
    hide From;
    if from >= db.nextHandle {
      NoneFrom(db, guid, from);
    } else {
      MemberIdsCount(db, guid, from + 1);
      FromOneMore(MemberSet(db, guid), from);
    }
  }

  lemma NoneFrom(db: Db, guid: string, from: nat)
    requires HandlesOk(db) && from >= db.nextHandle
    ensures |From(MemberSet(db, guid), from)| == 0
  {
    assert From(MemberSet(db, guid), from) == {};
  }

  /** The stored participants: one address a member, in order. */
  lemma ParticipantAddressesExactly(db: Db, guid: string)
    requires HandlesOk(db)
    ensures var addresses := ParticipantAddresses(db, guid);
            && Sorted(addresses) && Elements(addresses) == MemberAddresses(db, guid)
            && |addresses| == |MemberSet(db, guid)|
  {
    AddressesAsSet(db, guid);
    MemberIdsCount(db, guid, 0);
    assert From(MemberSet(db, guid), 0) == MemberSet(db, guid);
    var addresses := AddressesOf(db.handles, MemberIds(db, guid, 0));
    SortSorts(addresses);
    assert |multiset(Sort(addresses))| == |multiset(addresses)|;
  }

  lemma PeopleOf(lower: string -> string, a: seq<string>, b: seq<string>)
    requires Elements(a) == Elements(b)
    ensures People(lower, a) == People(lower, b)
  {
    PeopleWithin(lower, a, b);
    PeopleWithin(lower, b, a);
  }

  lemma PeopleWithin(lower: string -> string, a: seq<string>, b: seq<string>)
    requires Elements(a) == Elements(b)
    ensures People(lower, a) <= People(lower, b)
  {
    forall x | x in People(lower, a) ensures x in People(lower, b) {
      var i :| 0 <= i < |a| && LowerAll(lower, a)[i] == x;
      assert a[i] in Elements(b);
      var j :| 0 <= j < |b| && b[j] == a[i];
      assert LowerAll(lower, b)[j] == x;
    }
  }

  /** Coherence only depends on the set of stored addresses. */
  lemma CoherentVia(lower: string -> string, db: Db, guid: string, ps: seq<string>)
    requires HandlesOk(db) && guid in db.chats && Elements(ps) == MemberAddresses(db, guid)
    ensures Coherent(lower, db, guid) <==> ChatGuidFor(lower, ps, db.chats[guid].service == IMESSAGE) == guid
  {
    AddressesAsSet(db, guid);
    PeopleOf(lower, ps, ParticipantAddresses(db, guid));
    SamePeopleSameGuid(lower, ps, ParticipantAddresses(db, guid), db.chats[guid].service == IMESSAGE);
  }

  /** What a chat's coherence rests on is the same in both states. */
  predicate KeepsChat(db: Db, db': Db, guid: string)
    requires guid in db.chats && guid in db'.chats
  {
    && (db.chats[guid].service == IMESSAGE) == (db'.chats[guid].service == IMESSAGE)
    && MemberAddresses(db, guid) == MemberAddresses(db', guid)
  }

  lemma KeepsCoherence(lower: string -> string, db: Db, db': Db, guid: string)
    requires HandlesOk(db) && HandlesOk(db') && guid in db.chats && guid in db'.chats && KeepsChat(db, db', guid)
    ensures Coherent(lower, db, guid) <==> Coherent(lower, db', guid)
  {
    AddressesAsSet(db, guid);
    CoherentVia(lower, db', guid, ParticipantAddresses(db, guid));
  }

  /** No participants are stored for the chat yet. */
  predicate Unfilled(db: Db, guid: string) {
    MemberAddresses(db, guid) == {}
  }

  predicate CoherentOrUnfilled(lower: string -> string, db: Db, guid: string)
    requires guid in db.chats
  {
    Coherent(lower, db, guid) || Unfilled(db, guid)
  }

  /** From db to db' no chat vanishes, coherent chats stay so, and the rest is at worst still unfilled. */
  predicate Follows(lower: string -> string, db: Db, db': Db) {
    && KeepsHandles(db, db')
    && db.chats.Keys <= db'.chats.Keys
    && (forall g :: g in db.chats && Coherent(lower, db, g) ==> Coherent(lower, db', g))
    && (forall g :: g in db'.chats && (g in db.chats ==> Unfilled(db, g)) ==> CoherentOrUnfilled(lower, db', g))
  }

  lemma FollowsTransitive(lower: string -> string, a: Db, b: Db, c: Db)
    requires Follows(lower, a, b) && Follows(lower, b, c)
    ensures Follows(lower, a, c)
  {
    forall g | g in c.chats && (g in a.chats ==> Unfilled(a, g)) ensures CoherentOrUnfilled(lower, c, g) {
      if g in b.chats { assert CoherentOrUnfilled(lower, b, g); }
    }
  }

  // ---------------------------------------------------------------- statements that touch no identity

  /** Participants, addresses and transports are left alone. */
  predicate SameIdentity(db: Db, db': Db) {
    && db'.members == db.members
    && db'.chats.Keys == db.chats.Keys
    && (forall g :: g in db.chats ==> db'.chats[g].service == db.chats[g].service)
    && KeepsHandles(db, db')
  }

  lemma SameIdentityTransitive(a: Db, b: Db, c: Db)
    requires SameIdentity(a, b) && SameIdentity(b, c)
    ensures SameIdentity(a, c)
  {
  }

  /** New handles and renamed ones change no chat's addresses. */
  lemma GrowingHandlesKeepsAddresses(db: Db, db': Db, guid: string)
    requires MembersOk(db) && SameIdentity(db, db')
    ensures MemberAddresses(db', guid) == MemberAddresses(db, guid)
  {
  }

  lemma SameIdentityFollows(lower: string -> string, db: Db, db': Db)
    requires Valid(db) && Valid(db') && SameIdentity(db, db')
    ensures Follows(lower, db, db')
  {
    forall g | g in db.chats
      ensures Coherent(lower, db', g) == Coherent(lower, db, g) && Unfilled(db', g) == Unfilled(db, g)
    {
      GrowingHandlesKeepsAddresses(db, db', g);
      KeepsCoherence(lower, db, db', g);
    }
  }

  lemma FollowsItself(lower: string -> string, db: Db)
    requires Valid(db)
    ensures Follows(lower, db, db)
  {
    SameIdentityFollows(lower, db, db);
  }

  lemma UpsertHandleIdentity(db: Db, address: string, service: string, name: string, now: int)
    requires Valid(db)
    ensures SameIdentity(db, UpsertHandle(db, address, service, name, now).0)
  {
    UpsertHandleKeepsValid(db, address, service, name, now);
  }

  lemma InsertMessageIdentity(db: Db, guid: string, m: Message)
    ensures SameIdentity(db, Tables.InsertMessage(db, guid, m))
  {
    if MessageFits(db, m) {
      var cleared, db' := DeleteMessage(db, guid), Tables.InsertMessage(db, guid, m);
      assert cleared.chats == db.chats && cleared.members == db.members && cleared.handles == db.handles;
      assert db'.members == db.members && db'.handles == db.handles;
      assert db'.chats == cleared.chats[m.chat := ChatAfter(cleared.chats[m.chat], m)];
    }
  }

  lemma AnnounceKeeps(db: Db, inst: Incoming, guid: string, handle: Option<nat>, calls: nat)
    requires Valid(db)
    ensures Valid(Announce(db, inst, guid, handle, calls).db)
    ensures SameIdentity(db, Announce(db, inst, guid, handle, calls).db)
  {
    InsertMessageKeepsValid(db, inst.id, RowOf(inst, guid, handle));
    InsertMessageIdentity(db, inst.id, RowOf(inst, guid, handle));
  }

  /** From the sender's handle on nothing touches an identity. */
  lemma StoreRowKeeps(db: Db, inst: Incoming, guid: string, service: string, now: int, calls: nat)
    requires Valid(db)
    ensures Valid(StoreRow(db, inst, guid, service, now, calls).db)
    ensures SameIdentity(db, StoreRow(db, inst, guid, service, now, calls).db)
  {
    var sender := OrEmpty(inst.sender);
    if sender == "" {
      AnnounceKeeps(db, inst, guid, None, calls);
    } else if calls > 0 {
      var (db', id) := UpsertHandle(db, sender, service, "", now);
      UpsertHandleKeepsValid(db, sender, service, "", now);
      UpsertHandleIdentity(db, sender, service, "", now);
      AnnounceKeeps(db', inst, guid, Some(id), calls - 1);
      SameIdentityTransitive(db, db', Announce(db', inst, guid, Some(id), calls - 1).db);
    }
  }

  lemma {:induction false} UpsertAllKeeps(db: Db, ps: seq<string>, service: string, now: int, calls: nat, ids: seq<nat>)
    requires Valid(db)
    ensures Valid(UpsertAll(db, ps, service, now, calls, ids).0)
    ensures SameIdentity(db, UpsertAll(db, ps, service, now, calls, ids).0)
    ensures UpsertAll(db, ps, service, now, calls, ids).0.chats == db.chats
    decreases |ps|
  {
    if ps != [] && calls > 0 {
      var (db1, id) := UpsertHandle(db, ps[0], service, "", now);
      UpsertHandleKeepsValid(db, ps[0], service, "", now);
      UpsertHandleIdentity(db, ps[0], service, "", now);
      UpsertAllKeeps(db1, ps[1..], service, now, calls - 1, ids + [id]);
      SameIdentityTransitive(db, db1, UpsertAll(db, ps, service, now, calls, ids).0);
    }
  }

  /** An id stands for an address. */
  predicate StandsFor(db: Db, ids: seq<nat>, ps: seq<string>) {
    |ids| == |ps| && forall k :: 0 <= k < |ps| ==> ids[k] in db.handles && db.handles[ids[k]].address == ps[k]
  }

  /** The ids collected stand for the participants, in order. */
  lemma {:induction false} UpsertAllIds(db: Db, done: seq<string>, ps: seq<string>, service: string, now: int,
                                        calls: nat, ids: seq<nat>)
    requires Valid(db) && StandsFor(db, ids, done)
    ensures var (db', ids', left) := UpsertAll(db, ps, service, now, calls, ids);
            && (left.Some? ==> StandsFor(db', ids', done + ps))
            && left == if calls >= |ps| then Some(calls - |ps|) else None
    decreases |ps|
  {
    if ps == [] {
      assert done + ps == done;
    } else if calls > 0 {
      UpsertHandleKeepsValid(db, ps[0], service, "", now);
      var (db1, id) := UpsertHandle(db, ps[0], service, "", now);
      UpsertAllIds(db1, done + [ps[0]], ps[1..], service, now, calls - 1, ids + [id]);
      assert done + [ps[0]] + ps[1..] == done + ps;
    }
  }

  // ---------------------------------------------------------------- statements that set an identity

  /** After the replacement the chat's addresses are the ones the ids stand for. */
  lemma SetParticipantsAddresses(db: Db, guid: string, ids: seq<nat>, ps: seq<string>)
    requires MembersFit(db, guid, ids) && StandsFor(db, ids, ps)
    ensures MemberAddresses(SetParticipants(db, guid, ids), guid) == Elements(ps)
    ensures forall g :: g != guid ==> MemberAddresses(SetParticipants(db, guid, ids), g) == MemberAddresses(db, g)
  {
    var db' := SetParticipants(db, guid, ids);
    forall a ensures a in MemberAddresses(db', guid) <==> a in ps {
      if a in ps {
        var k :| 0 <= k < |ps| && ps[k] == a;
        assert (guid, ids[k]) in db'.members;
      }
      if a in MemberAddresses(db', guid) {
        var id :| id in db'.handles && (guid, id) in db'.members && db'.handles[id].address == a;
        var k :| 0 <= k < |ids| && ids[k] == id;
        assert ps[k] == a;
      }
    }
    forall g | g != guid ensures MemberAddresses(db', g) == MemberAddresses(db, g) {
      forall id ensures (g, id) in db'.members <==> (g, id) in db.members {}
    }
  }

  /** A guid computed from participants fixes the transport. */
  lemma GuidFixesTransport(lower: string -> string, a: seq<string>, f: bool, b: seq<string>, g: bool)
    requires ChatGuidFor(lower, a, f) == ChatGuidFor(lower, b, g)
    ensures f == g
  {
    PrefixesDiffer(Join(Canonical(LowerAll(lower, a))), Join(Canonical(LowerAll(lower, b))), f, g);
  }

  /** Upserting the chat of some participants cannot move a coherent chat to the other transport. */
  lemma UpsertChatFollows(lower: string -> string, db: Db, ps: seq<string>, guid: string, service: string, title: string,
                          isGroup: bool, now: int)
    requires Valid(db) && guid == ChatGuidFor(lower, ps, service == IMESSAGE)
    ensures Follows(lower, db, UpsertChat(db, guid, title, service, isGroup, now))
  {
    var db' := UpsertChat(db, guid, title, service, isGroup, now);
    UpsertChatKeepsValid(db, guid, title, service, isGroup, now);
    assert forall g :: MemberAddresses(db', g) == MemberAddresses(db, g);
    forall g | g in db.chats && Coherent(lower, db, g) ensures Coherent(lower, db', g) {
      if g == guid {
        GuidFixesTransport(lower, ParticipantAddresses(db, g), db.chats[g].service == IMESSAGE, ps, service == IMESSAGE);
      }
      KeepsCoherence(lower, db, db', g);
    }
    NewChatIsUnfilled(db, guid);
  }

  lemma NewChatIsUnfilled(db: Db, guid: string)
    requires MembersOk(db)
    ensures guid in db.chats || Unfilled(db, guid)
  {
  }

  /** Replacing the participants makes the chat coherent and leaves the others as they were. */
  lemma SetParticipantsFollows(lower: string -> string, db: Db, guid: string, ids: seq<nat>, ps: seq<string>)
    requires Valid(db) && guid in db.chats && MembersFit(db, guid, ids) && StandsFor(db, ids, ps)
    requires guid == ChatGuidFor(lower, ps, db.chats[guid].service == IMESSAGE)
    ensures Follows(lower, db, SetParticipants(db, guid, ids)) && Coherent(lower, SetParticipants(db, guid, ids), guid)
  {
    var db' := SetParticipants(db, guid, ids);
    SetParticipantsKeepsValid(db, guid, ids);
    SetParticipantsAddresses(db, guid, ids, ps);
    CoherentVia(lower, db', guid, ps);
    forall g | g in db.chats && g != guid
      ensures Coherent(lower, db', g) == Coherent(lower, db, g) && Unfilled(db', g) == Unfilled(db, g)
    {
      KeepsCoherence(lower, db, db', g);
    }
  }

  // ---------------------------------------------------------------- the whole of store_message

  lemma EnrollKeepsValid(db: Db, ids: seq<nat>, left: Option<nat>, inst: Incoming, guid: string, service: string,
                         now: int)
    requires Valid(db)
    ensures Valid(Enroll(db, ids, left, inst, guid, service, now).db)
    ensures Enroll(db, ids, left, inst, guid, service, now).db.chats.Keys == db.chats.Keys
  {
    SetParticipantsKeepsValid(db, guid, ids);
    if left.Some? && left.value > 0 { StoreRowKeeps(SetParticipants(db, guid, ids), inst, guid, service, now, left.value - 1); }
  }

  lemma ThenSameIdentity(lower: string -> string, a: Db, b: Db, c: Db, guid: string)
    requires Valid(b) && Valid(c) && SameIdentity(b, c)
    requires Follows(lower, a, b) && guid in b.chats && Coherent(lower, b, guid)
    ensures Follows(lower, a, c) && Coherent(lower, c, guid)
  {
    SameIdentityFollows(lower, b, c);
    FollowsTransitive(lower, a, b, c);
  }

  lemma EnrollFollows(lower: string -> string, db: Db, ids: seq<nat>, left: Option<nat>, inst: Incoming, guid: string,
                      service: string,
                      now: int, ps: seq<string>)
    requires Valid(db) && guid in db.chats && guid == ChatGuidFor(lower, ps, db.chats[guid].service == IMESSAGE)
    requires left.Some? ==> StandsFor(db, ids, ps)
    ensures var r := Enroll(db, ids, left, inst, guid, service, now);
            Follows(lower, db, r.db) && (r.result == Ok ==> Coherent(lower, r.db, guid))
  {
    hide ChatGuidFor, StoreRow, SetParticipants, Coherent, Follows, SameIdentity, Valid, StandsFor;
    if left.Some? && left.value > 0 && MembersFit(db, guid, ids) {
      var db' := SetParticipants(db, guid, ids);
      var r := StoreRow(db', inst, guid, service, now, left.value - 1);
      SetParticipantsKeepsValid(db, guid, ids);
      SetParticipantsFollows(lower, db, guid, ids, ps);
      StoreRowKeeps(db', inst, guid, service, now, left.value - 1);
      ThenSameIdentity(lower, db, db', r.db, guid);
    } else {
      FollowsItself(lower, db);
    }
  }

  /**
   Storing keeps every table invariant, between whichever storage calls it is cut off, and opens at most
   the message's own chat.
   */
  lemma StoreKeepsValid(lower: string -> string, db: Db, inst: Incoming, now: int, calls: nat)
    requires Valid(db)
    ensures var r := StoreMessage(lower, db, inst, now, calls).db;
            && Valid(r)
            && r.chats.Keys <= db.chats.Keys
               + match inst.conversation case None => {} case Some(conv) => {ChatGuidFor(lower, conv.participants, !inst.isSms)}
  {
    if inst.conversation.Some? {
      var conv := inst.conversation.value;
      StoreInKeepsValid(db, inst, conv, ChatGuidFor(lower, conv.participants, !inst.isSms), ServiceOf(!inst.isSms), now, calls);
    }
  }

  lemma StoreInKeepsValid(db: Db, inst: Incoming, conv: Conversation, guid: string, service: string, now: int, calls: nat)
    requires Valid(db)
    ensures Valid(StoreIn(db, inst, conv, guid, service, now, calls).db)
    ensures StoreIn(db, inst, conv, guid, service, now, calls).db.chats.Keys <= db.chats.Keys + {guid}
  {
    if calls > 0 {
      var db1 := UpsertChat(db, guid, OrEmpty(conv.name), service, |conv.participants| > 2, now);
      UpsertChatKeepsValid(db, guid, OrEmpty(conv.name), service, |conv.participants| > 2, now);
      UpsertAllKeeps(db1, conv.participants, service, now, calls - 1, []);
      var (db2, ids, left) := UpsertAll(db1, conv.participants, service, now, calls - 1, []);
      EnrollKeepsValid(db2, ids, left, inst, guid, service, now);
    }
  }

  lemma StoreInFollows(lower: string -> string, db: Db, inst: Incoming, conv: Conversation, guid: string, service: string,
                       now: int, calls: nat)
    requires Valid(db) && guid == ChatGuidFor(lower, conv.participants, service == IMESSAGE)
    ensures var r := StoreIn(db, inst, conv, guid, service, now, calls);
            Follows(lower, db, r.db) && (r.result == Ok ==> guid in r.db.chats && Coherent(lower, r.db, guid))
  {
    hide ChatGuidFor, Enroll, Coherent, UpsertAll, StandsFor, CoherentOrUnfilled, Follows, SameIdentity, Valid;
    if calls > 0 {
      var ps := conv.participants;
      var db1 := UpsertChat(db, guid, OrEmpty(conv.name), service, |ps| > 2, now);
      UpsertChatKeepsValid(db, guid, OrEmpty(conv.name), service, |ps| > 2, now);
      UpsertChatFollows(lower, db, ps, guid, service, OrEmpty(conv.name), |ps| > 2, now);
      UpsertAllKeeps(db1, ps, service, now, calls - 1, []);
      UpsertAllIds(db1, [], ps, service, now, calls - 1, []);
      assert [] + ps == ps;
      var (db2, ids, left) := UpsertAll(db1, ps, service, now, calls - 1, []);
      SameIdentityFollows(lower, db1, db2);
      FollowsTransitive(lower, db, db1, db2);
      EnrollKeepsValid(db2, ids, left, inst, guid, service, now);
      EnrollFollows(lower, db2, ids, left, inst, guid, service, now, ps);
      FollowsTransitive(lower, db, db2, StoreIn(db, inst, conv, guid, service, now, calls).db);
    } else {
      FollowsItself(lower, db);
    }
  }

  predicate StoredCoherently(lower: string -> string, db: Db, inst: Incoming) {
    && inst.conversation.Some?
    && var guid := ChatGuidFor(lower, inst.conversation.value.participants, !inst.isSms);
       guid in db.chats && Coherent(lower, db, guid)
  }

  /**
   Between whichever storage calls it is cut off, coherent chats stay coherent; once it succeeds the
   message's chat is coherent.
   */
  lemma StoreCoherence(lower: string -> string, db: Db, inst: Incoming, now: int, calls: nat)
    requires Valid(db)
    ensures var r := StoreMessage(lower, db, inst, now, calls);
            && Follows(lower, db, r.db)
            && (r.result == Ok ==> StoredCoherently(lower, r.db, inst))
  {
    if inst.conversation.Some? {
      var conv := inst.conversation.value;
      var guid := ChatGuidFor(lower, conv.participants, !inst.isSms);
      StoreInFollows(lower, db, inst, conv, guid, ServiceOf(!inst.isSms), now, calls);
    } else {
      FollowsItself(lower, db);
    }
  }

  /** The handle of a row is its sender's, or none for an unknown sender. */
  predicate SentBy(db: Db, handle: Option<nat>, sender: string) {
    if sender == "" then handle.None?
    else handle.Some? && handle.value in db.handles && db.handles[handle.value].address == sender
  }

  /** What an announced message is: one event, and its own row, in its chat, under its sender. */
  predicate Announced(r: Stored, inst: Incoming, guid: string) {
    && r.events == [MessageArrived(guid, inst.id)]
    && inst.id in r.db.messages
    && var row := r.db.messages[inst.id];
       row == RowOf(inst, guid, row.handle) && SentBy(r.db, row.handle, OrEmpty(inst.sender))
  }

  /** A message is announced, once and after its row is in, exactly when storing it succeeds. */
  lemma StoredExactlyWhenAnnounced(lower: string -> string, db: Db, inst: Incoming, now: int, calls: nat)
    ensures var r := StoreMessage(lower, db, inst, now, calls);
            if r.result == Ok
            then inst.conversation.Some?
                 && Announced(r, inst, ChatGuidFor(lower, inst.conversation.value.participants, !inst.isSms))
            else r.events == []
  {
    if inst.conversation.Some? {
      var conv := inst.conversation.value;
      StoreInAnnounces(db, inst, conv, ChatGuidFor(lower, conv.participants, !inst.isSms), ServiceOf(!inst.isSms), now, calls);
    }
  }

  lemma StoreInAnnounces(db: Db, inst: Incoming, conv: Conversation, guid: string, service: string, now: int, calls: nat)
    ensures var r := StoreIn(db, inst, conv, guid, service, now, calls);
            if r.result == Ok then Announced(r, inst, guid) else r.events == []
  {
    if calls > 0 {
      var db1 := UpsertChat(db, guid, OrEmpty(conv.name), service, |conv.participants| > 2, now);
      var (db2, ids, left) := UpsertAll(db1, conv.participants, service, now, calls - 1, []);
      if left.Some? && left.value > 0 {
        StoreRowAnnounces(SetParticipants(db2, guid, ids), inst, guid, service, now, left.value - 1);
      }
    }
  }

  lemma StoreRowAnnounces(db: Db, inst: Incoming, guid: string, service: string, now: int, calls: nat)
    ensures var r := StoreRow(db, inst, guid, service, now, calls);
            if r.result == Ok then Announced(r, inst, guid) else r.events == []
  {
    var sender := OrEmpty(inst.sender);
    if sender == "" {
      AnnounceInserts(db, inst, guid, None, calls);
    } else if calls > 0 {
      var (db', id) := UpsertHandle(db, sender, service, "", now);
      AnnounceInserts(db', inst, guid, Some(id), calls - 1);
    }
  }

  lemma AnnounceInserts(db: Db, inst: Incoming, guid: string, handle: Option<nat>, calls: nat)
    requires SentBy(db, handle, OrEmpty(inst.sender))
    ensures var r := Announce(db, inst, guid, handle, calls);
            if r.result == Ok then Announced(r, inst, guid) else r.events == []
  {
    var row := RowOf(inst, guid, handle);
    if MessageFits(db, row) {
      assert Tables.InsertMessage(db, inst.id, row).messages[inst.id] == row;
      assert Tables.InsertMessage(db, inst.id, row).handles == db.handles;
    }
  }

  // ---------------------------------------------------------------- what storing leaves alone

  /** No handle has a display name: store_message, which alone writes handles, gives none. */
  predicate AnonymousOk(db: Db) {
    HandlesOk(db) && forall i :: i in db.handles ==> db.handles[i].displayName == ""
  }

  /** Old handle rows survive an upsert without a name, if they had none. */
  predicate KeepsAnonymous(db: Db, db': Db) {
    AnonymousOk(db) ==> AnonymousOk(db') && KeepsHandleRows(db, db')
  }

  /** Messages and counts are left alone. */
  ghost predicate Untouched(db: Db, db': Db) {
    KeepsAnonymous(db, db') && db'.messages == db.messages && forall g :: UnreadOf(db', g) == UnreadOf(db, g)
  }

  /** One more row, counted in its chat. */
  ghost predicate TakesRow(db: Db, db': Db, inst: Incoming, guid: string) {
    && inst.id in db'.messages && db'.messages == db.messages[inst.id := db'.messages[inst.id]]
    && db'.messages[inst.id] == RowOf(inst, guid, db'.messages[inst.id].handle)
    && forall g :: UnreadOf(db', g) == UnreadOf(db, g) + if g == guid then 1 else 0
  }

  /** Success takes the row in, failure leaves messages and counts alone, and neither renames a handle. */
  ghost predicate Delivers(db: Db, r: Stored, inst: Incoming, guid: string) {
    KeepsAnonymous(db, r.db) && if r.result == Ok then TakesRow(db, r.db, inst, guid) else Untouched(db, r.db)
  }

  lemma UpsertHandleUntouched(db: Db, address: string, service: string, now: int)
    ensures Untouched(db, UpsertHandle(db, address, service, "", now).0)
  {
    hide KeepsAnonymous;
    UpsertHandleAnonymous(db, address, service, now);
  }

  lemma UpsertHandleAnonymous(db: Db, address: string, service: string, now: int)
    ensures KeepsAnonymous(db, UpsertHandle(db, address, service, "", now).0)
  {
    hide HandlesFollow;
    match FindHandle(db.handles, 0, db.nextHandle, address, service) {
      case Some(id) =>
        if AnonymousOk(db) {
          assert db.handles[id].(displayName := "") == db.handles[id];
          assert UpsertHandle(db, address, service, "", now).0.handles == db.handles;
        }
      case None => if AnonymousOk(db) { NewHandleFollows(db, Handle(address, service, "", now)); }
    }
  }

  lemma {:induction false} UpsertAllUntouched(db: Db, ps: seq<string>, service: string, now: int, calls: nat,
                                              ids: seq<nat>)
    ensures Untouched(db, UpsertAll(db, ps, service, now, calls, ids).0)
    decreases |ps|
  {
    hide UpsertHandle, AnonymousOk, UnreadOf;
    if ps != [] && calls > 0 {
      var (db', id) := UpsertHandle(db, ps[0], service, "", now);
      UpsertHandleUntouched(db, ps[0], service, now);
      UpsertAllUntouched(db', ps[1..], service, now, calls - 1, ids + [id]);
    }
  }

  lemma UpsertChatUntouched(db: Db, guid: string, title: string, service: string, isGroup: bool, now: int)
    ensures Untouched(db, UpsertChat(db, guid, title, service, isGroup, now))
  {
  }

  lemma SetParticipantsUntouched(db: Db, guid: string, ids: seq<nat>)
    ensures Untouched(db, SetParticipants(db, guid, ids))
  {
  }

  lemma DeliversAfter(db: Db, db': Db, r: Stored, inst: Incoming, guid: string)
    requires Untouched(db, db') && Delivers(db', r, inst, guid)
    ensures Delivers(db, r, inst, guid)
  {
    hide AnonymousOk, UnreadOf;
  }

  lemma FailureDelivers(db: Db, inst: Incoming, guid: string)
    ensures Delivers(db, Stored(db, Err, []), inst, guid)
  {
  }

  lemma AnnounceDelivers(db: Db, inst: Incoming, guid: string, handle: Option<nat>, calls: nat)
    ensures Delivers(db, Announce(db, inst, guid, handle, calls), inst, guid)
  {
    hide Tables.InsertMessage;
    var row := RowOf(inst, guid, handle);
    if MessageFits(db, row) { InsertMessageRows(db, inst.id, row); }
  }

  lemma StoreRowDelivers(db: Db, inst: Incoming, guid: string, service: string, now: int, calls: nat)
    ensures Delivers(db, StoreRow(db, inst, guid, service, now, calls), inst, guid)
  {
    hide Announce, Delivers, UpsertHandle, Untouched;
    var sender := OrEmpty(inst.sender);
    if sender == "" {
      AnnounceDelivers(db, inst, guid, None, calls);
    } else if calls > 0 {
      var (db', id) := UpsertHandle(db, sender, service, "", now);
      UpsertHandleUntouched(db, sender, service, now);
      AnnounceDelivers(db', inst, guid, Some(id), calls - 1);
      DeliversAfter(db, db', Announce(db', inst, guid, Some(id), calls - 1), inst, guid);
    } else {
      FailureDelivers(db, inst, guid);
    }
  }

  lemma EnrollDelivers(db: Db, ids: seq<nat>, left: Option<nat>, inst: Incoming, guid: string, service: string, now: int)
    ensures Delivers(db, Enroll(db, ids, left, inst, guid, service, now), inst, guid)
  {
    hide SetParticipants, StoreRow, Delivers, Untouched;
    if left.Some? && left.value > 0 && MembersFit(db, guid, ids) {
      var db' := SetParticipants(db, guid, ids);
      SetParticipantsUntouched(db, guid, ids);
      StoreRowDelivers(db', inst, guid, service, now, left.value - 1);
      DeliversAfter(db, db', StoreRow(db', inst, guid, service, now, left.value - 1), inst, guid);
    } else {
      FailureDelivers(db, inst, guid);
    }
  }

  lemma StoreInDelivers(db: Db, inst: Incoming, conv: Conversation, guid: string, service: string, now: int, calls: nat)
    ensures Delivers(db, StoreIn(db, inst, conv, guid, service, now, calls), inst, guid)
  {
    hide UpsertChat, UpsertAll, Enroll, Delivers, Untouched;
    if calls > 0 {
      var db1 := UpsertChat(db, guid, OrEmpty(conv.name), service, |conv.participants| > 2, now);
      UpsertChatUntouched(db, guid, OrEmpty(conv.name), service, |conv.participants| > 2, now);
      UpsertAllUntouched(db1, conv.participants, service, now, calls - 1, []);
      var (db2, ids, left) := UpsertAll(db1, conv.participants, service, now, calls - 1, []);
      EnrollDelivers(db2, ids, left, inst, guid, service, now);
      DeliversAfter(db1, db2, Enroll(db2, ids, left, inst, guid, service, now), inst, guid);
      DeliversAfter(db, db1, Enroll(db2, ids, left, inst, guid, service, now), inst, guid);
    } else {
      FailureDelivers(db, inst, guid);
    }
  }

  /** The chat a message belongs to. */
  function OwnChat(lower: string -> string, inst: Incoming): string {
    match inst.conversation
    case None => ""
    case Some(conv) => ChatGuidFor(lower, conv.participants, !inst.isSms)
  }

  /** A stored message is one more row and one more unread; a failed one is neither; no handle loses a name it never had. */
  lemma StoreDelivers(lower: string -> string, db: Db, inst: Incoming, now: int, calls: nat)
    ensures Delivers(db, StoreMessage(lower, db, inst, now, calls), inst, OwnChat(lower, inst))
  {
    hide ChatGuidFor, StoreIn, Delivers;
    if inst.conversation.Some? {
      StoreInDelivers(db, inst, inst.conversation.value, OwnChat(lower, inst), ServiceOf(!inst.isSms), now, calls);
    } else {
      FailureDelivers(db, inst, OwnChat(lower, inst));
    }
  }

  // ---------------------------------------------------------------- when storing succeeds

  /** The storage calls of one message: chat, participants, their rows, the sender's handle if there is one, the message. */
  function CallsNeeded(inst: Incoming, conv: Conversation): nat {
    |conv.participants| + if OrEmpty(inst.sender) == "" then 3 else 4
  }

  /**
   A message is stored exactly when it has a conversation and none of its storage calls fails:
   no foreign key ever stands in the way.
   */
  lemma StoreSucceedsExactly(lower: string -> string, db: Db, inst: Incoming, now: int, calls: nat)
    requires Valid(db)
    ensures StoreMessage(lower, db, inst, now, calls).result == Ok <==>
            inst.conversation.Some? && calls >= CallsNeeded(inst, inst.conversation.value)
  {
    if inst.conversation.Some? {
      var conv := inst.conversation.value;
      StoreInSucceeds(db, inst, conv, ChatGuidFor(lower, conv.participants, !inst.isSms), ServiceOf(!inst.isSms), now, calls);
    }
  }

  lemma StoreInSucceeds(db: Db, inst: Incoming, conv: Conversation, guid: string, service: string, now: int, calls: nat)
    requires Valid(db)
    ensures StoreIn(db, inst, conv, guid, service, now, calls).result == Ok <==> calls >= CallsNeeded(inst, conv)
  {
    hide Valid, UpsertAll, Enroll, SameIdentity;
    if calls > 0 {
      var db1 := UpsertChat(db, guid, OrEmpty(conv.name), service, |conv.participants| > 2, now);
      UpsertChatKeepsValid(db, guid, OrEmpty(conv.name), service, |conv.participants| > 2, now);
      UpsertAllKeeps(db1, conv.participants, service, now, calls - 1, []);
      UpsertAllIds(db1, [], conv.participants, service, now, calls - 1, []);
      var (db2, ids, left) := UpsertAll(db1, conv.participants, service, now, calls - 1, []);
      EnrollSucceeds(db2, ids, left, inst, guid, service, now, [] + conv.participants);
    }
  }

  lemma EnrollSucceeds(db: Db, ids: seq<nat>, left: Option<nat>, inst: Incoming, guid: string, service: string,
                       now: int, ps: seq<string>)
    requires Valid(db) && guid in db.chats && (left.Some? ==> StandsFor(db, ids, ps))
    ensures Enroll(db, ids, left, inst, guid, service, now).result == Ok <==>
            left.Some? && left.value >= if OrEmpty(inst.sender) == "" then 2 else 3
  {
    hide Valid, StoreRow;
    SetParticipantsKeepsValid(db, guid, ids);
    if left.Some? && left.value > 0 {
      StoreRowSucceeds(SetParticipants(db, guid, ids), inst, guid, service, now, left.value - 1);
    }
  }

  lemma StoreRowSucceeds(db: Db, inst: Incoming, guid: string, service: string, now: int, calls: nat)
    requires Valid(db) && guid in db.chats
    ensures StoreRow(db, inst, guid, service, now, calls).result == Ok <==> calls >= if OrEmpty(inst.sender) == "" then 1 else 2
  {
    hide Tables.InsertMessage;
    var sender := OrEmpty(inst.sender);
    UpsertHandleKeepsValid(db, sender, service, "", now);
    UpsertHandleIdentity(db, sender, service, "", now);
  }

  /** A reply to the stored participants of a coherent chat belongs to the same chat, and opens no other. */
  lemma ReplyBelongsToTheChat(lower: string -> string, db: Db, guid: string, reply: Incoming, now: int, calls: nat)
    requires Valid(db) && guid in db.chats && Coherent(lower, db, guid)
    requires reply.conversation.Some? && reply.isSms == (db.chats[guid].service != IMESSAGE)
    requires People(lower, reply.conversation.value.participants) == People(lower, ParticipantAddresses(db, guid))
    ensures var r := StoreMessage(lower, db, reply, now, calls);
            && r.db.chats.Keys == db.chats.Keys
            && (r.result == Ok ==> Announced(r, reply, guid))
  {
    SamePeopleSameGuid(lower, reply.conversation.value.participants, ParticipantAddresses(db, guid), !reply.isSms);
    assert ChatGuidFor(lower, reply.conversation.value.participants, !reply.isSms) == guid;
    ReplyStored(lower, db, guid, reply, now, calls);
  }

  lemma ReplyStored(lower: string -> string, db: Db, guid: string, reply: Incoming, now: int, calls: nat)
    requires Valid(db) && guid in db.chats && reply.conversation.Some?
    requires ChatGuidFor(lower, reply.conversation.value.participants, !reply.isSms) == guid
    ensures var r := StoreMessage(lower, db, reply, now, calls);
            && r.db.chats.Keys == db.chats.Keys
            && (r.result == Ok ==> Announced(r, reply, guid))
  {
    hide ChatGuidFor, StoreIn, ParticipantAddresses;
    var conv, service := reply.conversation.value, ServiceOf(!reply.isSms);
    StoreInKeepsValid(db, reply, conv, guid, service, now, calls);
    StoreInFollows(lower, db, reply, conv, guid, service, now, calls);
    StoreInAnnounces(db, reply, conv, guid, service, now, calls);
  }

  // ---------------------------------------------------------------- what is stored

  /** What a stored row says of its message: all of it, and that it was received and nothing has happened to it yet. */
  lemma StoredRowSays(inst: Incoming, chat: string, handle: Option<nat>)
    ensures var m := RowOf(inst, chat, handle);
            && m.chat == chat && m.handle == handle && m.text == inst.text && m.hasAttachments == inst.hasAttachments
            && m.date * 1000 <= inst.sentMs < (m.date + 1) * 1000
            && !m.isFromMe && m.dateRead == 0 && m.dateEdited == 0 && !m.isUnsent && m.subject == "" && m.threadOrigin == ""
  {
  }

  /** Every handle that came in between two states is of one service. */
  predicate NewHandlesAreOf(db: Db, db': Db, service: string) {
    forall i :: i in db'.handles && i !in db.handles ==> db'.handles[i].service == service
  }

  predicate AllOf(db: Db, ids: seq<nat>, service: string) {
    forall k :: 0 <= k < |ids| ==> ids[k] in db.handles && db.handles[ids[k]].service == service
  }

  lemma UpsertHandleOfService(db: Db, address: string, service: string, now: int)
    requires Valid(db)
    ensures var (db', id) := UpsertHandle(db, address, service, "", now);
            NewHandlesAreOf(db, db', service) && id in db'.handles && db'.handles[id].service == service && KeepsHandles(db, db')
  {
    hide Valid;
    UpsertHandleKeepsValid(db, address, service, "", now);
    assert HandlesOk(db) by { OnlyHandlesOk(db); }
    UpsertHandleExactly(db, address, service, "", now);
  }

  lemma OnlyHandlesOk(db: Db)
    requires Valid(db)
    ensures HandlesOk(db)
  {
  }

  lemma {:induction false} UpsertAllOfService(db: Db, ps: seq<string>, service: string, now: int, calls: nat,
                                              ids: seq<nat>)
    requires Valid(db) && AllOf(db, ids, service)
    ensures var (db', ids', left) := UpsertAll(db, ps, service, now, calls, ids);
            NewHandlesAreOf(db, db', service) && AllOf(db', ids', service)
    decreases |ps|
  {
    hide Valid, UpsertHandle;
    if ps != [] && calls > 0 {
      var (db1, id) := UpsertHandle(db, ps[0], service, "", now);
      UpsertHandleOfService(db, ps[0], service, now);
      UpsertHandleKeepsValid(db, ps[0], service, "", now);
      UpsertAllOfService(db1, ps[1..], service, now, calls - 1, ids + [id]);
      UpsertAllKeeps(db1, ps[1..], service, now, calls - 1, ids + [id]);
    }
  }

  /** The service of the sender's handle, and of the row's chat's members. */
  ghost predicate OfService(db: Db, guid: string, id: string, service: string)
    requires id in db.messages
  {
    && (db.messages[id].handle.Some? ==>
          db.messages[id].handle.value in db.handles && db.handles[db.messages[id].handle.value].service == service)
    && forall i :: (guid, i) in db.members ==> i in db.handles && db.handles[i].service == service
  }

  lemma StoreRowOfService(db: Db, inst: Incoming, guid: string, service: string, now: int, calls: nat)
    requires Valid(db) && forall i: nat :: (guid, i) in db.members ==> i in db.handles && db.handles[i].service == service
    ensures var r := StoreRow(db, inst, guid, service, now, calls);
            r.result == Ok ==> inst.id in r.db.messages && OfService(r.db, guid, inst.id, service)
  {
    hide Valid, Tables.InsertMessage, UpsertHandle;
    var sender := OrEmpty(inst.sender);
    if sender == "" {
      InsertMessageExactly(db, inst.id, RowOf(inst, guid, None));
    } else if calls > 0 {
      var (db', id) := UpsertHandle(db, sender, service, "", now);
      UpsertHandleOfService(db, sender, service, now);
      UpsertHandleIdentity(db, sender, service, "", now);
      InsertMessageExactly(db', inst.id, RowOf(inst, guid, Some(id)));
    }
  }

  /** The chat row: what the conversation calls it, over the message's transport, a group of more than two. */
  predicate ChatSays(db: Db, guid: string, conv: Conversation, service: string) {
    && guid in db.chats && db.chats[guid].title == OrEmpty(conv.name) && db.chats[guid].service == service
    && (db.chats[guid].isGroup <==> |conv.participants| > 2)
  }

  lemma InsertKeepsChatSays(db: Db, id: string, m: Message, guid: string, conv: Conversation, service: string)
    requires ChatSays(db, guid, conv, service)
    ensures ChatSays(Tables.InsertMessage(db, id, m), guid, conv, service)
  {
    hide Tables.InsertMessage;
    InsertMessageExactly(db, id, m);
  }

  lemma StoreRowChatSays(db: Db, inst: Incoming, guid: string, service: string, now: int, calls: nat, conv: Conversation)
    requires ChatSays(db, guid, conv, service)
    ensures ChatSays(StoreRow(db, inst, guid, service, now, calls).db, guid, conv, service)
  {
    hide Tables.InsertMessage, ChatSays;
    var sender := OrEmpty(inst.sender);
    if sender == "" {
      InsertKeepsChatSays(db, inst.id, RowOf(inst, guid, None), guid, conv, service);
    } else if calls > 0 {
      var (db', id) := UpsertHandle(db, sender, service, "", now);
      HandlesKeepChatSays(db, db', guid, conv, service);
      InsertKeepsChatSays(db', inst.id, RowOf(inst, guid, Some(id)), guid, conv, service);
    }
  }

  lemma HandlesKeepChatSays(db: Db, db': Db, guid: string, conv: Conversation, service: string)
    requires ChatSays(db, guid, conv, service) && db'.chats == db.chats
    ensures ChatSays(db', guid, conv, service)
  {
  }

  lemma StoreInOfService(db: Db, inst: Incoming, conv: Conversation, guid: string, service: string, now: int, calls: nat)
    requires Valid(db)
    ensures var r := StoreIn(db, inst, conv, guid, service, now, calls);
            r.result == Ok ==>
              inst.id in r.db.messages && OfService(r.db, guid, inst.id, service) && ChatSays(r.db, guid, conv, service)
  {
    hide Valid, UpsertAll, StoreRow, OfService, ChatSays, UpsertChat;
    if calls > 0 {
      var ps := conv.participants;
      var db1 := UpsertChat(db, guid, OrEmpty(conv.name), service, |ps| > 2, now);
      UpsertChatKeepsValid(db, guid, OrEmpty(conv.name), service, |ps| > 2, now);
      UpsertAllKeeps(db1, ps, service, now, calls - 1, []);
      UpsertAllOfService(db1, ps, service, now, calls - 1, []);
      var (db2, ids, left) := UpsertAll(db1, ps, service, now, calls - 1, []);
      if left.Some? && left.value > 0 && MembersFit(db2, guid, ids) {
        var db3 := SetParticipants(db2, guid, ids);
        SetParticipantsKeepsValid(db2, guid, ids);
        SetParticipantsExactly(db2, guid, ids);
        assert ChatSays(db3, guid, conv, service) by { FreshChatSays(db, db3, guid, conv, service, now); }
        StoreRowOfService(db3, inst, guid, service, now, left.value - 1);
        StoreRowChatSays(db3, inst, guid, service, now, left.value - 1, conv);
      }
    }
  }

  lemma FreshChatSays(db: Db, db': Db, guid: string, conv: Conversation, service: string, now: int)
    requires db'.chats == UpsertChat(db, guid, OrEmpty(conv.name), service, |conv.participants| > 2, now).chats
    ensures ChatSays(db', guid, conv, service)
  {
  }

  /** The two transports, by name. */
  function TransportName(isSms: bool): string {
    if isSms then "SMS" else "iMessage"
  }

  /**
   A stored message's chat carries its name, kind and transport, and all its members and its sender are
   handles of that transport.
   */
  lemma StoredUnderItsTransport(lower: string -> string, db: Db, inst: Incoming, now: int, calls: nat)
    requires Valid(db)
    ensures var r := StoreMessage(lower, db, inst, now, calls);
            r.result == Ok ==>
              && inst.conversation.Some? && inst.id in r.db.messages
              && OfService(r.db, OwnChat(lower, inst), inst.id, TransportName(inst.isSms))
              && ChatSays(r.db, OwnChat(lower, inst), inst.conversation.value, TransportName(inst.isSms))
  {
    hide Valid, StoreIn, OfService, ChatSays, ChatGuidFor;
    if inst.conversation.Some? {
      StoreInOfService(db, inst, inst.conversation.value, OwnChat(lower, inst), ServiceOf(!inst.isSms), now, calls);
    }
  }

  /** Its name, if it has one, is the chat's title, and its sender, if it has one, stands behind its row. */
  lemma StoredUnderItsNames(lower: string -> string, db: Db, inst: Incoming, now: int, calls: nat)
    requires Valid(db)
    ensures var r := StoreMessage(lower, db, inst, now, calls);
            r.result == Ok ==>
              && inst.conversation.Some? && inst.id in r.db.messages && OwnChat(lower, inst) in r.db.chats
              && var (chat, row) := (r.db.chats[OwnChat(lower, inst)], r.db.messages[inst.id]);
                 && chat.title == (match inst.conversation.value.name case None => "" case Some(name) => name)
                 && (row.handle.None? <==> inst.sender == None || inst.sender == Some(""))
                 && (row.handle.Some? ==>
                       row.handle.value in r.db.handles && Some(r.db.handles[row.handle.value].address) == inst.sender)
  {
    hide Valid, StoreMessage, OfService, ChatGuidFor;
    StoredUnderItsTransport(lower, db, inst, now, calls);
    StoredExactlyWhenAnnounced(lower, db, inst, now, calls);
  }
}
