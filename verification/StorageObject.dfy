/**
 The storage object: tables updated in place, one method for each of its
 operations (rust/src/storage.rs). Each method is proved against the function
 of the same name in Tables.
 */
module StorageObject {
  import opened Wrappers
  import Tables

  class Storage {
    var chats: map<string, Tables.Chat>
    var handles: map<nat, Tables.Handle>
    var nextHandle: nat
    var members: set<(string, nat)>
    var messages: map<string, Tables.Message>
    var reactions: seq<Tables.Reaction>
    var attachments: map<string, Tables.Attachment>

    ghost function Db(): Tables.Db
      reads this
    {
      Tables.Db(chats, handles, nextHandle, members, messages, reactions, attachments)
    }

    constructor ()
      ensures Db() == Tables.EMPTY
    {
      chats, handles, nextHandle, members := map[], map[], 1, {};
      messages, reactions, attachments := map[], [], map[];
    }

    method UpsertHandle(address: string, service: string, name: string, now: int) returns (id: nat)
      modifies this
      ensures (Db(), id) == Tables.UpsertHandle(old(Db()), address, service, name, now)
    {
      var found := Tables.FindHandle(handles, 0, nextHandle, address, service);
      match found {
        case Some(row) =>
          handles := handles[row := handles[row].(displayName := name)];
          id := row;
        case None =>
          handles := handles[nextHandle := Tables.Handle(address, service, name, now)];
          id := nextHandle;
          nextHandle := nextHandle + 1;
      }
    }

    method UpsertChat(guid: string, title: string, service: string, isGroup: bool, now: int)
      modifies this
      ensures Db() == Tables.UpsertChat(old(Db()), guid, title, service, isGroup, now)
      ensures guid in chats && chats[guid].title == title && chats[guid].isImessage == (chats[guid].service == Tables.IMESSAGE)
      ensures forall g :: g in old(chats) ==>
                && g in chats && chats[g].unread == old(chats)[g].unread && chats[g].lastDate == old(chats)[g].lastDate
                && chats[g].preview == old(chats)[g].preview && (g != guid ==> chats[g] == old(chats)[g])
    {
      var isImessage := service == Tables.IMESSAGE;
      if guid in chats {
        chats := chats[guid := chats[guid].(title := title, isImessage := isImessage, service := service, isGroup := isGroup)];
      } else {
        chats := chats[guid := Tables.Chat(title, isImessage, service, isGroup, false, false, 0, 0, 0, "", now)];
      }
    }

    /** The transaction works on a copy, which replaces the table only on commit. */
    method SetChatParticipants(guid: string, ids: seq<nat>) returns (result: Outcome)
      modifies this
      ensures Db() == Tables.SetParticipants(old(Db()), guid, ids)
      ensures result == Ok <==> Tables.MembersFit(old(Db()), guid, ids)
    {
      var rows := members - Tables.MembersOf(members, guid);
      ghost var kept := rows;
      for i := 0 to |ids|
        invariant rows == kept + set k | 0 <= k < i :: (guid, ids[k])
        invariant i == 0 || guid in chats
        invariant forall k :: 0 <= k < i ==> ids[k] in handles
        invariant Db() == old(Db())
      {
        if guid !in chats || ids[i] !in handles { return Err; }
        rows := rows + {(guid, ids[i])};
      }
      members := rows;
      return Ok;
    }

    method SetChatPin(guid: string, pinned: bool, order: int)
      modifies this
      ensures Db() == Tables.SetPin(old(Db()), guid, pinned, order)
    {
      if guid in chats { chats := chats[guid := chats[guid].(isPinned := pinned, pinOrder := order)]; }
    }

    method SetChatArchived(guid: string, archived: bool)
      modifies this
      ensures Db() == Tables.SetArchived(old(Db()), guid, archived)
    {
      if guid in chats { chats := chats[guid := chats[guid].(isArchived := archived)]; }
    }

    /** What REPLACE does to the old row: the schema's cascades go with it. */
    method DeleteMessage(guid: string)
      modifies this
      ensures Db() == Tables.DeleteMessage(old(Db()), guid)
    {
      if guid in messages {
        messages := messages - {guid};
        reactions := Tables.ReactionsWithout(reactions, guid);
        attachments := map a | a in attachments && attachments[a].message != guid :: attachments[a];
      }
    }

    /** Three statements: replace the row, touch the chat, count the unread. */
    method InsertMessage(guid: string, m: Tables.Message) returns (result: Outcome)
      modifies this
      ensures Db() == Tables.InsertMessage(old(Db()), guid, m)
      ensures result == Ok <==> Tables.MessageFits(old(Db()), m)
    {
      if m.chat !in chats || (m.handle.Some? && m.handle.value !in handles) { return Err; }
      DeleteMessage(guid);
      messages := messages[guid := m];
      var chat := chats[m.chat];
      chats := chats[m.chat := chat.(lastDate := Tables.Max(chat.lastDate, m.date), preview := m.text)];
      if !m.isFromMe {
        chats := chats[m.chat := chats[m.chat].(unread := chats[m.chat].unread + 1)];
      }
      return Ok;
    }

    method MarkChatRead(chat: string, now: int)
      modifies this
      ensures Db() == Tables.MarkRead(old(Db()), chat, now)
    {
      messages := map g | g in messages ::
        if Tables.IsUnread(messages[g], chat) then messages[g].(dateRead := now) else messages[g];
      if chat in chats { chats := chats[chat := chats[chat].(unread := 0)]; }
    }

    method EditMessage(guid: string, text: string, now: int)
      modifies this
      ensures Db() == Tables.EditMessage(old(Db()), guid, text, now)
    {
      if guid in messages { messages := messages[guid := messages[guid].(text := text, dateEdited := now)]; }
    }

    method UnsendMessage(guid: string)
      modifies this
      ensures Db() == Tables.UnsendMessage(old(Db()), guid)
    {
      if guid in messages { messages := messages[guid := messages[guid].(isUnsent := true, text := "")]; }
    }

    method AddReaction(r: Tables.Reaction) returns (result: Outcome)
      modifies this
      ensures Db() == Tables.AddReaction(old(Db()), r)
      ensures result == Ok <==> r.message in old(Db()).messages
    {
      if r.message !in messages { return Err; }
      reactions := Tables.ReactionsReplaced(reactions, r) + [r];
      return Ok;
    }

    /** Two statements: the row, then the flag on its message. */
    method InsertAttachment(guid: string, a: Tables.Attachment) returns (result: Outcome)
      modifies this
      ensures Db() == Tables.InsertAttachment(old(Db()), guid, a)
      ensures result == Ok <==> a.message in old(Db()).messages
    {
      if a.message !in messages { return Err; }
      attachments := attachments[guid := a];
      messages := messages[a.message := messages[a.message].(hasAttachments := true)];
      return Ok;
    }
  }
}
