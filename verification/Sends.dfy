/**
 The storage writes of a local send (rust/src/ffi.rs, send_message_local and
 attach_file_local). The fresh guids, the clock and the copied file are parameters.
 */
module Sends {
  import opened Wrappers
  import opened Tables
  import opened Events
  import StorageObject

  datatype Sent = Sent(db: Db, result: Outcome, events: seq<Event>)

  /** A row of ours: no handle, unread by nobody. */
  function LocalRow(chat: string, text: string, now: int, hasAttachments: bool): Message {
    Message(chat, None, text, "", true, now, 0, 0, false, hasAttachments, "")
  }

  function SendMessage(db: Db, guid: string, chat: string, text: string, now: int): Sent {
    if chat !in db.chats then Sent(db, Err, [])
    else Sent(InsertMessage(db, guid, LocalRow(chat, text, now, false)), Ok, [MessageSent(chat, guid)])
  }

  function AttachFile(db: Db, guid: string, chat: string, text: string, now: int, attachment: string,
                      file: Attachment): Sent {
    if chat !in db.chats then Sent(db, Err, [])
    else
      var row := LocalRow(chat, text, now, true);
      var hung := file.(message := guid, transferState := 0);
      Sent(InsertAttachment(InsertMessage(db, guid, row), attachment, hung), Ok, [MessageSent(chat, guid)])
  }

  method SendMessageLocal(store: StorageObject.Storage, guid: string, chat: string, text: string, now: int)
    returns (result: Outcome, events: seq<Event>)
    modifies store
    ensures Sent(store.Db(), result, events) == SendMessage(old(store.Db()), guid, chat, text, now)
  {
    var inserted := store.InsertMessage(guid, LocalRow(chat, text, now, false));
    if inserted == Err { return Err, []; }
    return Ok, [MessageSent(chat, guid)];
  }

  method AttachFileLocal(store: StorageObject.Storage, guid: string, chat: string, text: string, now: int,
                         attachment: string, file: Attachment)
    returns (result: Outcome, events: seq<Event>)
    modifies store
    ensures Sent(store.Db(), result, events) == AttachFile(old(store.Db()), guid, chat, text, now, attachment, file)
  {
    var inserted := store.InsertMessage(guid, LocalRow(chat, text, now, true));
    if inserted == Err { return Err, []; }
    var attached := store.InsertAttachment(attachment, file.(message := guid, transferState := 0));
    if attached == Err { return Err, []; }
    return Ok, [MessageSent(chat, guid)];
  }

  /**
   A local message is ours, in its chat, under its guid, unread by nobody and dated now, and announced
   with that chat and guid; without the chat nothing is stored or announced.
   */
  lemma SentExactly(db: Db, guid: string, chat: string, text: string, now: int)
    ensures var r := SendMessage(db, guid, chat, text, now);
            if chat in db.chats then
              && r.result == Ok && r.events == [MessageSent(chat, guid)]
              && guid in r.db.messages && r.db.messages == db.messages[guid := r.db.messages[guid]]
              && IsOurs(r.db.messages[guid], chat, text, now) && !r.db.messages[guid].hasAttachments
            else r == Sent(db, Err, [])
  {
    hide InsertMessage;
    InsertMessageExactly(db, guid, LocalRow(chat, text, now, false));
  }

  predicate IsOurs(m: Message, chat: string, text: string, now: int) {
    && m.chat == chat && m.text == text && m.date == now && m.isFromMe && m.handle.None?
    && m.subject == "" && m.threadOrigin == "" && m.dateRead == 0 && m.dateEdited == 0 && !m.isUnsent
  }

  /** With a file the row is flagged, and the file hangs on it and is the only one that does. */
  lemma AttachedExactly(db: Db, guid: string, chat: string, text: string, now: int, attachment: string, file: Attachment)
    requires ReactionsOk(db) && AttachmentsOk(db)
    ensures var r := AttachFile(db, guid, chat, text, now, attachment, file);
            if chat in db.chats then
              && r.result == Ok && r.events == [MessageSent(chat, guid)]
              && guid in r.db.messages && r.db.messages == db.messages[guid := r.db.messages[guid]]
              && IsOurs(r.db.messages[guid], chat, text, now) && r.db.messages[guid].hasAttachments
              && attachment in r.db.attachments
              && (forall a :: a in r.db.attachments && r.db.attachments[a].message == guid <==> a == attachment)
              && var hung := r.db.attachments[attachment];
                 && hung.filename == file.filename && hung.mimeType == file.mimeType && hung.sizeBytes == file.sizeBytes
                 && hung.localPath == file.localPath && hung.transferState == 0
            else r == Sent(db, Err, [])
  {
    hide InsertMessage, InsertAttachment;
    var row := LocalRow(chat, text, now, true);
    var hung := file.(message := guid, transferState := 0);
    InsertMessageExactly(db, guid, row);
    if chat in db.chats {
      InsertMessageClears(db, guid, row);
      InsertAttachmentExactly(InsertMessage(db, guid, row), attachment, hung);
    }
  }
}
