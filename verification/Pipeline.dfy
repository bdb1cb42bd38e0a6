/**
 The pipeline from a message to the transcript that shows it: storing or sending
 (rust/src/receive.rs, rust/src/ffi.rs), the poll (app/core_bridge.cpp) and the
 list model (app/message_list_model.cpp), put together.
 */
module Pipeline {
  import opened Wrappers
  import opened ChatGuids
  import opened Tables
  import opened Queries
  import opened Events
  import opened Receive
  import opened Transcript
  import Runs
  import Sends
  import TextLinks

  // ---------------------------------------------------------------- an arrival in the open chat

  /** The messages of the chat, other than guid, that are at least as new. */
  function AtLeastAsNew(messages: map<string, Message>, chat: string, guid: string): set<string> {
    set g | g in ChatMessages(messages, chat) && g != guid && DateOf(messages, g) >= DateOf(messages, guid)
  }

  /** A message with fewer than limit others at least as new is always listed. */
  lemma RecentIsListed(messages: map<string, Message>, chat: string, limit: int, out: seq<string>, guid: string)
    requires Newest(messages, chat, limit, out) && guid in ChatMessages(messages, chat)
    requires |AtLeastAsNew(messages, chat, guid)| < limit
    ensures guid in out
  {
    var all := ChatMessages(messages, chat);
    DistinctCount(out);
    SubsetCount(Elements(out), all);
    if guid !in out {
      forall h | h in Elements(out) ensures h in AtLeastAsNew(messages, chat, guid) {
        assert h in out;
      }
      SubsetCount(Elements(out), AtLeastAsNew(messages, chat, guid));
    }
  }

  /** The state of a view and its model: the guids agree, as they do in every run. */
  predicate InStep(s: Screen) {
    Guids(Replay(s.changes)) == Guids(s.rows)
  }

  /** A row shows a text: what it renders, read back as HTML, is that text. */
  predicate Shows(row: Row, guid: string, text: string) {
    && row.bubble.guid == guid
    && var html := TextLinks.ParseHtml(row.bubble.richText);
       html.Some? && TextLinks.Source(html.value) == text
  }

  lemma FetchedShows(db: Db, guid: string, attachments: AttachmentQuery, row: Row)
    requires guid in db.messages && row.bubble == Fetch(db, guid, attachments)
    ensures Shows(row, guid, db.messages[guid].text)
  {
    hide TextLinks.ParseHtml, TextLinks.Render, TextLinks.Linkified, TextLinks.Source, SenderOf;
    BubbleShowsItsText(db, guid, if db.messages[guid].hasAttachments then attachments(guid) else []);
  }

  /** A refresh told of a row whose guid the model did not have yet: the view gets it as the model does. */
  lemma NewRowIsTold(s: Screen, next: seq<Row>, k: nat)
    requires InStep(s) && k < |next| && next[k].bubble.guid !in Guids(s.rows)
    ensures |Replay(Refreshed(s, next).changes)| == |next| && Replay(Refreshed(s, next).changes)[k] == next[k]
  {
    ReplayOneMore(s.changes, s.rows, next);
    if IsAppend(s.rows, next) {
      forall j | 0 <= j < |s.rows| ensures next[j].bubble.guid in Guids(s.rows) {
        assert Guids(s.rows)[j] == Guids(next[..|s.rows|])[j];
      }
    }
  }

  /** The poll after a stored message tells the open chat to refresh, by naming it or no chat. */
  lemma PollRefreshes(burst: seq<Event>, chat: string, guid: string) returns (named: string)
    requires MessageArrived(chat, guid) in burst
    ensures MessagesChanged(named) in Closing(ToDtos(burst)) && (named == "" || named == chat)
  {
    var i :| 0 <= i < |burst| && burst[i] == MessageArrived(chat, guid);
    ArrivalRefreshesOpenChat(burst, i);
    var signal :| signal in Closing(ToDtos(burst)) && Refreshes(signal, chat);
    named := signal.chat;
  }

  /** What the query lists of a chat: rows of the tables, the newest of them. */
  ghost predicate QueryLists(db: Db, chat: string, out: seq<string>) {
    Listed(db.messages, chat, MESSAGE_LIMIT, out) && forall i :: 0 <= i < |out| ==> out[i] in db.messages
  }

  /** Model and view hold a row that shows the text. */
  predicate OnScreen(s: Screen, guid: string, text: string) {
    exists k :: 0 <= k < |s.rows| && ShownAt(s, k, guid, text)
  }

  predicate ShownAt(s: Screen, k: nat, guid: string, text: string)
    requires k < |s.rows|
  {
    |Replay(s.changes)| == |s.rows| && Shows(s.rows[k], guid, text) && Replay(s.changes)[k] == s.rows[k]
  }

  lemma RefreshShows(day: int -> int, db: Db, chat: string, guid: string, s: Screen, named: string, out: seq<string>,
                     attachments: AttachmentQuery)
    requires s.chat == chat != "" && (named == "" || named == chat) && InStep(s) && guid !in Guids(s.rows)
    requires guid in db.messages && db.messages[guid].chat == chat && QueryLists(db, chat, out)
    requires |AtLeastAsNew(db.messages, chat, guid)| < MESSAGE_LIMIT
    ensures OnScreen(Act(day, s, Notified(named, Fetched(db, out, attachments))), guid, db.messages[guid].text)
  {
    hide Fetch, Shows, Newest, InStep, AtLeastAsNew, Replay, Listed;
    ListedIsNewest(db.messages, chat, out);
    assert guid in ChatMessages(db.messages, chat);
    RecentIsListed(db.messages, chat, MESSAGE_LIMIT, out, guid);
    var k :| 0 <= k < |out| && out[k] == guid;
    var next := Annotated(day, Fetched(db, out, attachments));
    assert next[k].bubble == Fetch(db, guid, attachments);
    FetchedShows(db, guid, attachments, next[k]);
    FetchedGuid(db, guid, attachments);
    NewRowIsTold(s, next, k);
    assert ShownAt(Act(day, s, Notified(named, Fetched(db, out, attachments))), k, guid, db.messages[guid].text);
  }

  lemma ListedIsNewest(messages: map<string, Message>, chat: string, out: seq<string>)
    requires Listed(messages, chat, MESSAGE_LIMIT, out)
    ensures Newest(messages, chat, MESSAGE_LIMIT, out)
  {
    hide Newest, Answers;
    AnswersExactly(messages, chat, MESSAGE_LIMIT, out);
  }

  /** The open chat, in step, does not have the message yet; its events are in the burst, and it is among the newest 500. */
  ghost predicate OpenAndRecent(r: Stored, id: string, burst: seq<Event>, s: Screen, out: seq<string>) {
    && InStep(s) && id !in Guids(s.rows)
    && (forall e :: e in r.events ==> e in burst)
    && QueryLists(r.db, s.chat, out)
    && |AtLeastAsNew(r.db.messages, s.chat, id)| < MESSAGE_LIMIT
  }

  /** The signals of a burst bring the text on screen: one of them makes the model refresh, and then it is there. */
  ghost predicate BringsOnScreen(day: int -> int, burst: seq<Event>, s: Screen, fetched: seq<Bubble>, id: string,
                                 text: string) {
    exists named :: MessagesChanged(named) in Closing(ToDtos(burst)) && OnScreen(Act(day, s, Notified(named, fetched)), id, text)
  }

  /**
   A message stored into the open chat reaches the screen. The poll that drains its event signals a
   refresh of that chat, and if fewer than 500 others are at least as new, model and view then hold a row
   that shows exactly its text. out is what the query lists at that moment.
   */
  lemma ArrivalReachesTheScreen(lower: string -> string, day: int -> int, db: Db, inst: Incoming, now: int, calls: nat,
                                burst: seq<Event>, s: Screen, out: seq<string>, attachments: AttachmentQuery)
    requires s.chat == OwnChat(lower, inst)
    ensures var r := StoreMessage(lower, db, inst, now, calls);
            r.result == Ok && OpenAndRecent(r, inst.id, burst, s, out) ==>
              BringsOnScreen(day, burst, s, Fetched(r.db, out, attachments), inst.id, inst.text)
  {
    hide StoreMessage, ChatGuidFor, Closing, Fetched, OnScreen, InStep, AtLeastAsNew, Act, Listed;
    var r := StoreMessage(lower, db, inst, now, calls);
    if r.result == Ok && OpenAndRecent(r, inst.id, burst, s, out) {
      StoredExactlyWhenAnnounced(lower, db, inst, now, calls);
      GuidIsNotEmpty(lower, inst);
      assert MessageArrived(s.chat, inst.id) in r.events;
      var named := PollRefreshes(burst, s.chat, inst.id);
      RefreshShows(day, r.db, s.chat, inst.id, s, named, out, attachments);
    }
  }

  lemma GuidIsNotEmpty(lower: string -> string, inst: Incoming)
    requires inst.conversation.Some?
    ensures OwnChat(lower, inst) != ""
  {
  }

  // ---------------------------------------------------------------- a file that was attached

  /** The one file of a bubble, as it was attached. */
  predicate ShowsOnly(b: Bubble, file: Attachment) {
    && b.files != []
    && forall k :: 0 <= k < |b.files| ==>
         && b.files[k].filename == file.filename && b.files[k].mimeType == file.mimeType
         && b.files[k].localPath == file.localPath && b.files[k].sizeBytes == file.sizeBytes
         && (b.files[k].isImage <==> "image/" <= file.mimeType)
  }

  /**
   An attached file is shown: after a successful attach, whatever the attachment query answers, the
   bubble of the new message shows that file and no other, and the text sent with it.
   */
  lemma AttachedFileIsShown(db: Db, guid: string, chat: string, text: string, now: int, attachment: string,
                            file: Attachment,
                            attachments: AttachmentQuery)
    requires Valid(db) && chat in db.chats
    requires AnswersAttachments(Sends.AttachFile(db, guid, chat, text, now, attachment, file).db, attachments)
    ensures var db' := Sends.AttachFile(db, guid, chat, text, now, attachment, file).db;
            && guid in db'.messages
            && ShowsOnly(Fetch(db', guid, attachments), file) && Fetch(db', guid, attachments).text == text
  {
    hide Sends.AttachFile, Fetch;
    var db' := Sends.AttachFile(db, guid, chat, text, now, attachment, file).db;
    Sends.AttachedExactly(db, guid, chat, text, now, attachment, file);
    BubbleSaysExactly(db', guid, attachments);
    var hung := db'.attachments[attachment];
    assert HangsOn(db', hung, guid);
    assert hung in attachments(guid);
    forall a | a in attachments(guid) ensures a == hung {
      assert HangsOn(db', a, guid);
    }
    forall k | 0 <= k < |attachments(guid)| ensures attachments(guid)[k] == hung {
      assert attachments(guid)[k] in attachments(guid);
    }
  }

  // ---------------------------------------------------------------- receiving and sending take the fast path

  /** Every message of the chat is older than a moment. */
  predicate AllOlder(messages: map<string, Message>, chat: string, date: int) {
    forall g :: g in ChatMessages(messages, chat) ==> messages[g].date < date
  }

  /** The two lists of one chat, before and after, each as the query may answer, with files that did not change. */
  ghost predicate ListedTwice(db: Db, db': Db, chat: string, out: seq<string>, out': seq<string>,
                              attachments: AttachmentQuery, attachments': AttachmentQuery)
  {
    && Listed(db.messages, chat, MESSAGE_LIMIT, out) && Listed(db'.messages, chat, MESSAGE_LIMIT, out')
    && (forall i :: 0 <= i < |out| ==> out[i] in db.messages)
    && (forall i :: 0 <= i < |out'| ==> out'[i] in db'.messages)
    && (forall i :: 0 <= i < |out| ==> attachments'(out[i]) == attachments(out[i]))
  }

  /** One row behind old rows that did not change. */
  predicate AppendsOne(rows: seq<Row>, next: seq<Row>) {
    IsAppend(rows, next) && |next| == |rows| + 1 && next[..|rows|] == rows
  }

  lemma QuietArrivalTakesTheFastPath(day: int -> int, db: Db, db': Db, chat: string, guid: string, out: seq<string>,
                                     out': seq<string>,
                                     attachments: AttachmentQuery, attachments': AttachmentQuery)
    requires Arrives(db.messages, db'.messages, chat, guid) && DistinctDates(db.messages, chat)
    requires MessagesOk(db) && KeepsHandleRows(db, db')
    requires 0 < |ChatMessages(db.messages, chat)| < MESSAGE_LIMIT
    requires ListedTwice(db, db', chat, out, out', attachments, attachments')
    ensures AppendsOne(Annotated(day, Fetched(db, out, attachments)), Annotated(day, Fetched(db', out', attachments')))
  {
    hide Arrives, DistinctDates, Listed, Fetch, MessagesOk, KeepsHandleRows, ShowsSame, IsAppend;
    ArrivalTakesTheFastPath(day, db, db', chat, guid, out, out', attachments, attachments');
    forall i | 0 <= i < |out| ensures ShowsSame(db, db', out[i], attachments, attachments') {
      OldHandlesShowSame(db, db', out[i], attachments, attachments');
    }
  }

  /**
   A stored message that is the newest of its chat is one inserted row, whatever handles it brings along:
   the chat without date ties and below the limit, and no handle named, as in every run of the app.
   */
  lemma ReceivedTakesTheFastPath(lower: string -> string, day: int -> int, db: Db, inst: Incoming, now: int, calls: nat,
                                 out: seq<string>, out': seq<string>,
                                 attachments: AttachmentQuery, attachments': AttachmentQuery)
    requires MessagesOk(db) && AnonymousOk(db) && inst.id !in db.messages
    requires AllOlder(db.messages, OwnChat(lower, inst), inst.sentMs / 1000)
    requires DistinctDates(db.messages, OwnChat(lower, inst))
    requires 0 < |ChatMessages(db.messages, OwnChat(lower, inst))| < MESSAGE_LIMIT
    ensures var r := StoreMessage(lower, db, inst, now, calls);
            r.result == Ok && ListedTwice(db, r.db, OwnChat(lower, inst), out, out', attachments, attachments') ==>
              AppendsOne(Annotated(day, Fetched(db, out, attachments)), Annotated(day, Fetched(r.db, out', attachments')))
  {
    hide StoreMessage, ChatGuidFor, OwnChat, AnonymousOk, ListedTwice, AppendsOne, KeepsHandleRows, DistinctDates, UnreadOf;
    var r, chat := StoreMessage(lower, db, inst, now, calls), OwnChat(lower, inst);
    StoreDelivers(lower, db, inst, now, calls);
    if r.result == Ok && ListedTwice(db, r.db, chat, out, out', attachments, attachments') {
      QuietArrivalTakesTheFastPath(day, db, r.db, chat, inst.id, out, out', attachments, attachments');
    }
  }

  /** And so is a message of ours. */
  lemma SentTakesTheFastPath(day: int -> int, db: Db, guid: string, chat: string, text: string, now: int,
                             out: seq<string>, out': seq<string>,
                             attachments: AttachmentQuery, attachments': AttachmentQuery)
    requires Valid(db) && chat in db.chats && guid !in db.messages && AllOlder(db.messages, chat, now)
    requires DistinctDates(db.messages, chat) && 0 < |ChatMessages(db.messages, chat)| < MESSAGE_LIMIT
    requires ListedTwice(db, Sends.SendMessage(db, guid, chat, text, now).db, chat, out, out', attachments, attachments')
    ensures var db' := Sends.SendMessage(db, guid, chat, text, now).db;
            AppendsOne(Annotated(day, Fetched(db, out, attachments)), Annotated(day, Fetched(db', out', attachments')))
  {
    hide InsertMessage, ListedTwice, AppendsOne, DistinctDates;
    var row := Sends.LocalRow(chat, text, now, false);
    InsertMessageRows(db, guid, row);
    QuietArrivalTakesTheFastPath(day, db, InsertMessage(db, guid, row), chat, guid, out, out', attachments, attachments');
  }

  // ---------------------------------------------------------------- where the fast path goes wrong

  const THEIRS := Incoming("m1", Some(Conversation(["x"], None)), false, Some("x"), 1000, "hi", false)
  const REPLY := Incoming("m2", Some(Conversation(["x"], None)), false, Some("x"), 4000, "bye", false)

  /** Something received and something sent; then the sent text is edited, and a reply comes in. */
  function SentSoFar(chat: string): seq<Runs.Action> {
    [Runs.Receiving(THEIRS, 1, 5), Runs.Sending("a", chat, "helo", 2)]
  }

  function EditedAndAnswered(chat: string): seq<Runs.Action> {
    SentSoFar(chat) + [Runs.Editing("a", "hello", 3)] + [Runs.Receiving(REPLY, 4, 5)]
  }

  function ChatWithX(lower: string -> string): string {
    ChatGuidFor(lower, ["x"], true)
  }

  lemma StoresOneMore(lower: string -> string, actions: seq<Runs.Action>, inst: Incoming)
    requires inst == THEIRS || inst == REPLY
    ensures var before, db := Runs.Run(lower, actions), Runs.Run(lower, actions + [Runs.Receiving(inst, inst.sentMs / 1000, 5)]);
            && inst.id in db.messages && db.messages == before.messages[inst.id := db.messages[inst.id]]
            && db.messages[inst.id] == RowOf(inst, ChatWithX(lower), db.messages[inst.id].handle)
            && ChatWithX(lower) in db.chats
  {
    hide Runs.Run, StoreMessage, ChatGuidFor, UnreadOf, Coherent, Follows;
    var now := inst.sentMs / 1000;
    var before := Runs.Run(lower, actions);
    Runs.RunOneMore(lower, actions, Runs.Receiving(inst, now, 5));
    Runs.ReachableTablesAreValid(lower, actions);
    StoreSucceedsExactly(lower, before, inst, now, 5);
    StoreDelivers(lower, before, inst, now, 5);
    StoreCoherence(lower, before, inst, now, 5);
  }

  /** The tables when the chat is opened: their message and ours. */
  lemma TablesWhenOpened(lower: string -> string)
    ensures var chat := ChatWithX(lower);
            var db := Runs.Run(lower, SentSoFar(chat));
            && db.messages.Keys == {"m1", "a"} && db.messages["m1"].date == 1 && db.messages["m1"].chat == chat
            && db.messages["a"] == Sends.LocalRow(chat, "helo", 2, false)
            && chat in db.chats
  {
    hide Runs.Run, ChatGuidFor, InsertMessage;
    var chat := ChatWithX(lower);
    var first := [Runs.Receiving(THEIRS, 1, 5)];
    var db1 := Runs.Run(lower, first);
    StoresOneMore(lower, [], THEIRS);
    assert [] + first == first;
    assert Runs.Run(lower, []) == EMPTY by { NothingYet(lower); }
    Runs.RunOneMore(lower, first, Runs.Sending("a", chat, "helo", 2));
    assert first + [Runs.Sending("a", chat, "helo", 2)] == SentSoFar(chat);
    InsertMessageRows(db1, "a", Sends.LocalRow(chat, "helo", 2, false));
  }

  lemma NothingYet(lower: string -> string)
    ensures Runs.Run(lower, []) == EMPTY
  {
  }

  /** The tables at the refresh: the edited text, and the reply. */
  lemma TablesAtTheRefresh(lower: string -> string)
    ensures var chat := ChatWithX(lower);
            var db := Runs.Run(lower, EditedAndAnswered(chat));
            && db.messages.Keys == {"m1", "a", "m2"} && db.messages["m1"].date == 1 && db.messages["m1"].chat == chat
            && db.messages["a"] == Sends.LocalRow(chat, "hello", 2, false).(dateEdited := 3)
            && db.messages["m2"].date == 4 && db.messages["m2"].chat == chat
  {
    hide Runs.Run, ChatGuidFor;
    var chat := ChatWithX(lower);
    TablesWhenOpened(lower);
    Runs.RunOneMore(lower, SentSoFar(chat), Runs.Editing("a", "hello", 3));
    StoresOneMore(lower, SentSoFar(chat) + [Runs.Editing("a", "hello", 3)], REPLY);
  }

  lemma TwoAreListed(messages: map<string, Message>, chat: string)
    requires messages.Keys == {"m1", "a"} && messages["m1"].chat == messages["a"].chat == chat
    requires messages["m1"].date == 1 && messages["a"].date == 2
    ensures Listed(messages, chat, MESSAGE_LIMIT, ["m1", "a"])
  {
    assert "m1" != "a";
    assert ChatMessages(messages, chat) == {"m1", "a"} == Elements(["m1", "a"]);
    AnswersExactly(messages, chat, MESSAGE_LIMIT, ["m1", "a"]);
  }

  lemma ThreeAreListed(messages: map<string, Message>, chat: string)
    requires messages.Keys == {"m1", "a", "m2"} && messages["m1"].chat == messages["a"].chat == messages["m2"].chat == chat
    requires messages["m1"].date == 1 && messages["a"].date == 2 && messages["m2"].date == 4
    ensures Listed(messages, chat, MESSAGE_LIMIT, ["m1", "a", "m2"])
  {
    var out := ["m1", "a", "m2"];
    assert "m1"[1] != "m2"[1] && "m1" != "a" && "m2" != "a";
    assert ChatMessages(messages, chat) == {"m1", "a", "m2"} == Elements(out);
    assert Newest(messages, chat, MESSAGE_LIMIT, out);
    AnswersExactly(messages, chat, MESSAGE_LIMIT, out);
  }

  predicate HasRows(db: Db, guids: seq<string>) {
    forall i :: 0 <= i < |guids| ==> guids[i] in db.messages
  }

  /** The chat is opened, and refreshed by the signal of an edit. */
  function OpenedAndEdited(chat: string, db: Db, db': Db, attachments: AttachmentQuery): seq<Input>
    requires HasRows(db, ["m1", "a"]) && HasRows(db', ["m1", "a", "m2"])
  {
    [Opened(chat, Fetched(db, ["m1", "a"], attachments)), Notified("", Fetched(db', ["m1", "a", "m2"], attachments))]
  }

  /** The model shows our message edited, the view as it was. */
  predicate OldTextInView(s: Screen) {
    && |s.rows| == |Replay(s.changes)| == 3
    && s.rows[1].bubble.guid == Replay(s.changes)[1].bubble.guid == "a" && s.rows[1].bubble.isFromMe
    && s.rows[1].bubble.text == "hello" && Replay(s.changes)[1].bubble.text == "helo"
  }

  /**
   Our own message is edited, and the refresh that the edit signals also finds a reply that was not polled
   yet: the fast path is taken, and the view keeps the old text in a row that the model shows edited.
   */
  lemma EditSeenWithArrivalGoesStale(lower: string -> string, day: int -> int, attachments: AttachmentQuery)
    ensures var chat := ChatWithX(lower);
            var db, db' := Runs.Run(lower, SentSoFar(chat)), Runs.Run(lower, EditedAndAnswered(chat));
            && Listed(db.messages, chat, MESSAGE_LIMIT, ["m1", "a"]) && HasRows(db, ["m1", "a"])
            && Listed(db'.messages, chat, MESSAGE_LIMIT, ["m1", "a", "m2"]) && HasRows(db', ["m1", "a", "m2"])
            && OldTextInView(Transcript.Run(day, OpenedAndEdited(chat, db, db', attachments)))
  {
    hide Runs.Run, Transcript.Run, ChatGuidFor, Listed, OldTextInView, OpenedAndEdited, EditedAndAnswered, SentSoFar;
    var chat := ChatWithX(lower);
    var db, db' := Runs.Run(lower, SentSoFar(chat)), Runs.Run(lower, EditedAndAnswered(chat));
    TablesWhenOpened(lower);
    TablesAtTheRefresh(lower);
    TwoAreListed(db.messages, chat);
    ThreeAreListed(db'.messages, chat);
    GuidIsNotEmpty(lower, THEIRS);
    StaleRow(day, chat, db, db', attachments);
  }

  lemma StaleRow(day: int -> int, chat: string, db: Db, db': Db, attachments: AttachmentQuery)
    requires chat != "" && db.messages.Keys == {"m1", "a"} && db'.messages.Keys == {"m1", "a", "m2"}
    requires db.messages["a"].text == "helo" && db'.messages["a"].text == "hello" && db'.messages["a"].isFromMe
    ensures HasRows(db, ["m1", "a"]) && HasRows(db', ["m1", "a", "m2"])
    ensures OldTextInView(Transcript.Run(day, OpenedAndEdited(chat, db, db', attachments)))
  {
    hide TextLinks.Render, TextLinks.Linkified, Transcript.Run, Replay, SenderOf;
    var first, second := Fetched(db, ["m1", "a"], attachments), Fetched(db', ["m1", "a", "m2"], attachments);
    FastPathKeepsOldRows(day, chat, "", first, second);
  }
}
