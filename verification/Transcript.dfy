/**
 The open transcript (app/message_list_model.cpp): fetching rows, annotating
 runs and days, and refreshing by append or by reset.

 The calendar day of a timestamp is a parameter.
 */
module Transcript {
  import opened ChatGuids
  import opened Tables
  import opened Queries
  import TextLinks

  datatype File = File(filename: string, mimeType: string, localPath: string, sizeBytes: int, isImage: bool)

  /** What a bubble shows of its own message. */
  datatype Bubble = Bubble(
    guid: string,
    sender: string,
    text: string,
    richText: string,
    isFromMe: bool,
    isUnsent: bool,
    isEdited: bool,
    date: int,
    files: seq<File>)

  /** A bubble, and what it shows because of the one before it. */
  datatype Row = Row(bubble: Bubble, isRunStart: bool, showDaySeparator: bool)

  /** What a view is told, with the rows it then reads. */
  datatype Change = Reset(rows: seq<Row>) | Inserted(first: nat, rows: seq<Row>)

  /** What the attachment query answers for a message. */
  type AttachmentQuery = string -> seq<Attachment>

  const MESSAGE_LIMIT := 500

  // ---------------------------------------------------------------- fetching

  function HandleAddress(db: Db, m: Message): string {
    if m.handle.Some? && m.handle.value in db.handles then db.handles[m.handle.value].address else ""
  }

  function HandleName(db: Db, m: Message): string {
    if m.handle.Some? && m.handle.value in db.handles && db.handles[m.handle.value].displayName != ""
    then db.handles[m.handle.value].displayName
    else HandleAddress(db, m)
  }

  function SenderOf(db: Db, m: Message): string {
    if HandleName(db, m) == "" then HandleAddress(db, m) else HandleName(db, m)
  }

  function FileOf(a: Attachment): File {
    File(a.filename, a.mimeType, a.localPath, a.sizeBytes, "image/" <= a.mimeType)
  }

  function FilesOf(atts: seq<Attachment>): (fs: seq<File>)
    ensures |fs| == |atts| && forall i :: 0 <= i < |atts| ==> fs[i] == FileOf(atts[i])
  {
    if atts == [] then [] else [FileOf(atts[0])] + FilesOf(atts[1..])
  }

  function BubbleOf(db: Db, guid: string, atts: seq<Attachment>): Bubble
    requires guid in db.messages
  {
    var m := db.messages[guid];
    Bubble(guid, SenderOf(db, m), m.text,
           TextLinks.Render(TextLinks.Linkified(m.text)), m.isFromMe, m.isUnsent, m.dateEdited > 0, m.date,
           FilesOf(atts))
  }

  /** A message's bubble; attachments answers the attachment query, which is asked only for the flagged. */
  function Fetch(db: Db, guid: string, attachments: AttachmentQuery): Bubble
    requires guid in db.messages
  {
    BubbleOf(db, guid, if db.messages[guid].hasAttachments then attachments(guid) else [])
  }

  /** One bubble a message, in order. */
  function Fetched(db: Db, guids: seq<string>, attachments: AttachmentQuery): (bubbles: seq<Bubble>)
    requires forall i :: 0 <= i < |guids| ==> guids[i] in db.messages
    ensures |bubbles| == |guids|
    ensures forall i :: 0 <= i < |guids| ==> bubbles[i] == Fetch(db, guids[i], attachments)
  {
    seq(|guids|, i requires 0 <= i < |guids| => Fetch(db, guids[i], attachments))
  }

  predicate HangsOn(db: Db, a: Attachment, guid: string) {
    exists k :: k in db.attachments && db.attachments[k] == a && a.message == guid
  }

  /** The attachment query: the rows of a message, in any order. */
  ghost predicate AnswersAttachments(db: Db, attachments: AttachmentQuery) {
    forall guid: string, a: Attachment :: a in attachments(guid) <==> HangsOn(db, a, guid)
  }

  lemma FilesAreFlagged(db: Db, attachments: AttachmentQuery, guid: string)
    requires AttachmentsOk(db) && AnswersAttachments(db, attachments) && guid in db.messages
    ensures attachments(guid) == [] || db.messages[guid].hasAttachments
  {
    var files := attachments(guid);
    if files != [] {
      assert files[0] in files && HangsOn(db, files[0], guid);
      var k :| k in db.attachments && db.attachments[k] == files[0] && files[0].message == guid;
    }
  }

  /** Skipping the query for messages without the flag loses nothing. */
  lemma FlaggedFetchIsComplete(db: Db, guids: seq<string>, attachments: AttachmentQuery, i: nat)
    requires Valid(db) && AnswersAttachments(db, attachments)
    requires i < |guids| && forall k :: 0 <= k < |guids| ==> guids[k] in db.messages
    ensures Fetched(db, guids, attachments)[i] == BubbleOf(db, guids[i], attachments(guids[i]))
  {
    hide AnswersAttachments, AttachmentsOk, HandlesOk, MembersOk, MessagesOk, ReactionsOk, DatesOk, BubbleOf;
    FilesAreFlagged(db, attachments, guids[i]);
  }

  /** What a bubble renders, read back as HTML, is its message's text and nothing else. */
  lemma BubbleShowsItsText(db: Db, guid: string, atts: seq<Attachment>)
    requires guid in db.messages
    ensures var html := TextLinks.ParseHtml(BubbleOf(db, guid, atts).richText);
            html.Some? && TextLinks.Source(html.value) == db.messages[guid].text
  {
    hide TextLinks.ParseHtml, TextLinks.Render, TextLinks.Linkified, TextLinks.Source;
    TextLinks.ParseBack(db.messages[guid].text);
  }

  /**
   What a bubble says of its message. The sender is the handle's name, else its address, else nobody. The
   files are the attachments the query answered, in its order, an image by its MIME type.
   */
  lemma BubbleSaysExactly(db: Db, guid: string, attachments: AttachmentQuery)
    requires guid in db.messages
    ensures var m, b := db.messages[guid], Fetch(db, guid, attachments);
            && b.guid == guid && b.text == m.text && b.date == m.date
            && (b.isFromMe <==> m.isFromMe) && (b.isUnsent <==> m.isUnsent) && (b.isEdited <==> m.dateEdited > 0)
            && (m.handle.Some? && m.handle.value in db.handles ==>
                  var h := db.handles[m.handle.value];
                  b.sender == if h.displayName == "" then h.address else h.displayName)
            && (m.handle.None? ==> b.sender == "")
            && (!m.hasAttachments ==> b.files == [])
            && (m.hasAttachments ==>
                  var atts := attachments(guid);
                  && |b.files| == |atts|
                  && forall k :: 0 <= k < |atts| ==>
                       && b.files[k].filename == atts[k].filename && b.files[k].mimeType == atts[k].mimeType
                       && b.files[k].localPath == atts[k].localPath && b.files[k].sizeBytes == atts[k].sizeBytes
                       && (b.files[k].isImage <==> |atts[k].mimeType| >= 6 && atts[k].mimeType[..6] == "image/"))
  {
    hide TextLinks.Render, TextLinks.Linkified;
    if db.messages[guid].hasAttachments {
      var atts := attachments(guid);
      forall k | 0 <= k < |atts|
        ensures "image/" <= atts[k].mimeType <==> |atts[k].mimeType| >= 6 && atts[k].mimeType[..6] == "image/"
      {}
    }
  }

  // ---------------------------------------------------------------- annotating

  predicate StartsDay(day: int -> int, prev: Bubble, b: Bubble) {
    day(prev.date) != day(b.date)
  }

  predicate StartsRun(day: int -> int, prev: Bubble, b: Bubble) {
    prev.isFromMe != b.isFromMe || prev.sender != b.sender || StartsDay(day, prev, b)
  }

  /** The row at an index, which depends on the bubble before it and on nothing after it. */
  function RowAt(day: int -> int, bubbles: seq<Bubble>, i: nat): Row
    requires i < |bubbles|
  {
    if i == 0 then Row(bubbles[0], true, true)
    else Row(bubbles[i], StartsRun(day, bubbles[i - 1], bubbles[i]), StartsDay(day, bubbles[i - 1], bubbles[i]))
  }

  function Annotated(day: int -> int, bubbles: seq<Bubble>): (rows: seq<Row>)
    ensures |rows| == |bubbles| && forall i :: 0 <= i < |rows| ==> rows[i] == RowAt(day, bubbles, i)
  {
    seq(|bubbles|, i requires 0 <= i < |bubbles| => RowAt(day, bubbles, i))
  }

  function Bubbles(rows: seq<Row>): (bs: seq<Bubble>)
    ensures |bs| == |rows| && forall i :: 0 <= i < |rows| ==> bs[i] == rows[i].bubble
  {
    seq(|rows|, i requires 0 <= i < |rows| => rows[i].bubble)
  }

  /** annotate: fills the two flags in place, from the first row on. */
  method Annotate(day: int -> int, rows: array<Row>)
    modifies rows
    ensures rows[..] == Annotated(day, Bubbles(old(rows[..])))
  {
    hide StartsRun, StartsDay, Bubbles, Annotated;
    ghost var bubbles := Bubbles(rows[..]);
    for i := 0 to rows.Length
      invariant forall k :: i <= k < rows.Length ==> rows[k].bubble == bubbles[k]
      invariant forall k :: 0 <= k < i ==> rows[k] == RowAt(day, bubbles, k)
    {
      var r := rows[i];
      if i == 0 {
        rows[i] := Row(r.bubble, true, true);
      } else {
        var isRunStart, showDaySeparator := FlagsOf(day, rows[i - 1].bubble, r.bubble);
        rows[i] := Row(r.bubble, isRunStart, showDaySeparator);
      }
    }
  }

  /** The two flags of a row that has one before it. */
  method FlagsOf(day: int -> int, prev: Bubble, b: Bubble) returns (isRunStart: bool, showDaySeparator: bool)
    ensures isRunStart == StartsRun(day, prev, b) && showDaySeparator == StartsDay(day, prev, b)
  {
    isRunStart := prev.isFromMe != b.isFromMe || prev.sender != b.sender;
    var prevDay, thisDay := day(prev.date), day(b.date);
    showDaySeparator := prevDay != thisDay;
    if showDaySeparator { isRunStart := true; }
  }

  /** Annotating a longer list agrees with annotating its prefix. */
  lemma AnnotatePrefix(day: int -> int, bubbles: seq<Bubble>, n: nat)
    requires n <= |bubbles|
    ensures Annotated(day, bubbles)[..n] == Annotated(day, bubbles[..n])
  {
    forall i | 0 <= i < n ensures RowAt(day, bubbles, i) == RowAt(day, bubbles[..n], i) {
      if i > 0 { assert bubbles[..n][i - 1] == bubbles[i - 1]; }
    }
  }

  /** The flags add nothing a bubble could hide. */
  lemma AnnotatedInjective(day: int -> int, a: seq<Bubble>, b: seq<Bubble>)
    ensures Annotated(day, a) == Annotated(day, b) <==> a == b
  {
    if Annotated(day, a) == Annotated(day, b) {
      forall i | 0 <= i < |a| ensures a[i] == b[i] {
        assert Annotated(day, a)[i].bubble == a[i] && Annotated(day, b)[i].bubble == b[i];
      }
    }
  }

  /** Two bubbles of one speaker on one day. */
  predicate OneSpeaker(day: int -> int, a: Bubble, b: Bubble) {
    a.isFromMe == b.isFromMe && a.sender == b.sender && day(a.date) == day(b.date)
  }

  /** No run starts within a stretch of rows exactly when all its bubbles are one speaker's on one day. */
  lemma {:induction false} RunExactly(day: int -> int, bubbles: seq<Bubble>, i: nat, j: nat)
    requires i <= j < |bubbles|
    ensures (forall k :: i < k <= j ==> !Annotated(day, bubbles)[k].isRunStart) <==>
            (forall k :: i <= k <= j ==> OneSpeaker(day, bubbles[i], bubbles[k]))
    decreases j
  {
    if i < j {
      var rows := Annotated(day, bubbles);
      RunExactly(day, bubbles, i, j - 1);
      assert rows[j] == RowAt(day, bubbles, j);
      assert rows[j].isRunStart <==> !OneSpeaker(day, bubbles[j - 1], bubbles[j]);
    }
  }

  /** The first row always starts a run, and a day; and every day starts a run. */
  lemma FirstRowStarts(day: int -> int, bubbles: seq<Bubble>, i: nat)
    requires i < |bubbles|
    ensures Annotated(day, bubbles)[0].isRunStart && Annotated(day, bubbles)[0].showDaySeparator
    ensures Annotated(day, bubbles)[i].showDaySeparator ==> Annotated(day, bubbles)[i].isRunStart
  {
  }

  predicate DaysAscend(day: int -> int, bubbles: seq<Bubble>) {
    forall i, j :: 0 <= i <= j < |bubbles| ==> day(bubbles[i].date) <= day(bubbles[j].date)
  }

  /** In date order every day is announced once, on its first bubble. */
  lemma DaySeparatorExactly(day: int -> int, bubbles: seq<Bubble>, i: nat)
    requires DaysAscend(day, bubbles) && i < |bubbles|
    ensures Annotated(day, bubbles)[i].showDaySeparator <==>
            forall k :: 0 <= k < i ==> day(bubbles[k].date) != day(bubbles[i].date)
  {
    if i > 0 && day(bubbles[i - 1].date) != day(bubbles[i].date) {
      forall k | 0 <= k < i ensures day(bubbles[k].date) != day(bubbles[i].date) {
        assert day(bubbles[k].date) <= day(bubbles[i - 1].date) <= day(bubbles[i].date);
      }
    }
  }

  ghost predicate Monotone(day: int -> int) {
    forall s, t :: s <= t ==> day(s) <= day(t)
  }

  /** What the query lists is in date order, so the separators of a fetched transcript announce every day once. */
  lemma ListedDaysAscend(day: int -> int, db: Db, chat: string, limit: int, out: seq<string>,
                         attachments: AttachmentQuery)
    requires Monotone(day) && Listed(db.messages, chat, limit, out)
    requires forall i :: 0 <= i < |out| ==> out[i] in db.messages
    ensures DaysAscend(day, Fetched(db, out, attachments))
  {
    hide Listed, BubbleOf, Fetch;
    ListedAscend(db.messages, chat, limit, out);
    var bubbles := Fetched(db, out, attachments);
    forall i | 0 <= i < |bubbles| ensures bubbles[i].date == DateOf(db.messages, out[i]) {
      FetchedDate(db, out[i], attachments);
    }
  }

  lemma ListedAscend(messages: map<string, Message>, chat: string, limit: int, out: seq<string>)
    requires Listed(messages, chat, limit, out)
    ensures forall i, j :: 0 <= i <= j < |out| ==> DateOf(messages, out[i]) <= DateOf(messages, out[j])
  {
    hide OmitsOnlyOlder, Distinct, ChatMessages;
    AnswersExactly(messages, chat, Max(limit, 1), out);
  }

  lemma FetchedDate(db: Db, guid: string, attachments: AttachmentQuery)
    requires guid in db.messages
    ensures Fetch(db, guid, attachments).date == DateOf(db.messages, guid)
  {
    hide TextLinks.Render, TextLinks.Linkified;
  }

  // ---------------------------------------------------------------- refreshing

  function Guids(rows: seq<Row>): (gs: seq<string>)
    ensures |gs| == |rows| && forall i :: 0 <= i < |rows| ==> gs[i] == rows[i].bubble.guid
  {
    seq(|rows|, i requires 0 <= i < |rows| => rows[i].bubble.guid)
  }

  /** More rows than a non-empty list, which by guid they begin with. */
  predicate IsAppend(rows: seq<Row>, next: seq<Row>) {
    rows != [] && |next| > |rows| && Guids(next[..|rows|]) == Guids(rows)
  }

  function ChangeTo(rows: seq<Row>, next: seq<Row>): Change {
    if IsAppend(rows, next) then Inserted(|rows|, next[|rows|..]) else Reset(next)
  }

  /** A view that knows only what it was told. */
  function Replay(changes: seq<Change>): seq<Row> {
    if changes == [] then []
    else
      var view, last := Replay(changes[..|changes| - 1]), changes[|changes| - 1];
      match last
      case Reset(rows) => rows
      case Inserted(first, rows) => if first <= |view| then view[..first] + rows + view[first..] else view + rows
  }

  datatype Screen = Screen(chat: string, rows: seq<Row>, changes: seq<Change>)

  function Refreshed(s: Screen, next: seq<Row>): Screen {
    s.(rows := next, changes := s.changes + [ChangeTo(s.rows, next)])
  }

  /** The loop of fetchRows. */
  method FetchBubbles(db: Db, guids: seq<string>, attachments: AttachmentQuery) returns (bubbles: seq<Bubble>)
    requires forall i :: 0 <= i < |guids| ==> guids[i] in db.messages
    ensures bubbles == Fetched(db, guids, attachments)
  {
    bubbles := [];
    for i := 0 to |guids|
      invariant |bubbles| == i
      invariant forall k :: 0 <= k < i ==> bubbles[k] == Fetch(db, guids[k], attachments)
    {
      var bubble := FetchBubble(db, guids[i], attachments);
      bubbles := bubbles + [bubble];
    }
  }

  method FetchBubble(db: Db, guid: string, attachments: AttachmentQuery) returns (bubble: Bubble)
    requires guid in db.messages
    ensures bubble == Fetch(db, guid, attachments)
  {
    var m := db.messages[guid];
    var sender := HandleName(db, m);
    if sender == "" { sender := HandleAddress(db, m); }
    var rich := TextLinks.ToRichText(m.text);
    var files := [];
    if m.hasAttachments { files := FilesOf(attachments(guid)); }
    bubble := Bubble(guid, sender, m.text, rich, m.isFromMe, m.isUnsent, m.dateEdited > 0, m.date, files);
  }

  // ---------------------------------------------------------------- the model's two entries

  /** What makes the model look again: a chat is opened, or messagesChanged arrives. fetched is what the queries answer then. */
  datatype Input =
    | Opened(chat: string, fetched: seq<Bubble>)
    | Notified(chat: string, fetched: seq<Bubble>)

  function NextRows(day: int -> int, chat: string, fetched: seq<Bubble>): seq<Row> {
    if chat == "" then [] else Annotated(day, fetched)
  }

  function Act(day: int -> int, s: Screen, a: Input): Screen {
    match a
    case Opened(chat, fetched) =>
      if s.chat == chat then s else Refreshed(s.(chat := chat), NextRows(day, chat, fetched))
    case Notified(chat, fetched) =>
      if chat == "" || chat == s.chat then Refreshed(s, NextRows(day, s.chat, fetched)) else s
  }

  function Run(day: int -> int, inputs: seq<Input>): Screen {
    if inputs == [] then Screen("", [], [])
    else Act(day, Run(day, inputs[..|inputs| - 1]), inputs[|inputs| - 1])
  }

  class MessageListModel {
    var chatGuid: string
    var rows: seq<Row>
    var changes: seq<Change>

    ghost function Shown(): Screen
      reads this
    {
      Screen(chatGuid, rows, changes)
    }

    constructor ()
      ensures Shown() == Screen("", [], [])
    {
      chatGuid, rows, changes := "", [], [];
    }

    /** fetchRows, from the messages the bridge lists and the attachments it answers. */
    method FetchRows(day: int -> int, db: Db, guids: seq<string>, attachments: AttachmentQuery) returns (next: seq<Row>)
      requires forall i :: 0 <= i < |guids| ==> guids[i] in db.messages
      ensures next == if chatGuid == "" then [] else Annotated(day, Fetched(db, guids, attachments))
    {
      if chatGuid == "" { return []; }
      var bubbles := FetchBubbles(db, guids, attachments);
      var buffer := new Row[|bubbles|](i requires 0 <= i < |bubbles| => Row(bubbles[i], true, false));
      assert Bubbles(buffer[..]) == bubbles;
      Annotate(day, buffer);
      next := buffer[..];
    }

    /** refresh, once the rows are fetched. */
    method Refresh(next: seq<Row>)
      modifies this
      ensures Shown() == Refreshed(old(Shown()), next)
    {
      var isAppend := |next| > |rows| && rows != [];
      var i := 0;
      while isAppend && i < |rows|
        invariant i <= |rows|
        invariant isAppend ==> |next| > |rows| && rows != []
        invariant isAppend ==> forall k :: 0 <= k < i ==> next[k].bubble.guid == rows[k].bubble.guid
        invariant !isAppend ==> !IsAppend(rows, next)
      {
        if rows[i].bubble.guid != next[i].bubble.guid {
          assert Guids(next[..|rows|])[i] != Guids(rows)[i];
          isAppend := false;
        }
        i := i + 1;
      }
      if isAppend {
        var first := |rows|;
        rows := next;
        changes := changes + [Inserted(first, next[first..])];
      } else {
        rows := next;
        changes := changes + [Reset(next)];
      }
    }

    method SetChatGuid(day: int -> int, guid: string, db: Db, guids: seq<string>, attachments: AttachmentQuery)
      requires forall i :: 0 <= i < |guids| ==> guids[i] in db.messages
      modifies this
      ensures Shown() == Act(day, old(Shown()), Opened(guid, Fetched(db, guids, attachments)))
    {
      if chatGuid == guid { return; }
      chatGuid := guid;
      var next := FetchRows(day, db, guids, attachments);
      Refresh(next);
    }

    method OnCoreMessagesChanged(day: int -> int, chat: string, db: Db, guids: seq<string>, attachments: AttachmentQuery)
      requires forall i :: 0 <= i < |guids| ==> guids[i] in db.messages
      modifies this
      ensures Shown() == Act(day, old(Shown()), Notified(chat, Fetched(db, guids, attachments)))
    {
      if chat == "" || chat == chatGuid {
        var next := FetchRows(day, db, guids, attachments);
        Refresh(next);
      }
    }
  }

  // ---------------------------------------------------------------- what the view holds

  /** The fast path is taken exactly for a longer list that begins, by guid, with a non-empty old one; it tells the rest. */
  lemma FastPathExactly(rows: seq<Row>, next: seq<Row>)
    ensures var change := ChangeTo(rows, next);
            && (change.Inserted? <==>
                  rows != [] && |next| > |rows| && forall i :: 0 <= i < |rows| ==> next[i].bubble.guid == rows[i].bubble.guid)
            && (change.Inserted? ==> change.first == |rows| && next == next[..|rows|] + change.rows)
            && (change.Reset? ==> change.rows == next)
  {
    if rows != [] && |next| > |rows| {
      var was, now := Guids(rows), Guids(next[..|rows|]);
      if forall i :: 0 <= i < |rows| ==> next[i].bubble.guid == rows[i].bubble.guid {
        assert now == was;
      }
      if now == was {
        forall i | 0 <= i < |rows| ensures next[i].bubble.guid == rows[i].bubble.guid { assert now[i] == was[i]; }
      }
      assert next == next[..|rows|] + next[|rows|..];
    }
  }

  /** What the model holds after each input: another chat's fetch, or its own again, or what it held. */
  lemma ActExactly(day: int -> int, s: Screen, a: Input)
    ensures var s' := Act(day, s, a);
            match a
            case Opened(chat, fetched) =>
              if chat == s.chat then s' == s
              else s'.chat == chat && (chat == "" ==> s'.rows == []) && (chat != "" ==> s'.rows == Annotated(day, fetched))
            case Notified(chat, fetched) =>
              if chat != "" && chat != s.chat then s' == s
              else s'.chat == s.chat && (s.chat == "" ==> s'.rows == []) && (s.chat != "" ==> s'.rows == Annotated(day, fetched))
  {
  }

  lemma ReplayOneMore(changes: seq<Change>, rows: seq<Row>, next: seq<Row>)
    requires |Replay(changes)| == |rows|
    ensures Replay(changes + [ChangeTo(rows, next)]) == if IsAppend(rows, next) then Replay(changes) + next[|rows|..] else next
  {
    var more := changes + [ChangeTo(rows, next)];
    assert more[..|changes|] == changes;
    var view := Replay(changes);
    assert view[..|view|] == view && view[|view|..] == [];
  }

  lemma RefreshKeepsGuids(s: Screen, next: seq<Row>)
    requires Guids(Replay(s.changes)) == Guids(s.rows)
    ensures Guids(Replay(Refreshed(s, next).changes)) == Guids(next)
  {
    ReplayOneMore(s.changes, s.rows, next);
    if IsAppend(s.rows, next) {
      var view := Replay(s.changes) + next[|s.rows|..];
      forall i | 0 <= i < |next| ensures view[i].bubble.guid == next[i].bubble.guid {
        if i < |s.rows| {
          assert Guids(next[..|s.rows|])[i] == Guids(s.rows)[i] == Guids(Replay(s.changes))[i];
        }
      }
    }
  }

  /** In every run a view that only replays resets and inserts holds the model's guids, in order. */
  lemma {:induction false} ViewHoldsTheGuids(day: int -> int, inputs: seq<Input>)
    ensures Guids(Replay(Run(day, inputs).changes)) == Guids(Run(day, inputs).rows)
  {
    if inputs != [] {
      var before, last := inputs[..|inputs| - 1], inputs[|inputs| - 1];
      ViewHoldsTheGuids(day, before);
      var s := Run(day, before);
      RefreshKeepsGuids(s, NextRows(day, s.chat, last.fetched));
      RefreshKeepsGuids(s.(chat := last.chat), NextRows(day, last.chat, last.fetched));
    }
  }

  /** No bubble that stays changed. */
  predicate OldBubblesKept(rows: seq<Row>, next: seq<Row>) {
    IsAppend(rows, next) ==> Bubbles(next)[..|rows|] == Bubbles(rows)
  }

  /** Rows as annotate leaves them. */
  predicate AreAnnotated(day: int -> int, rows: seq<Row>) {
    rows == Annotated(day, Bubbles(rows))
  }

  lemma AnnotatedAre(day: int -> int, bubbles: seq<Bubble>)
    ensures AreAnnotated(day, Annotated(day, bubbles)) && Bubbles(Annotated(day, bubbles)) == bubbles
  {
    assert Bubbles(Annotated(day, bubbles)) == bubbles;
  }

  /** The old rows of an append are the new list's own exactly when their bubbles are: the flags follow. */
  lemma PrefixExactly(day: int -> int, rows: seq<Row>, next: seq<Row>)
    requires AreAnnotated(day, rows) && AreAnnotated(day, next) && |rows| <= |next|
    ensures next[..|rows|] == rows <==> Bubbles(next)[..|rows|] == Bubbles(rows)
  {
    var n := |rows|;
    AnnotatePrefix(day, Bubbles(next), n);
    AnnotatedInjective(day, Bubbles(next)[..n], Bubbles(rows));
  }

  /** One refresh keeps an exact view exact if and only if no bubble that stays changed. */
  lemma RefreshIsExact(day: int -> int, s: Screen, next: seq<Row>)
    requires Replay(s.changes) == s.rows && AreAnnotated(day, s.rows) && AreAnnotated(day, next)
    ensures Replay(Refreshed(s, next).changes) == next <==> OldBubblesKept(s.rows, next)
  {
    ReplayOneMore(s.changes, s.rows, next);
    if IsAppend(s.rows, next) {
      PrefixExactly(day, s.rows, next);
      assert next == next[..|s.rows|] + next[|s.rows|..];
      assert (s.rows + next[|s.rows|..])[..|s.rows|] == s.rows;
    }
  }

  lemma {:induction false} ModelIsAnnotated(day: int -> int, inputs: seq<Input>)
    ensures AreAnnotated(day, Run(day, inputs).rows)
  {
    hide AreAnnotated, Annotated;
    AnnotatedAre(day, []);
    assert Annotated(day, []) == [];
    if inputs != [] {
      var last := inputs[|inputs| - 1];
      ModelIsAnnotated(day, inputs[..|inputs| - 1]);
      AnnotatedAre(day, last.fetched);
    }
  }

  /** Since the last reset no refresh took the fast path over a changed bubble. A run that ends on a reset meets this as it is. */
  predicate KeptSinceReset(day: int -> int, inputs: seq<Input>) {
    inputs == []
    || var before := inputs[..|inputs| - 1];
       var s, s' := Run(day, before), Run(day, inputs);
       if s'.changes == s.changes then KeptSinceReset(day, before)
       else IsAppend(s.rows, s'.rows) ==> OldBubblesKept(s.rows, s'.rows) && KeptSinceReset(day, before)
  }

  lemma ActRefreshes(day: int -> int, s: Screen, a: Input)
    ensures var s' := Act(day, s, a);
            if s'.changes == s.changes then s'.rows == s.rows else s'.changes == s.changes + [ChangeTo(s.rows, s'.rows)]
  {
    hide Annotated, ChangeTo;
  }

  /** The fast path refines the full reset: while nothing old changes the view holds the model's rows, flags included. */
  lemma {:induction false} AppendRefinesReset(day: int -> int, inputs: seq<Input>)
    requires KeptSinceReset(day, inputs)
    ensures Replay(Run(day, inputs).changes) == Run(day, inputs).rows
  {
    if inputs != [] {
      hide OldBubblesKept, AreAnnotated, Replay, Act, IsAppend;
      var before := inputs[..|inputs| - 1];
      var s, next := Run(day, before), Run(day, inputs).rows;
      ActRefreshes(day, s, inputs[|inputs| - 1]);
      if Run(day, inputs).changes == s.changes {
        AppendRefinesReset(day, before);
      } else {
        ViewHoldsTheGuids(day, before);
        ReplayOneMore(s.changes, s.rows, next);
        if IsAppend(s.rows, next) {
          AppendRefinesReset(day, before);
          ModelIsAnnotated(day, before);
          ModelIsAnnotated(day, inputs);
          RefreshIsExact(day, s, next);
        }
      }
    }
  }

  /** The fetch in which the view was last told row i. */
  function Told(day: int -> int, inputs: seq<Input>, i: nat): (bubbles: seq<Bubble>)
    requires i < |Run(day, inputs).rows|
    ensures i < |bubbles|
  {
    var before := inputs[..|inputs| - 1];
    var s, s' := Run(day, before), Run(day, inputs);
    ActRefreshes(day, s, inputs[|inputs| - 1]);
    if s'.changes == s.changes || (IsAppend(s.rows, s'.rows) && i < |s.rows|) then Told(day, before, i)
    else Bubbles(s'.rows)
  }

  /** In every run each row of the view is the row of the fetch in which it was last told. */
  lemma {:induction false} ViewRowAsTold(day: int -> int, inputs: seq<Input>, i: nat)
    requires i < |Run(day, inputs).rows|
    ensures |Replay(Run(day, inputs).changes)| == |Run(day, inputs).rows|
    ensures Replay(Run(day, inputs).changes)[i] == RowAt(day, Told(day, inputs, i), i)
  {
    hide Act, RowAt, Replay, IsAppend;
    var before := inputs[..|inputs| - 1];
    var s, next := Run(day, before), Run(day, inputs).rows;
    ActRefreshes(day, s, inputs[|inputs| - 1]);
    ViewHoldsTheGuids(day, before);
    ViewHoldsTheGuids(day, inputs);
    ReplayOneMore(s.changes, s.rows, next);
    ModelIsAnnotated(day, inputs);
    if Run(day, inputs).changes == s.changes || (IsAppend(s.rows, next) && i < |s.rows|) { ViewRowAsTold(day, before, i); }
  }

  /**
   The view is exact if and only if every row comes out of the last fetch as it came out of the one in
   which it was last told. Equal bubbles would not do: a flag may rest on a predecessor that changed back.
   */
  lemma ViewIsExactly(day: int -> int, inputs: seq<Input>)
    ensures Replay(Run(day, inputs).changes) == Run(day, inputs).rows <==>
            forall i :: 0 <= i < |Run(day, inputs).rows| ==>
              RowAt(day, Told(day, inputs, i), i) == RowAt(day, Bubbles(Run(day, inputs).rows), i)
  {
    hide Act, RowAt, Replay, Told, Run;
    var s := Run(day, inputs);
    ViewHoldsTheGuids(day, inputs);
    ModelIsAnnotated(day, inputs);
    forall i | 0 <= i < |s.rows|
      ensures Replay(s.changes)[i] == RowAt(day, Told(day, inputs, i), i) && s.rows[i] == RowAt(day, Bubbles(s.rows), i)
    {
      ViewRowAsTold(day, inputs, i);
    }
  }

  /** After opening a chat and one refresh by append, the old rows of the view are those of the first fetch. */
  lemma FastPathKeepsOldRows(day: int -> int, chat: string, notified: string, first: seq<Bubble>, second: seq<Bubble>)
    requires chat != "" && (notified == "" || notified == chat)
    requires 0 < |first| < |second| && forall i :: 0 <= i < |first| ==> first[i].guid == second[i].guid
    ensures var s := Run(day, [Opened(chat, first), Notified(notified, second)]);
            && s.rows == Annotated(day, second)
            && Replay(s.changes) == Annotated(day, first) + Annotated(day, second)[|first|..]
  {
    hide Annotated;
    var inputs := [Opened(chat, first), Notified(notified, second)];
    var start, rows, next := Screen("", [], []), Annotated(day, first), Annotated(day, second);
    assert inputs[..1] == [Opened(chat, first)] && inputs[..1][..0] == [];
    assert Run(day, inputs[..1]) == Act(day, start, Opened(chat, first)) == Refreshed(start.(chat := chat), rows);
    assert Replay(start.changes) == [];
    ReplayOneMore(start.changes, start.rows, rows);
    assert Run(day, inputs) == Refreshed(Run(day, inputs[..1]), next);
    ReplayOneMore(Run(day, inputs[..1]).changes, rows, next);
    assert Guids(next[..|rows|]) == Guids(rows);
  }

  // ---------------------------------------------------------------- when the fast path is taken

  predicate DistinctDates(messages: map<string, Message>, chat: string) {
    forall g, h :: g in ChatMessages(messages, chat) && h in ChatMessages(messages, chat) && g != h ==>
      DateOf(messages, g) != DateOf(messages, h)
  }

  /** Without ties an answer is unique. */
  lemma AnswerIsUnique(messages: map<string, Message>, chat: string, limit: int, a: seq<string>, b: seq<string>)
    requires DistinctDates(messages, chat) && Newest(messages, chat, limit, a) && Newest(messages, chat, limit, b)
    ensures a == b
  {
    forall i | 0 <= i < |a| ensures a[i] == b[i] {
      DatesAtLeast(messages, chat, limit, a, b, i);
      DatesAtLeast(messages, chat, limit, b, a, i);
      assert a[i] in Elements(a) && b[i] in Elements(b);
    }
  }

  /** guid is a new message of the chat, newer than all of it. */
  predicate Arrives(messages: map<string, Message>, messages': map<string, Message>, chat: string, guid: string) {
    && guid !in messages && guid in messages' && messages' == messages[guid := messages'[guid]] && messages'[guid].chat == chat
    && forall g :: g in ChatMessages(messages, chat) ==> messages[g].date < messages'[guid].date
  }

  lemma ArrivalListsLast(messages: map<string, Message>, messages': map<string, Message>, chat: string, guid: string,
                         limit: int,
                         out: seq<string>)
    requires Arrives(messages, messages', chat, guid) && Newest(messages, chat, limit, out)
    requires |ChatMessages(messages, chat)| < limit
    ensures Newest(messages', chat, limit, out + [guid])
  {
    hide Distinct, Ascending, ChatMessages, Arrives;
    var all := ChatMessages(messages, chat);
    DistinctCount(out);
    SubsetCount(Elements(out), all);
    ArrivalJoins(messages, messages', chat, guid, out);
    SameDatesAscend(messages, messages', out);
    AppendDistinct(messages', out, guid);
    DistinctCount(out + [guid]);
    ArrivalElements(messages, messages', chat, guid, out);
  }

  lemma ArrivalElements(messages: map<string, Message>, messages': map<string, Message>, chat: string, guid: string,
                        out: seq<string>)
    requires Arrives(messages, messages', chat, guid) && Elements(out) == ChatMessages(messages, chat)
    ensures Elements(out + [guid]) == ChatMessages(messages', chat)
  {
    assert forall x :: x in out + [guid] <==> x in out || x == guid;
    assert forall x :: x in out <==> x in ChatMessages(messages, chat);
  }

  lemma SameDatesAscend(messages: map<string, Message>, messages': map<string, Message>, out: seq<string>)
    requires Ascending(messages, out) && forall x :: x in out ==> DateOf(messages', x) == DateOf(messages, x)
    ensures Ascending(messages', out)
  {
    hide DateOf;
  }

  /** To the listed messages the arrival is another one, and the newest. */
  lemma ArrivalJoins(messages: map<string, Message>, messages': map<string, Message>, chat: string, guid: string,
                     out: seq<string>)
    requires Arrives(messages, messages', chat, guid) && Elements(out) <= ChatMessages(messages, chat)
    ensures forall x :: x in out ==> x != guid && DateOf(messages', x) == DateOf(messages, x) <= DateOf(messages', guid)
  {
    forall x | x in out ensures x != guid && DateOf(messages', x) == DateOf(messages, x) <= DateOf(messages', guid) {
      assert x in Elements(out);
    }
  }

  lemma AppendDistinct(messages: map<string, Message>, out: seq<string>, guid: string)
    requires Distinct(out) && Ascending(messages, out)
    requires forall x :: x in out ==> x != guid && DateOf(messages, x) <= DateOf(messages, guid)
    ensures Distinct(out + [guid]) && Ascending(messages, out + [guid])
  {
    forall i, j | 0 <= i < j < |out + [guid]|
      ensures DateOf(messages, (out + [guid])[i]) <= DateOf(messages, (out + [guid])[j]) && (out + [guid])[i] != (out + [guid])[j]
    {
      assert out[i] in out;
    }
  }

  lemma ArrivalKeepsDatesDistinct(messages: map<string, Message>, messages': map<string, Message>, chat: string,
                                  guid: string)
    requires Arrives(messages, messages', chat, guid) && DistinctDates(messages, chat)
    ensures DistinctDates(messages', chat)
  {
    assert ChatMessages(messages', chat) == ChatMessages(messages, chat) + {guid};
    forall g | g in ChatMessages(messages, chat) ensures DateOf(messages', g) == DateOf(messages, g) < DateOf(messages', guid) {}
  }

  /** A newest arrival in a chat without ties and below the limit is listed after an unchanged list. */
  lemma ArrivalIsListedLast(messages: map<string, Message>, messages': map<string, Message>, chat: string, guid: string,
                            out: seq<string>, out': seq<string>)
    requires Arrives(messages, messages', chat, guid) && DistinctDates(messages, chat)
    requires |ChatMessages(messages, chat)| < MESSAGE_LIMIT
    requires Listed(messages, chat, MESSAGE_LIMIT, out) && Listed(messages', chat, MESSAGE_LIMIT, out')
    ensures out' == out + [guid]
  {
    AnswersExactly(messages, chat, MESSAGE_LIMIT, out);
    AnswersExactly(messages', chat, MESSAGE_LIMIT, out');
    ArrivalListsLast(messages, messages', chat, guid, MESSAGE_LIMIT, out);
    ArrivalKeepsDatesDistinct(messages, messages', chat, guid);
    AnswerIsUnique(messages', chat, MESSAGE_LIMIT, out + [guid], out');
  }

  /** A message of both states shows the same sender and the same files in both. */
  predicate ShowsSame(db: Db, db': Db, guid: string, attachments: AttachmentQuery, attachments': AttachmentQuery)
    requires guid in db.messages
  {
    var m := db.messages[guid];
    && SenderOf(db', m) == SenderOf(db, m)
    && (m.hasAttachments ==> FilesOf(attachments'(guid)) == FilesOf(attachments(guid)))
  }

  lemma SameBubbleExactly(db: Db, db': Db, guid: string, attachments: AttachmentQuery, attachments': AttachmentQuery)
    requires guid in db.messages && guid in db'.messages && db'.messages[guid] == db.messages[guid]
    ensures Fetch(db', guid, attachments') == Fetch(db, guid, attachments) <==>
            ShowsSame(db, db', guid, attachments, attachments')
  {
    hide SenderOf, TextLinks.Render, TextLinks.Linkified;
  }

  lemma ArrivalKeepsBubblesExactly(db: Db, db': Db, chat: string, guid: string, out: seq<string>,
                                   attachments: AttachmentQuery, attachments': AttachmentQuery)
    requires Arrives(db.messages, db'.messages, chat, guid)
    requires forall i :: 0 <= i < |out| ==> out[i] in db.messages
    ensures Fetched(db', out + [guid], attachments')[..|out|] == Fetched(db, out, attachments) <==>
            forall i :: 0 <= i < |out| ==> ShowsSame(db, db', out[i], attachments, attachments')
  {
    hide Fetch, ShowsSame;
    var was, next := Fetched(db, out, attachments), Fetched(db', out + [guid], attachments');
    forall i | 0 <= i < |out|
      ensures next[..|out|][i] == was[i] <==> ShowsSame(db, db', out[i], attachments, attachments')
    {
      assert (out + [guid])[i] == out[i];
      SameBubbleExactly(db, db', out[i], attachments, attachments');
    }
  }

  /**
   Such an arrival takes the fast path, one row behind the old ones. The old rows are exact, flags
   included, if and only if their messages still show the same senders and files.
   */
  lemma ArrivalTakesTheFastPath(day: int -> int, db: Db, db': Db, chat: string, guid: string, out: seq<string>,
                                out': seq<string>,
                                attachments: AttachmentQuery, attachments': AttachmentQuery)
    requires Arrives(db.messages, db'.messages, chat, guid) && DistinctDates(db.messages, chat)
    requires 0 < |ChatMessages(db.messages, chat)| < MESSAGE_LIMIT
    requires Listed(db.messages, chat, MESSAGE_LIMIT, out) && Listed(db'.messages, chat, MESSAGE_LIMIT, out')
    requires forall i :: 0 <= i < |out| ==> out[i] in db.messages
    requires forall i :: 0 <= i < |out'| ==> out'[i] in db'.messages
    ensures var rows := Annotated(day, Fetched(db, out, attachments));
            var next := Annotated(day, Fetched(db', out', attachments'));
            && IsAppend(rows, next) && |next| == |rows| + 1
            && (next[..|rows|] == rows <==> forall i :: 0 <= i < |out| ==> ShowsSame(db, db', out[i], attachments, attachments'))
  {
    hide Fetch, Listed, DistinctDates, ChatMessages, ShowsSame, Annotated;
    ArrivalIsListedLast(db.messages, db'.messages, chat, guid, out, out');
    ListedCount(db.messages, chat, out);
    ArrivalKeepsBubblesExactly(db, db', chat, guid, out, attachments, attachments');
    var was, now := Fetched(db, out, attachments), Fetched(db', out', attachments');
    AnnotatedAre(day, was);
    AnnotatedAre(day, now);
    PrefixExactly(day, Annotated(day, was), Annotated(day, now));
    forall i | 0 <= i < |out| ensures now[i].guid == was[i].guid {
      assert out'[i] == out[i];
      FetchedGuid(db, out[i], attachments);
      FetchedGuid(db', out[i], attachments');
    }
    SameGuidsAppend(day, was, now);
  }

  lemma FetchedGuid(db: Db, guid: string, attachments: AttachmentQuery)
    requires guid in db.messages
    ensures Fetch(db, guid, attachments).guid == guid
  {
    hide TextLinks.Render, TextLinks.Linkified;
  }

  lemma SameGuidsAppend(day: int -> int, was: seq<Bubble>, now: seq<Bubble>)
    requires 0 < |was| < |now| && forall i :: 0 <= i < |was| ==> now[i].guid == was[i].guid
    ensures IsAppend(Annotated(day, was), Annotated(day, now))
  {
    hide StartsRun, StartsDay;
  }

  /** New handles beside the old ones change no bubble. */
  lemma OldHandlesShowSame(db: Db, db': Db, guid: string, attachments: AttachmentQuery, attachments': AttachmentQuery)
    requires MessagesOk(db) && guid in db.messages && KeepsHandleRows(db, db') && attachments'(guid) == attachments(guid)
    ensures ShowsSame(db, db', guid, attachments, attachments')
  {
  }

  lemma ListedCount(messages: map<string, Message>, chat: string, out: seq<string>)
    requires Listed(messages, chat, MESSAGE_LIMIT, out)
    ensures |out| == Wanted(500, |ChatMessages(messages, chat)|)
  {
    AnswersExactly(messages, chat, MESSAGE_LIMIT, out);
  }

  /** Once the list is as long as the limit every refresh is a reset. */
  lemma FullHistoryAlwaysResets(messages: map<string, Message>, chat: string, out: seq<string>, rows: seq<Row>,
                                next: seq<Row>)
    requires Listed(messages, chat, MESSAGE_LIMIT, out) && |next| == |out| && |rows| >= 500
    ensures !IsAppend(rows, next) && ChangeTo(rows, next) == Reset(next)
  {
    ListedCount(messages, chat, out);
  }
}
