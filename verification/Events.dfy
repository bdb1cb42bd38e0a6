/**
 Events from the core and how one poll folds a burst of them into signals
 (rust/src/events.rs; rust/src/ffi.rs, event_to_dto; app/core_bridge.cpp,
 pollEvents; app/message_list_model.cpp, onCoreMessagesChanged).
 */
module Events {
  import opened Wrappers

  datatype Event =
    | Info(text: string)
    | Warn(text: string)
    | Error(text: string)
    | ChatCreated(chat: string)
    | ChatUpdated(chat: string)
    | MessageArrived(chat: string, message: string)
    | MessageSent(chat: string, message: string)
    | MessageFailed(chat: string, message: string, reason: string)
    | AuthStateChanged(state: string)
    | TypingStatusChanged(chat: string, isTyping: bool)

  datatype Dto = Dto(kind: string, text: string, chat: string, message: string, flag: bool)

  function ToDto(ev: Event): Dto {
    match ev
    case Info(t) => Dto("info", t, "", "", false)
    case Warn(t) => Dto("warn", t, "", "", false)
    case Error(t) => Dto("error", t, "", "", false)
    case ChatCreated(c) => Dto("chat_created", "", c, "", false)
    case ChatUpdated(c) => Dto("chat_updated", "", c, "", false)
    case MessageArrived(c, m) => Dto("message_arrived", "", c, m, false)
    case MessageSent(c, m) => Dto("message_sent", "", c, m, false)
    case MessageFailed(c, m, r) => Dto("message_failed", r, c, m, false)
    case AuthStateChanged(s) => Dto("auth_state", s, "", "", false)
    case TypingStatusChanged(c, t) => Dto("typing", "", c, "", t)
  }

  function ToDtos(evs: seq<Event>): (ds: seq<Dto>)
    ensures |ds| == |evs| && forall i :: 0 <= i < |evs| ==> ds[i] == ToDto(evs[i])
  {
    if evs == [] then [] else [ToDto(evs[0])] + ToDtos(evs[1..])
  }

  datatype Signal =
    | AuthLabelChanged
    | StatusLineChanged
    | Toast(text: string)
    | ChatsChanged
    | MessagesChanged(chat: string)

  // ---------------------------------------------------------------- what a burst means

  predicate IsMessageEvent(ev: Dto) {
    ev.kind == "message_failed" || ev.kind == "message_arrived" || ev.kind == "message_sent"
  }

  predicate TouchesChats(ev: Dto) {
    IsMessageEvent(ev) || ev.kind == "chat_created" || ev.kind == "chat_updated"
  }

  predicate ChatsTouched(evs: seq<Dto>) {
    evs != [] && (TouchesChats(evs[|evs| - 1]) || ChatsTouched(evs[..|evs| - 1]))
  }

  lemma {:induction false} ChatsTouchedExactly(evs: seq<Dto>)
    ensures ChatsTouched(evs) <==> exists i :: 0 <= i < |evs| && TouchesChats(evs[i])
  {
    if evs != [] { ChatsTouchedExactly(evs[..|evs| - 1]); }
  }

  /** The chats the message events of a burst name, in order. */
  function MessageChats(evs: seq<Dto>): seq<string> {
    if evs == [] then []
    else
      var last := evs[|evs| - 1];
      MessageChats(evs[..|evs| - 1]) + if IsMessageEvent(last) then [last.chat] else []
  }

  /** The one chat that all of them name, or the empty string. */
  function OnlyChat(chats: seq<string>): string {
    if chats != [] && forall i :: 0 <= i < |chats| ==> chats[i] == chats[0] then chats[0] else ""
  }

  /** What a burst shows immediately: label, status line, signals. */
  datatype Shown = Shown(auth: string, status: string, signals: seq<Signal>)

  function SetStatus(s: Shown, line: string): Shown {
    if s.status == line then s else s.(status := line, signals := s.signals + [StatusLineChanged])
  }

  function ShowOne(s: Shown, ev: Dto): Shown {
    if ev.kind == "auth_state" then
      SetStatus(if s.auth == ev.text then s else s.(auth := ev.text, signals := s.signals + [AuthLabelChanged]),
                "auth: " + ev.text)
    else if ev.kind == "error" then s.(signals := s.signals + [Toast("error: " + ev.text)])
    else if ev.kind == "warn" then s.(signals := s.signals + [Toast("warn: " + ev.text)])
    else if ev.kind == "info" then SetStatus(s, ev.text)
    else if ev.kind == "message_failed" then s.(signals := s.signals + [Toast("send failed: " + ev.text)])
    else s
  }

  function ShowAll(s: Shown, evs: seq<Dto>): Shown {
    if evs == [] then s else ShowOne(ShowAll(s, evs[..|evs| - 1]), evs[|evs| - 1])
  }

  /** The two coalesced signals that close a poll. */
  function Closing(evs: seq<Dto>): seq<Signal> {
    (if ChatsTouched(evs) then [ChatsChanged] else [])
    + if MessageChats(evs) != [] then [MessagesChanged(OnlyChat(MessageChats(evs)))] else []
  }

  // ---------------------------------------------------------------- what a burst shows

  predicate IsAuth(ev: Dto) {
    ev.kind == "auth_state"
  }

  /** The status line an event writes. */
  function LineOf(ev: Dto): Option<string> {
    if ev.kind == "auth_state" then Some("auth: " + ev.text)
    else if ev.kind == "info" then Some(ev.text)
    else None
  }

  function ToastOf(ev: Dto): Option<string> {
    if ev.kind == "error" then Some("error: " + ev.text)
    else if ev.kind == "warn" then Some("warn: " + ev.text)
    else if ev.kind == "message_failed" then Some("send failed: " + ev.text)
    else None
  }

  /** The toasts of a burst, in order. */
  function Toasts(evs: seq<Dto>): seq<string> {
    if evs == [] then []
    else Toasts(evs[..|evs| - 1]) + match ToastOf(evs[|evs| - 1]) case None => [] case Some(t) => [t]
  }

  function ToastsIn(signals: seq<Signal>): seq<string> {
    if signals == [] then []
    else ToastsIn(signals[..|signals| - 1]) + match signals[|signals| - 1] case Toast(t) => [t] case _ => []
  }

  /** What a burst leaves of a value that some of its events write: the last one written. */
  predicate IsLastWritten(written: seq<Option<string>>, was: string, now: string) {
    && ((forall i :: 0 <= i < |written| ==> written[i].None?) ==> now == was)
    && (forall i :: 0 <= i < |written| && written[i].Some? && (forall j :: i < j < |written| ==> written[j].None?) ==>
          now == written[i].value)
  }

  lemma WrittenOneMore(written: seq<Option<string>>, was: string, now: string, next: Option<string>)
    requires IsLastWritten(written, was, now)
    ensures IsLastWritten(written + [next], was, if next.Some? then next.value else now)
  {
    var more := written + [next];
    assert more[|written|] == next;
    assert forall i :: 0 <= i < |written| ==> more[i] == written[i];
    if next.None? {
      forall i | 0 <= i < |more| && more[i].Some? && (forall j :: i < j < |more| ==> more[j].None?)
        ensures now == more[i].value
      {
        assert forall j :: i < j < |written| ==> more[j].None?;
      }
    }
  }

  function AuthsOf(evs: seq<Dto>): (ws: seq<Option<string>>)
    ensures |ws| == |evs| && forall i :: 0 <= i < |evs| ==> ws[i] == if IsAuth(evs[i]) then Some(evs[i].text) else None
  {
    seq(|evs|, i requires 0 <= i < |evs| => if IsAuth(evs[i]) then Some(evs[i].text) else None)
  }

  function LinesOf(evs: seq<Dto>): (ws: seq<Option<string>>)
    ensures |ws| == |evs| && forall i :: 0 <= i < |evs| ==> ws[i] == LineOf(evs[i])
  {
    seq(|evs|, i requires 0 <= i < |evs| => LineOf(evs[i]))
  }

  /** How many writes change the value then shown. */
  function Changes(written: seq<Option<string>>, was: string): nat {
    if written == [] then 0
    else
      var next := written[0];
      if next.Some? && next.value != was then 1 + Changes(written[1..], next.value) else Changes(written[1..], was)
  }

  /** The value after all writes. */
  function Final(written: seq<Option<string>>, was: string): string {
    if written == [] then was
    else Final(written[1..], if written[0].Some? then written[0].value else was)
  }

  lemma {:induction false} ChangesOneMore(written: seq<Option<string>>, was: string, next: Option<string>)
    ensures Final(written + [next], was) == if next.Some? then next.value else Final(written, was)
    ensures Changes(written + [next], was)
            == Changes(written, was) + if next.Some? && next.value != Final(written, was) then 1 else 0
  {
    if written == [] {
      assert ([] + [next])[1..] == [];
    } else {
      assert (written + [next])[1..] == written[1..] + [next];
      ChangesOneMore(written[1..], if written[0].Some? then written[0].value else was, next);
    }
  }

  function CountOf(signals: seq<Signal>, signal: Signal): nat {
    multiset(signals)[signal]
  }

  /** A burst shown over a display: what its label, line and signals have become. */
  predicate Presents(s: Shown, evs: seq<Dto>, s': Shown) {
    && IsLastWritten(AuthsOf(evs), s.auth, s'.auth)
    && IsLastWritten(LinesOf(evs), s.status, s'.status)
    && ToastsIn(s'.signals) == ToastsIn(s.signals) + Toasts(evs)
    && CountOf(s'.signals, AuthLabelChanged) == CountOf(s.signals, AuthLabelChanged) + Changes(AuthsOf(evs), s.auth)
    && CountOf(s'.signals, StatusLineChanged) == CountOf(s.signals, StatusLineChanged) + Changes(LinesOf(evs), s.status)
    && |s'.signals| == |s.signals| + |Toasts(evs)| + Changes(AuthsOf(evs), s.auth) + Changes(LinesOf(evs), s.status)
    && s'.auth == Final(AuthsOf(evs), s.auth) && s'.status == Final(LinesOf(evs), s.status)
  }

  lemma SignalsOneMore(signals: seq<Signal>, next: Signal)
    ensures ToastsIn(signals + [next]) == ToastsIn(signals) + match next case Toast(t) => [t] case _ => []
    ensures forall x :: CountOf(signals + [next], x) == CountOf(signals, x) + if x == next then 1 else 0
  {
    assert (signals + [next])[..|signals|] == signals;
  }

  lemma WritesOneMore(evs: seq<Dto>)
    requires evs != []
    ensures var n := |evs| - 1;
            && AuthsOf(evs) == AuthsOf(evs[..n]) + [if IsAuth(evs[n]) then Some(evs[n].text) else None]
            && LinesOf(evs) == LinesOf(evs[..n]) + [LineOf(evs[n])]
  {
  }

  lemma SetStatusPresents(s: Shown, line: string)
    ensures var s' := SetStatus(s, line);
            && s'.auth == s.auth && s'.status == line
            && ToastsIn(s'.signals) == ToastsIn(s.signals)
            && CountOf(s'.signals, AuthLabelChanged) == CountOf(s.signals, AuthLabelChanged)
            && CountOf(s'.signals, StatusLineChanged)
               == CountOf(s.signals, StatusLineChanged) + (if line != s.status then 1 else 0)
            && |s'.signals| == |s.signals| + if line != s.status then 1 else 0
  {
    hide ToastsIn, CountOf;
    SignalsOneMore(s.signals, StatusLineChanged);
  }

  /** What one event adds to label, line and signals. */
  lemma ShowOnePresents(s: Shown, ev: Dto)
    ensures var s' := ShowOne(s, ev);
            var relabels := IsAuth(ev) && ev.text != s.auth;
            var rewrites := LineOf(ev).Some? && LineOf(ev).value != s.status;
            && s'.auth == (if IsAuth(ev) then ev.text else s.auth)
            && s'.status == (if LineOf(ev).Some? then LineOf(ev).value else s.status)
            && ToastsIn(s'.signals) == ToastsIn(s.signals) + (match ToastOf(ev) case None => [] case Some(t) => [t])
            && CountOf(s'.signals, AuthLabelChanged) == CountOf(s.signals, AuthLabelChanged) + (if relabels then 1 else 0)
            && CountOf(s'.signals, StatusLineChanged) == CountOf(s.signals, StatusLineChanged) + (if rewrites then 1 else 0)
            && |s'.signals| == |s.signals| + (if ToastOf(ev).Some? then 1 else 0) + (if relabels then 1 else 0)
                               + (if rewrites then 1 else 0)
  {
    hide ToastsIn, CountOf, SetStatus;
    if IsAuth(ev) {
      var labelled := if s.auth == ev.text then s else s.(auth := ev.text, signals := s.signals + [AuthLabelChanged]);
      SignalsOneMore(s.signals, AuthLabelChanged);
      SetStatusPresents(labelled, "auth: " + ev.text);
    } else if ToastOf(ev).Some? {
      SignalsOneMore(s.signals, Toast(ToastOf(ev).value));
    } else if LineOf(ev).Some? {
      SetStatusPresents(s, ev.text);
    }
  }

  /**
   After every burst the label is the text of its last sign-in event, or as it was; the status line that of
   its last sign-in or info event; every error, warning and failure is one toast, in order and prefixed; and
   label and line are signalled once for each event that changes what is then shown, and for nothing else.
   */
  lemma {:induction false} BurstPresents(s: Shown, evs: seq<Dto>)
    ensures Presents(s, evs, ShowAll(s, evs))
  {
    hide ShowOne, ToastsIn, CountOf, IsLastWritten, Changes, Final, LineOf, ToastOf;
    if evs == [] {
      NothingPresented(s);
    } else {
      var n := |evs| - 1;
      var before, ev := ShowAll(s, evs[..n]), evs[n];
      BurstPresents(s, evs[..n]);
      ShowOnePresents(before, ev);
      WritesOneMore(evs);
      var auth := if IsAuth(ev) then Some(ev.text) else None;
      WrittenOneMore(AuthsOf(evs[..n]), s.auth, before.auth, auth);
      WrittenOneMore(LinesOf(evs[..n]), s.status, before.status, LineOf(ev));
      ChangesOneMore(AuthsOf(evs[..n]), s.auth, auth);
      ChangesOneMore(LinesOf(evs[..n]), s.status, LineOf(ev));
    }
  }

  lemma NothingPresented(s: Shown)
    ensures Presents(s, [], s)
  {
    assert AuthsOf([]) == [] && LinesOf([]) == [];
  }

  // ---------------------------------------------------------------- the poll

  class CoreBridge {
    var authLabel: string
    var statusLine: string
    var signals: seq<Signal>

    ghost function Display(): Shown
      reads this
    {
      Shown(authLabel, statusLine, signals)
    }

    constructor (auth: string)
      ensures Display() == Shown(auth, "", [])
    {
      authLabel, statusLine, signals := auth, "", [];
    }

    method SetStatusLine(line: string)
      modifies this
      ensures Display() == SetStatus(old(Display()), line)
    {
      if statusLine == line { return; }
      statusLine := line;
      signals := signals + [StatusLineChanged];
    }

    /** One burst: everything is shown in order, then at most one signal for the chats and one for the messages. */
    method PollEvents(events: seq<Dto>)
      modifies this
      ensures var shown := ShowAll(old(Display()), events);
              Display() == shown.(signals := shown.signals + Closing(events)) && Presents(old(Display()), events, shown)
    {
      hide Presents;
      BurstPresents(Display(), events);
      if events == [] { return; }
      var chatsDirty, messagesDirtyAny, messagesDirtyFor := false, false, "";
      for n := 0 to |events|
        invariant Display() == ShowAll(old(Display()), events[..n])
        invariant chatsDirty <==> ChatsTouched(events[..n])
        invariant messagesDirtyAny <==> MessageChats(events[..n]) != []
        invariant messagesDirtyFor == OnlyChat(MessageChats(events[..n]))
      {
        var ev := events[n];
        Prefix(events, n);
        if ev.kind == "auth_state" {
          if authLabel != ev.text {
            authLabel := ev.text;
            signals := signals + [AuthLabelChanged];
          }
          SetStatusLine("auth: " + ev.text);
        } else if ev.kind == "error" {
          signals := signals + [Toast("error: " + ev.text)];
        } else if ev.kind == "warn" {
          signals := signals + [Toast("warn: " + ev.text)];
        } else if ev.kind == "info" {
          SetStatusLine(ev.text);
        } else if ev.kind == "message_failed" {
          signals := signals + [Toast("send failed: " + ev.text)];
          chatsDirty := true;
          messagesDirtyAny, messagesDirtyFor := Mark(messagesDirtyAny, messagesDirtyFor, ev.chat, MessageChats(events[..n]));
        } else if ev.kind == "message_arrived" || ev.kind == "message_sent" {
          chatsDirty := true;
          messagesDirtyAny, messagesDirtyFor := Mark(messagesDirtyAny, messagesDirtyFor, ev.chat, MessageChats(events[..n]));
        } else if ev.kind == "chat_created" || ev.kind == "chat_updated" {
          chatsDirty := true;
        }
      }
      assert events[..|events|] == events;
      if chatsDirty { signals := signals + [ChatsChanged]; }
      if messagesDirtyAny { signals := signals + [MessagesChanged(messagesDirtyFor)]; }
    }
  }

  /** What one more event adds. */
  lemma Prefix(evs: seq<Dto>, n: nat)
    requires n < |evs|
    ensures forall s :: ShowAll(s, evs[..n + 1]) == ShowOne(ShowAll(s, evs[..n]), evs[n])
    ensures ChatsTouched(evs[..n + 1]) <==> TouchesChats(evs[n]) || ChatsTouched(evs[..n])
    ensures MessageChats(evs[..n + 1])
            == if IsMessageEvent(evs[n]) then MessageChats(evs[..n]) + [evs[n].chat] else MessageChats(evs[..n])
  {
    assert evs[..n + 1][..n] == evs[..n];
  }

  /** The closure markMessages: of the chats marked so far, which one is dirty, or none in particular. */
  method Mark(any: bool, dirtyFor: string, chat: string, ghost marked: seq<string>) returns (any': bool,
              dirtyFor': string)
    requires any <==> marked != []
    requires dirtyFor == OnlyChat(marked)
    ensures any' && dirtyFor' == OnlyChat(marked + [chat])
  {
    MarkMessages(marked, chat);
    dirtyFor' := dirtyFor;
    if any && dirtyFor != chat {
      dirtyFor' := "";
    } else if !any {
      dirtyFor' := chat;
    }
    any' := true;
  }

  /** Marking folds exactly to the only chat named, even after a mixed or unattributed prefix. */
  lemma MarkMessages(chats: seq<string>, chat: string)
    ensures OnlyChat(chats + [chat])
            == if chats == [] then chat else if OnlyChat(chats) == chat then OnlyChat(chats) else ""
  {
    var more := chats + [chat];
    assert more[|chats|] == chat;
    if chats != [] {
      assert more[0] == chats[0];
      if OnlyChat(chats) == chat != "" {
        assert forall i :: 0 <= i < |more| ==> more[i] == more[0];
      } else if forall i :: 0 <= i < |more| ==> more[i] == more[0] {
        assert forall i :: 0 <= i < |chats| ==> chats[i] == more[i];
      }
    }
  }

  // ---------------------------------------------------------------- what coalescing promises

  lemma {:induction false} MessageChatsAt(evs: seq<Dto>, i: nat) returns (k: nat)
    requires i < |evs| && IsMessageEvent(evs[i])
    ensures k < |MessageChats(evs)| && MessageChats(evs)[k] == evs[i].chat
  {
    var n := |evs| - 1;
    if i == n {
      k := |MessageChats(evs[..n])|;
    } else {
      k := MessageChatsAt(evs[..n], i);
    }
  }

  lemma {:induction false} MessageChatsFrom(evs: seq<Dto>, k: nat) returns (i: nat)
    requires k < |MessageChats(evs)|
    ensures i < |evs| && IsMessageEvent(evs[i]) && MessageChats(evs)[k] == evs[i].chat
  {
    var n := |evs| - 1;
    if k < |MessageChats(evs[..n])| {
      i := MessageChatsFrom(evs[..n], k);
    } else {
      i := n;
    }
  }

  /** A poll closes with at most one signal for the chats, and exactly if one was touched, and at most one for the messages. */
  lemma ClosingExactly(evs: seq<Dto>)
    ensures var closing := Closing(evs);
            && CountOf(closing, ChatsChanged) == (if exists i :: 0 <= i < |evs| && TouchesChats(evs[i]) then 1 else 0)
            && |closing| == CountOf(closing, ChatsChanged) + (if HasMessages(evs) then 1 else 0)
            && (HasMessages(evs) ==> closing[|closing| - 1].MessagesChanged?)
  {
    ChatsTouchedExactly(evs);
    var chats := MessageChats(evs);
    if chats != [] { var i := MessageChatsFrom(evs, 0); }
    if HasMessages(evs) {
      var i :| 0 <= i < |evs| && IsMessageEvent(evs[i]);
      var k := MessageChatsAt(evs, i);
    }
  }

  predicate AllMessagesName(evs: seq<Dto>, chat: string) {
    forall i :: 0 <= i < |evs| && IsMessageEvent(evs[i]) ==> evs[i].chat == chat
  }

  predicate HasMessages(evs: seq<Dto>) {
    exists i :: 0 <= i < |evs| && IsMessageEvent(evs[i])
  }

  /** The signal names a chat exactly when every message event of the burst names that chat. */
  lemma CoalescingIsExact(evs: seq<Dto>, chat: string)
    requires chat != ""
    ensures MessagesChanged(chat) in Closing(evs) <==> HasMessages(evs) && AllMessagesName(evs, chat)
    ensures (exists c :: MessagesChanged(c) in Closing(evs)) <==> HasMessages(evs)
  {
    var chats := MessageChats(evs);
    if HasMessages(evs) {
      var i :| 0 <= i < |evs| && IsMessageEvent(evs[i]);
      var k := MessageChatsAt(evs, i);
      assert MessagesChanged(OnlyChat(chats)) in Closing(evs);
    }
    if chats != [] { var i := MessageChatsFrom(evs, 0); }
    if AllMessagesName(evs, chat) {
      forall k | 0 <= k < |chats| ensures chats[k] == chat {
        var i := MessageChatsFrom(evs, k);
      }
    }
    if OnlyChat(chats) == chat {
      forall i | 0 <= i < |evs| && IsMessageEvent(evs[i]) ensures evs[i].chat == chat {
        var k := MessageChatsAt(evs, i);
      }
    }
  }

  /** The open transcript reacts to a signal: an empty guid means any chat. */
  predicate Refreshes(signal: Signal, open: string) {
    signal.MessagesChanged? && (signal.chat == "" || signal.chat == open)
  }

  /** The open chat is refreshed whenever any event of the burst concerns it or is unattributed. */
  lemma OpenChatIsRefreshed(evs: seq<Dto>, i: nat, open: string)
    requires i < |evs| && IsMessageEvent(evs[i]) && (evs[i].chat == open || evs[i].chat == "")
    ensures exists s :: s in Closing(evs) && Refreshes(s, open)
  {
    var k := MessageChatsAt(evs, i);
    var s := MessagesChanged(OnlyChat(MessageChats(evs)));
    assert s in Closing(evs) && Refreshes(s, open);
  }

  /** It is left alone exactly when no message moved, or all of them in one other chat. */
  lemma OpenChatIsSpared(evs: seq<Dto>, open: string)
    ensures (forall s :: s in Closing(evs) ==> !Refreshes(s, open)) <==>
            (!HasMessages(evs) || exists c :: c != "" && c != open && AllMessagesName(evs, c))
  {
    var chats := MessageChats(evs);
    var only := OnlyChat(chats);
    if HasMessages(evs) {
      var i :| 0 <= i < |evs| && IsMessageEvent(evs[i]);
      var k := MessageChatsAt(evs, i);
      assert MessagesChanged(only) in Closing(evs);
      if only != "" { CoalescingIsExact(evs, only); }
      forall c | c != "" && AllMessagesName(evs, c) ensures only == c {
        CoalescingIsExact(evs, c);
      }
    } else {
      if chats != [] { var i := MessageChatsFrom(evs, 0); }
    }
  }

  /** From the core's own events: an arrival in the open chat always refreshes it. */
  lemma ArrivalRefreshesOpenChat(evs: seq<Event>, i: nat)
    requires i < |evs| && evs[i].MessageArrived?
    ensures exists s :: s in Closing(ToDtos(evs)) && Refreshes(s, evs[i].chat)
  {
    OpenChatIsRefreshed(ToDtos(evs), i, evs[i].chat);
  }

  // ---------------------------------------------------------------- from the core's own events

  /** Nothing of an event is lost on its way over the bridge. */
  lemma DtoLosesNothing(a: Event, b: Event)
    ensures ToDto(a) == ToDto(b) <==> a == b
  {
  }

  function EventToast(ev: Event): Option<string> {
    match ev
    case Error(t) => Some("error: " + t)
    case Warn(t) => Some("warn: " + t)
    case MessageFailed(_, _, reason) => Some("send failed: " + reason)
    case _ => None
  }

  function EventLine(ev: Event): Option<string> {
    match ev
    case AuthStateChanged(state) => Some("auth: " + state)
    case Info(t) => Some(t)
    case _ => None
  }

  /** What each of the core's events does on the other side: its toast, its label and line, and the chat it moves. */
  lemma EventMeans(ev: Event)
    ensures var d := ToDto(ev);
            && ToastOf(d) == EventToast(ev) && LineOf(d) == EventLine(ev)
            && (IsAuth(d) <==> ev.AuthStateChanged?) && (ev.AuthStateChanged? ==> d.text == ev.state)
            && (IsMessageEvent(d) <==> ev.MessageArrived? || ev.MessageSent? || ev.MessageFailed?)
            && (TouchesChats(d) <==> IsMessageEvent(d) || ev.ChatCreated? || ev.ChatUpdated?)
            && (IsMessageEvent(d) ==> d.chat == ev.chat && d.message == ev.message)
            && (ev.TypingStatusChanged? ==> d.chat == ev.chat && d.flag == ev.isTyping)
  {
  }
}
