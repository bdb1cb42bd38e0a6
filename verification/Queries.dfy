/**
 The newest messages of a chat (rust/src/storage.rs, messages_for_chat;
 rust/src/ffi.rs, list_messages).

 SQL leaves rows of one date in any order, in the inner query and in the outer
 one, so an answer is a relation and what is proved holds of every answer.
 */
module Queries {
  import opened ChatGuids
  import opened Tables

  predicate Distinct(s: seq<string>) {
    forall i, j :: 0 <= i < j < |s| ==> s[i] != s[j]
  }

  /** Every element of the set, once. */
  predicate Lists(s: seq<string>, all: set<string>) {
    Distinct(s) && Elements(s) == all
  }

  function ChatMessages(messages: map<string, Message>, chat: string): set<string> {
    set g | g in messages && messages[g].chat == chat
  }

  function DateOf(messages: map<string, Message>, guid: string): int {
    if guid in messages then messages[guid].date else 0
  }

  predicate Ascending(messages: map<string, Message>, s: seq<string>) {
    forall i, j :: 0 <= i < j < |s| ==> DateOf(messages, s[i]) <= DateOf(messages, s[j])
  }

  predicate Descending(messages: map<string, Message>, s: seq<string>) {
    forall i, j :: 0 <= i < j < |s| ==> DateOf(messages, s[i]) >= DateOf(messages, s[j])
  }

  /** LIMIT: a negative one does not limit. */
  function Cut(s: seq<string>, limit: int): seq<string> {
    if limit < 0 || limit >= |s| then s else s[..limit]
  }

  /** The inner query sorts descending and cuts, the outer one sorts what is left ascending. */
  ghost predicate Answers(messages: map<string, Message>, chat: string, limit: int, out: seq<string>) {
    exists inner :: AnswersVia(messages, chat, limit, inner, out)
  }

  predicate AnswersVia(messages: map<string, Message>, chat: string, limit: int, inner: seq<string>, out: seq<string>) {
    && Lists(inner, ChatMessages(messages, chat)) && Descending(messages, inner)
    && Lists(out, Elements(Cut(inner, limit))) && Ascending(messages, out)
  }

  /** How many rows a limit lets through. */
  function Wanted(limit: int, count: nat): nat {
    if limit < 0 || limit >= count then count else limit
  }

  /** Nothing left out is newer than anything returned. */
  predicate OmitsOnlyOlder(messages: map<string, Message>, chat: string, out: seq<string>) {
    forall g, h :: g in ChatMessages(messages, chat) && g !in out && h in out ==> DateOf(messages, g) <= DateOf(messages, h)
  }

  /** What a caller may rely on, without the two sorts. */
  predicate Newest(messages: map<string, Message>, chat: string, limit: int, out: seq<string>) {
    && Distinct(out) && Elements(out) <= ChatMessages(messages, chat) && Ascending(messages, out)
    && |out| == Wanted(limit, |ChatMessages(messages, chat)|)
    && OmitsOnlyOlder(messages, chat, out)
  }

  // ---------------------------------------------------------------- lists and sets

  lemma {:induction false} DistinctCount(s: seq<string>)
    requires Distinct(s)
    ensures |Elements(s)| == |s|
  {
    if s != [] {
      var n := |s| - 1;
      DistinctCount(s[..n]);
      assert s == s[..n] + [s[n]];
      assert Elements(s) == Elements(s[..n]) + {s[n]};
      assert s[n] !in Elements(s[..n]);
    }
  }

  lemma {:induction false} SubsetCount(a: set<string>, b: set<string>)
    requires a <= b
    ensures |a| <= |b| && (|a| == |b| ==> a == b)
    decreases a
  {
    if a != {} {
      var x :| x in a;
      SubsetCount(a - {x}, b - {x});
    }
  }

  function Reversed(s: seq<string>): (r: seq<string>)
    ensures |r| == |s| && forall k :: 0 <= k < |s| ==> r[k] == s[|s| - 1 - k]
  {
    if s == [] then [] else [s[|s| - 1]] + Reversed(s[..|s| - 1])
  }

  lemma ReversedLists(s: seq<string>)
    requires Distinct(s)
    ensures Lists(Reversed(s), Elements(s))
  {
    forall x ensures x in Reversed(s) <==> x in s {
      if x in s {
        var k :| 0 <= k < |s| && s[k] == x;
        assert Reversed(s)[|s| - 1 - k] == x;
      }
    }
  }

  /** Some descending list of a set exists: insert its elements one by one. */
  lemma {:induction false} ListedDescending(messages: map<string, Message>, all: set<string>) returns (s: seq<string>)
    ensures Lists(s, all) && Descending(messages, s)
  {
    hide Descending, Distinct;
    if all == {} {
      s := [];
      EmptyLists(messages);
    } else {
      var x :| x in all;
      var rest := ListedDescending(messages, all - {x});
      assert x !in Elements(rest) && Elements(rest) + {x} == all;
      var k := Slot(messages, rest, x);
      s := rest[..k] + [x] + rest[k..];
      SlotLists(rest, k, x);
      SlotDescends(messages, rest, k, x);
    }
  }

  lemma EmptyLists(messages: map<string, Message>)
    ensures Lists([], {}) && Descending(messages, [])
  {
  }

  lemma SlotLists(s: seq<string>, k: nat, x: string)
    requires Distinct(s) && k <= |s| && x !in s
    ensures Lists(s[..k] + [x] + s[k..], Elements(s) + {x})
  {
    var more := s[..k] + [x] + s[k..];
    forall i | 0 <= i < |more| ensures more[i] == if i < k then s[i] else if i == k then x else s[i - 1] {}
    forall y ensures y in more <==> y == x || y in s {
      if y in s {
        var i :| 0 <= i < |s| && s[i] == y;
        assert more[if i < k then i else i + 1] == y;
      }
      assert more[k] == x;
    }
  }

  lemma SlotDescends(messages: map<string, Message>, s: seq<string>, k: nat, x: string)
    requires Descending(messages, s) && k <= |s|
    requires forall i :: 0 <= i < k ==> DateOf(messages, s[i]) >= DateOf(messages, x)
    requires forall i :: k <= i < |s| ==> DateOf(messages, s[i]) <= DateOf(messages, x)
    ensures Descending(messages, s[..k] + [x] + s[k..])
  {
    var more := s[..k] + [x] + s[k..];
    forall i | 0 <= i < |more| ensures more[i] == if i < k then s[i] else if i == k then x else s[i - 1] {}
  }

  lemma {:induction false} Slot(messages: map<string, Message>, s: seq<string>, x: string) returns (k: nat)
    requires Descending(messages, s)
    ensures k <= |s|
    ensures forall i :: 0 <= i < k ==> DateOf(messages, s[i]) >= DateOf(messages, x)
    ensures forall i :: k <= i < |s| ==> DateOf(messages, s[i]) <= DateOf(messages, x)
  {
    k := 0;
    while k < |s| && DateOf(messages, s[k]) >= DateOf(messages, x)
      invariant k <= |s|
      invariant forall i :: 0 <= i < k ==> DateOf(messages, s[i]) >= DateOf(messages, x)
    {
      k := k + 1;
    }
  }

  // ---------------------------------------------------------------- the query, exactly

  lemma AnswerIsNewest(messages: map<string, Message>, chat: string, limit: int, inner: seq<string>, out: seq<string>)
    requires AnswersVia(messages, chat, limit, inner, out)
    ensures Newest(messages, chat, limit, out)
  {
    var cut := Cut(inner, limit);
    DistinctCount(inner);
    DistinctCount(cut);
    DistinctCount(out);
    assert forall x :: x in out <==> x in cut;
    forall g, h | g in ChatMessages(messages, chat) && g !in out && h in out
      ensures DateOf(messages, g) <= DateOf(messages, h)
    {
      assert g in Elements(inner);
      var i :| 0 <= i < |inner| && inner[i] == g;
      var j :| 0 <= j < |cut| && cut[j] == h;
      assert inner[j] == h;
      assert g !in cut;
      assert i >= |cut|;
    }
  }

  lemma ListsTogether(a: seq<string>, part: set<string>, b: seq<string>, all: set<string>)
    requires Lists(a, part) && part <= all && Lists(b, all - part)
    ensures Lists(a + b, all)
    ensures |a + b| == |all|
  {
    assert forall x :: x in a + b <==> x in a || x in b;
    assert forall i :: 0 <= i < |a| ==> a[i] in part;
    assert forall i :: 0 <= i < |b| ==> b[i] in all - part;
    DistinctCount(a + b);
  }

  lemma CutAtLength(a: seq<string>, b: seq<string>, limit: int)
    requires |a| == Wanted(limit, |a + b|)
    ensures Cut(a + b, limit) == a
  {
    assert (a + b)[..|a|] == a;
  }

  lemma NewestIsAnswer(messages: map<string, Message>, chat: string, limit: int, out: seq<string>)
    requires Newest(messages, chat, limit, out)
    ensures Answers(messages, chat, limit, out)
  {
    var all := ChatMessages(messages, chat);
    var rest := ListedDescending(messages, all - Elements(out));
    var inner := Reversed(out) + rest;
    ReversedLists(out);
    ListsTogether(Reversed(out), Elements(out), rest, all);
    InnerDescends(messages, chat, out, rest);
    CutAtLength(Reversed(out), rest, limit);
    assert AnswersVia(messages, chat, limit, inner, out);
  }

  lemma InnerDescends(messages: map<string, Message>, chat: string, out: seq<string>, rest: seq<string>)
    requires Ascending(messages, out) && OmitsOnlyOlder(messages, chat, out)
    requires Descending(messages, rest) && Elements(rest) == ChatMessages(messages, chat) - Elements(out)
    ensures Descending(messages, Reversed(out) + rest)
  {
    var inner := Reversed(out) + rest;
    forall i, j | 0 <= i < j < |inner| ensures DateOf(messages, inner[i]) >= DateOf(messages, inner[j]) {
      if j >= |out| {
        assert inner[j] in Elements(rest);
        if i < |out| { assert inner[i] == out[|out| - 1 - i]; }
      }
    }
  }

  /** The answers of the double sort are exactly the lists a caller wants. */
  lemma AnswersExactly(messages: map<string, Message>, chat: string, limit: int, out: seq<string>)
    ensures Answers(messages, chat, limit, out) <==> Newest(messages, chat, limit, out)
  {
    if Answers(messages, chat, limit, out) {
      var inner :| AnswersVia(messages, chat, limit, inner, out);
      AnswerIsNewest(messages, chat, limit, inner, out);
    }
    if Newest(messages, chat, limit, out) { NewestIsAnswer(messages, chat, limit, out); }
  }

  /** There always is an answer. */
  lemma AnswerExists(messages: map<string, Message>, chat: string, limit: int) returns (out: seq<string>)
    ensures Answers(messages, chat, limit, out)
  {
    var inner := ListedDescending(messages, ChatMessages(messages, chat));
    var cut := Cut(inner, limit);
    out := Reversed(cut);
    ReversedLists(cut);
    assert AnswersVia(messages, chat, limit, inner, out);
  }

  lemma DatesAtLeast(messages: map<string, Message>, chat: string, limit: int, a: seq<string>, b: seq<string>, i: nat)
    requires Newest(messages, chat, limit, a) && Newest(messages, chat, limit, b) && i < |a| == |b|
    ensures DateOf(messages, a[i]) >= DateOf(messages, b[i])
  {
    if forall x :: x in b[i..] ==> x in a[i + 1..] {
      DistinctCount(b[i..]);
      DistinctCount(a[i + 1..]);
      SubsetCount(Elements(b[i..]), Elements(a[i + 1..]));
    } else {
      var x :| x in b[i..] && x !in a[i + 1..];
      var j :| i <= j < |b| && b[j] == x;
      assert b[j] in Elements(b);
      assert forall k :: i < k < |a| ==> a[k] in a[i + 1..];
      if x in a {
        var k :| 0 <= k < |a| && a[k] == x;
        assert k <= i;
      }
    }
  }

  /** Ties may fall either way, but every answer shows the same dates. */
  lemma DatesAreDetermined(messages: map<string, Message>, chat: string, limit: int, a: seq<string>, b: seq<string>)
    requires Answers(messages, chat, limit, a) && Answers(messages, chat, limit, b)
    ensures |a| == |b| && forall i :: 0 <= i < |a| ==> DateOf(messages, a[i]) == DateOf(messages, b[i])
  {
    AnswersExactly(messages, chat, limit, a);
    AnswersExactly(messages, chat, limit, b);
    forall i | 0 <= i < |a| ensures DateOf(messages, a[i]) == DateOf(messages, b[i]) {
      DatesAtLeast(messages, chat, limit, a, b, i);
      DatesAtLeast(messages, chat, limit, b, a, i);
    }
  }

  /** list_messages: the bridge asks for at least one. */
  ghost predicate Listed(messages: map<string, Message>, chat: string, limit: int, out: seq<string>) {
    Answers(messages, chat, Max(limit, 1), out)
  }

  /** However it is called, the bridge returns the newest message of a chat that has one. */
  lemma NewestIsAlwaysListed(messages: map<string, Message>, chat: string, limit: int, out: seq<string>, guid: string)
    requires Listed(messages, chat, limit, out) && guid in ChatMessages(messages, chat)
    ensures out != [] && DateOf(messages, out[|out| - 1]) >= DateOf(messages, guid)
    ensures |out| == Wanted(Max(limit, 1), |ChatMessages(messages, chat)|)
  {
    AnswersExactly(messages, chat, Max(limit, 1), out);
    assert |ChatMessages(messages, chat)| != 0;
    if guid in out {
      var k :| 0 <= k < |out| && out[k] == guid;
    }
  }
}
