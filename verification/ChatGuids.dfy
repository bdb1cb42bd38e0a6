/**
 The identity of a conversation, computed from who is in it
 (rust/src/receive.rs, chat_guid_for).

 Lowercasing is a parameter: nothing here depends on what it does to a string.
 */
module ChatGuids {

  // ---------------------------------------------------------------- string order

  /** The order of strings by code points. */
  predicate Leq(a: string, b: string) {
    a == "" || (b != "" && if a[0] == b[0] then Leq(a[1..], b[1..]) else a[0] < b[0])
  }

  lemma {:induction false} LeqTotal(a: string, b: string)
    ensures Leq(a, b) || Leq(b, a)
    ensures Leq(a, b) && Leq(b, a) ==> a == b
  {
    if a != "" && b != "" {
      LeqTotal(a[1..], b[1..]);
      assert a == [a[0]] + a[1..] && b == [b[0]] + b[1..];
    }
  }

  lemma {:induction false} LeqTransitive(a: string, b: string, c: string)
    requires Leq(a, b) && Leq(b, c)
    ensures Leq(a, c)
  {
    if a != "" && b[0] == a[0] == c[0] { LeqTransitive(a[1..], b[1..], c[1..]); }
  }

  predicate Sorted(s: seq<string>) {
    forall i, j :: 0 <= i < j < |s| ==> Leq(s[i], s[j])
  }

  predicate StrictlySorted(s: seq<string>) {
    forall i, j :: 0 <= i < j < |s| ==> Leq(s[i], s[j]) && s[i] != s[j]
  }

  function Elements(s: seq<string>): (r: set<string>)
    ensures forall x :: x in r <==> x in s
  {
    set x | x in s
  }

  // ---------------------------------------------------------------- sorting and deduplication

  function Insert(x: string, s: seq<string>): seq<string> {
    if s == [] then [x]
    else if Leq(x, s[0]) then [x] + s
    else [s[0]] + Insert(x, s[1..])
  }

  function Sort(s: seq<string>): seq<string> {
    if s == [] then [] else Insert(s[0], Sort(s[1..]))
  }

  lemma {:induction false} InsertAdds(x: string, s: seq<string>)
    ensures multiset(Insert(x, s)) == multiset(s) + multiset{x}
  {
    if s != [] {
      assert s == [s[0]] + s[1..];
      if !Leq(x, s[0]) { InsertAdds(x, s[1..]); }
    }
  }

  lemma InsertMembers(x: string, s: seq<string>, y: string)
    ensures y in Insert(x, s) <==> y == x || y in s
  {
    InsertAdds(x, s);
    assert y in Insert(x, s) <==> y in multiset(Insert(x, s));
    assert y in s <==> y in multiset(s);
  }

  lemma {:induction false} InsertSorts(x: string, s: seq<string>)
    requires Sorted(s)
    ensures Sorted(Insert(x, s))
  {
    if s != [] {
      hide Leq;
      LeqTotal(x, s[0]);
      if Leq(x, s[0]) {
        forall j | 0 <= j < |s| ensures Leq(x, s[j]) {
          if j > 0 { LeqTransitive(x, s[0], s[j]); }
        }
      } else {
        InsertSorts(x, s[1..]);
        forall y | y in Insert(x, s[1..]) ensures Leq(s[0], y) {
          InsertMembers(x, s[1..], y);
        }
      }
    }
  }

  lemma {:induction false} SortSorts(s: seq<string>)
    ensures Sorted(Sort(s)) && multiset(Sort(s)) == multiset(s)
  {
    if s != [] {
      SortSorts(s[1..]);
      InsertSorts(s[0], Sort(s[1..]));
      InsertAdds(s[0], Sort(s[1..]));
      assert s == [s[0]] + s[1..];
    }
  }

  /** Removes consecutive repetitions. */
  function Dedup(s: seq<string>): seq<string> {
    if |s| < 2 then s
    else if s[0] == s[1] then Dedup(s[1..])
    else [s[0]] + Dedup(s[1..])
  }

  lemma ElementsCons(s: seq<string>)
    requires s != []
    ensures Elements(s) == {s[0]} + Elements(s[1..])
  {
    assert s == [s[0]] + s[1..];
  }

  lemma PrependStrict(x: string, s: seq<string>)
    requires StrictlySorted(s) && forall y :: y in s ==> Leq(x, y) && x != y
    ensures StrictlySorted([x] + s) && Elements([x] + s) == {x} + Elements(s)
  {
    hide Leq;
    ElementsCons([x] + s);
    assert ([x] + s)[1..] == s;
  }

  lemma SmallestFirst(s: seq<string>)
    requires Sorted(s) && |s| >= 2 && s[0] != s[1]
    ensures forall y :: y in s[1..] ==> Leq(s[0], y) && s[0] != y
  {
    LeqTotal(s[0], s[1]);
    forall y | y in s[1..] ensures Leq(s[0], y) && s[0] != y {
      var k :| 0 <= k < |s[1..]| && s[1..][k] == y;
      assert s[k + 1] == y && (k > 0 ==> Leq(s[1], s[k + 1]));
    }
  }

  lemma {:induction false} DedupStrict(s: seq<string>)
    requires Sorted(s)
    ensures StrictlySorted(Dedup(s)) && Elements(Dedup(s)) == Elements(s)
  {
    if |s| >= 2 {
      hide Leq;
      DedupStrict(s[1..]);
      ElementsCons(s);
      if s[0] == s[1] {
        ElementsCons(s[1..]);
      } else {
        var rest := Dedup(s[1..]);
        SmallestFirst(s);
        forall y | y in rest ensures Leq(s[0], y) && s[0] != y {
          assert y in Elements(s[1..]);
        }
        PrependStrict(s[0], rest);
      }
    }
  }

  /** The strictly sorted list of a set of strings is unique. */
  lemma {:induction false} StrictlySortedUnique(a: seq<string>, b: seq<string>)
    requires StrictlySorted(a) && StrictlySorted(b) && Elements(a) == Elements(b)
    ensures a == b
  {
    if a == [] {
      ElementsEmpty(a);
      ElementsEmpty(b);
    } else {
      assert a[0] in Elements(b) && b != [];
      assert b[0] in Elements(a);
      SmallestIsFirst(a, b[0]);
      SmallestIsFirst(b, a[0]);
      LeqTotal(a[0], b[0]);
      ElementsTail(a);
      ElementsTail(b);
      StrictlySortedUnique(a[1..], b[1..]);
      assert a == [a[0]] + a[1..] && b == [b[0]] + b[1..];
    }
  }

  lemma ElementsEmpty(s: seq<string>)
    ensures Elements(s) == {} <==> s == []
  {
    if s != [] { assert s[0] in Elements(s); }
  }

  lemma SmallestIsFirst(s: seq<string>, x: string)
    requires StrictlySorted(s) && x in s
    ensures Leq(s[0], x)
  {
    var k :| 0 <= k < |s| && s[k] == x;
    LeqTotal(x, x);
  }

  lemma ElementsTail(s: seq<string>)
    requires StrictlySorted(s) && s != []
    ensures Elements(s[1..]) == Elements(s) - {s[0]} && StrictlySorted(s[1..])
  {
    assert s == [s[0]] + s[1..];
    assert forall k :: 0 < k < |s| ==> s[k] != s[0];
  }

  function Canonical(s: seq<string>): seq<string> {
    Dedup(Sort(s))
  }

  lemma CanonicalProperties(s: seq<string>)
    ensures StrictlySorted(Canonical(s)) && Elements(Canonical(s)) == Elements(s)
  {
    SortSorts(s);
    DedupStrict(Sort(s));
    forall x ensures x in Elements(Sort(s)) <==> x in Elements(s) {
      assert x in Sort(s) <==> x in multiset(Sort(s));
      assert x in s <==> x in multiset(s);
    }
  }

  /** Order, repetition and nothing else are forgotten. */
  lemma CanonicalExactly(a: seq<string>, b: seq<string>)
    ensures Canonical(a) == Canonical(b) <==> Elements(a) == Elements(b)
  {
    CanonicalProperties(a);
    CanonicalProperties(b);
    if Elements(a) == Elements(b) { StrictlySortedUnique(Canonical(a), Canonical(b)); }
  }

  // ---------------------------------------------------------------- joining

  function Join(parts: seq<string>): string {
    if parts == [] then ""
    else if |parts| == 1 then parts[0]
    else parts[0] + "," + Join(parts[1..])
  }

  /** Not empty and without the separator. */
  predicate Clean(s: string) {
    s != "" && ',' !in s
  }

  predicate AllClean(parts: seq<string>) {
    forall i :: 0 <= i < |parts| ==> Clean(parts[i])
  }

  /** A text cut at its commas. */
  function Cut(s: string): (r: seq<string>)
    ensures r != []
  {
    if s == "" then [""]
    else
      var rest := Cut(s[1..]);
      if s[0] == ',' then [""] + rest else [[s[0]] + rest[0]] + rest[1..]
  }

  /** The parts of a list, each cut at its commas. The empty list joins to the empty text, and so counts as that. */
  function Pieces(parts: seq<string>): seq<string> {
    if parts == [] then [""]
    else if |parts| == 1 then Cut(parts[0])
    else Cut(parts[0]) + Pieces(parts[1..])
  }

  lemma {:induction false} JoinCut(s: string)
    ensures Join(Cut(s)) == s
  {
    if s != "" {
      var rest := Cut(s[1..]);
      JoinCut(s[1..]);
      if s[0] == ',' {
        assert Cut(s)[1..] == rest;
      } else {
        assert Cut(s)[1..] == rest[1..];
      }
      assert s == [s[0]] + s[1..];
    }
  }

  lemma {:induction false} CutAtComma(x: string, y: string)
    ensures Cut(x + "," + y) == Cut(x) + Cut(y)
  {
    var s := x + "," + y;
    if x == "" {
      assert s[0] == ',' && s[1..] == y;
    } else {
      assert s[0] == x[0] && s[1..] == x[1..] + "," + y;
      CutAtComma(x[1..], y);
    }
  }

  lemma {:induction false} CutJoin(parts: seq<string>)
    ensures Cut(Join(parts)) == Pieces(parts)
  {
    if |parts| > 1 {
      CutJoin(parts[1..]);
      CutAtComma(parts[0], Join(parts[1..]));
    }
  }

  /** Two lists join to the same text exactly when cutting their parts at the commas gives the same pieces. */
  lemma JoinsEqualExactly(a: seq<string>, b: seq<string>)
    ensures Join(a) == Join(b) <==> Pieces(a) == Pieces(b)
  {
    CutJoin(a);
    CutJoin(b);
    JoinCut(Join(a));
    JoinCut(Join(b));
  }

  lemma {:induction false} CutWhole(s: string)
    requires ',' !in s
    ensures Cut(s) == [s]
  {
    if s != "" {
      CutWhole(s[1..]);
      assert s == [s[0]] + s[1..];
    }
  }

  lemma {:induction false} PiecesOfClean(parts: seq<string>)
    requires AllClean(parts)
    ensures Pieces(parts) == if parts == [] then [""] else parts
  {
    if parts != [] {
      CutWhole(parts[0]);
      PiecesOfClean(parts[1..]);
      assert parts == [parts[0]] + parts[1..];
    }
  }

  /** Without commas and empty parts nothing is lost. */
  lemma JoinInjective(a: seq<string>, b: seq<string>)
    requires AllClean(a) && AllClean(b) && Join(a) == Join(b)
    ensures a == b
  {
    JoinsEqualExactly(a, b);
    PiecesOfClean(a);
    PiecesOfClean(b);
    assert a != [] ==> Clean(a[0]);
    assert b != [] ==> Clean(b[0]);
  }

  // ---------------------------------------------------------------- the chat guid

  function LowerAll(lower: string -> string, ps: seq<string>): (r: seq<string>)
    ensures |r| == |ps| && forall i :: 0 <= i < |ps| ==> r[i] == lower(ps[i])
  {
    if ps == [] then [] else [lower(ps[0])] + LowerAll(lower, ps[1..])
  }

  function Prefix(isImessage: bool): string {
    if isImessage then "imessage" else "sms"
  }

  function ChatGuidFor(lower: string -> string, participants: seq<string>, isImessage: bool): string {
    Prefix(isImessage) + ";" + Join(Canonical(LowerAll(lower, participants)))
  }

  /** chat_guid_for: lowercase, sort and dedup in place, then join. */
  method ComputeChatGuid(lower: string -> string, participants: seq<string>, isImessage: bool) returns (guid: string)
    ensures guid == ChatGuidFor(lower, participants, isImessage)
  {
    var sorted := LowerAll(lower, participants);
    sorted := Sort(sorted);
    sorted := Dedup(sorted);
    var prefix := if isImessage then "imessage" else "sms";
    guid := prefix + ";" + Join(sorted);
  }

  /** Who takes part, up to case. */
  function People(lower: string -> string, ps: seq<string>): set<string> {
    Elements(LowerAll(lower, ps))
  }

  lemma PrefixesDiffer(a: string, b: string, f: bool, g: bool)
    ensures Prefix(f) + ";" + a == Prefix(g) + ";" + b <==> f == g && a == b
  {
    var x, y := Prefix(f) + ";" + a, Prefix(g) + ";" + b;
    if f == g {
      assert x[|Prefix(f)| + 1..] == a && y[|Prefix(f)| + 1..] == b;
    } else {
      assert x[0] == Prefix(f)[0] && y[0] == Prefix(g)[0];
    }
  }

  /** The same people over the same transport always share a guid, whatever the order, repetition or case. */
  lemma SamePeopleSameGuid(lower: string -> string, a: seq<string>, b: seq<string>, isImessage: bool)
    requires People(lower, a) == People(lower, b)
    ensures ChatGuidFor(lower, a, isImessage) == ChatGuidFor(lower, b, isImessage)
  {
    CanonicalExactly(LowerAll(lower, a), LowerAll(lower, b));
  }

  /** Two guids are equal exactly when the transports are, and the canonical lists are once cut at their commas. */
  lemma GuidsEqualExactly(lower: string -> string, a: seq<string>, f: bool, b: seq<string>, g: bool)
    ensures ChatGuidFor(lower, a, f) == ChatGuidFor(lower, b, g) <==>
            f == g && Pieces(Canonical(LowerAll(lower, a))) == Pieces(Canonical(LowerAll(lower, b)))
  {
    hide Join, Pieces, Canonical;
    var x, y := Canonical(LowerAll(lower, a)), Canonical(LowerAll(lower, b));
    PrefixesDiffer(Join(x), Join(y), f, g);
    JoinsEqualExactly(x, y);
  }

  /** For non-empty addresses without commas the guid is a canonical form. */
  lemma GuidIsCanonical(lower: string -> string, a: seq<string>, f: bool, b: seq<string>, g: bool)
    requires AllClean(LowerAll(lower, a)) && AllClean(LowerAll(lower, b))
    ensures ChatGuidFor(lower, a, f) == ChatGuidFor(lower, b, g) <==> f == g && People(lower, a) == People(lower, b)
  {
    hide ChatGuidFor, Pieces, Canonical, Join;
    var x, y := LowerAll(lower, a), LowerAll(lower, b);
    GuidsEqualExactly(lower, a, f, b, g);
    CanonicalClean(x);
    CanonicalClean(y);
    JoinsEqualExactly(Canonical(x), Canonical(y));
    if Pieces(Canonical(x)) == Pieces(Canonical(y)) { JoinInjective(Canonical(x), Canonical(y)); }
    CanonicalExactly(x, y);
  }

  lemma CanonicalClean(s: seq<string>)
    requires AllClean(s)
    ensures AllClean(Canonical(s))
  {
    CanonicalProperties(s);
    forall i | 0 <= i < |Canonical(s)| ensures Clean(Canonical(s)[i]) {
      assert Canonical(s)[i] in Elements(Canonical(s));
      assert Canonical(s)[i] in s;
    }
  }

  /** The order is that of the first character that differs, a text before its continuations. */
  lemma {:induction false} LeqExactly(a: string, b: string)
    ensures Leq(a, b) <==> a <= b || exists k :: 0 <= k < |a| && k < |b| && a[..k] == b[..k] && a[k] < b[k]
  {
    if a != "" && b != "" {
      if a[0] == b[0] {
        LeqExactly(a[1..], b[1..]);
        assert a == [a[0]] + a[1..] && b == [b[0]] + b[1..];
        forall k | 0 <= k < |a| - 1 && k < |b| - 1 && a[1..][..k] == b[1..][..k] && a[1..][k] < b[1..][k]
          ensures a[..k + 1] == b[..k + 1] && a[k + 1] < b[k + 1]
        {
          assert a[..k + 1] == [a[0]] + a[1..][..k] && b[..k + 1] == [b[0]] + b[1..][..k];
        }
        forall k | 0 <= k < |a| && k < |b| && a[..k] == b[..k] && a[k] < b[k]
          ensures k > 0 && a[1..][..k - 1] == b[1..][..k - 1] && a[1..][k - 1] < b[1..][k - 1]
        {
          assert a[1..][..k - 1] == a[..k][1..] && b[1..][..k - 1] == b[..k][1..];
        }
      } else {
        assert a[..0] == b[..0];
        forall k | 0 < k <= |a| && k <= |b| ensures a[..k] != b[..k] {
          assert a[..k][0] == a[0] && b[..k][0] == b[0];
        }
      }
    }
  }

  /** What a guid spells out: the transport, and then, cut at the commas, everyone in it once and in order. */
  lemma GuidSpellsOutPeople(lower: string -> string, ps: seq<string>, isImessage: bool)
    requires ps != [] && AllClean(LowerAll(lower, ps))
    ensures var prefix := if isImessage then "imessage;" else "sms;";
            var guid := ChatGuidFor(lower, ps, isImessage);
            && prefix <= guid
            && StrictlySorted(Cut(guid[|prefix|..])) && Elements(Cut(guid[|prefix|..])) == People(lower, ps)
  {
    hide Join, Canonical, Cut;
    var x := LowerAll(lower, ps);
    var guid := ChatGuidFor(lower, ps, isImessage);
    var prefix := if isImessage then "imessage;" else "sms;";
    assert guid == prefix + Join(Canonical(x));
    assert guid[|prefix|..] == Join(Canonical(x));
    CanonicalClean(x);
    CanonicalProperties(x);
    CutJoin(Canonical(x));
    PiecesOfClean(Canonical(x));
    assert x[0] in Elements(x);
  }

  /** A comma inside an address can merge two conversations. */
  lemma CommaMergesChats()
    ensures var id := (s: string) => s;
            && ChatGuidFor(id, ["a,b"], true) == ChatGuidFor(id, ["a", "b"], true)
            && People(id, ["a,b"]) != People(id, ["a", "b"])
  {
    var id := (s: string) => s;
    var x, y := LowerAll(id, ["a,b"]), LowerAll(id, ["a", "b"]);
    assert x == ["a,b"] && y == ["a", "b"];
    assert StrictlySorted(x) && StrictlySorted(y);
    CanonicalProperties(x);
    CanonicalProperties(y);
    StrictlySortedUnique(Canonical(x), x);
    StrictlySortedUnique(Canonical(y), y);
    assert y[1..] == ["b"];
    assert Join(y) == "a" + "," + "b" == "a,b" == Join(x);
    assert "a,b" in Elements(x) && "a,b" !in y;
  }
}
