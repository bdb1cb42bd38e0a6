/** Counting tokens held in a list. */
module Tally {
  import opened Wrappers

  /** The tokens of a list's items, with multiplicity. */
  function Tokens<T>(xs: seq<T>, token: T -> Option<nat>): multiset<nat> {
    if xs == [] then multiset{} else TokenOf(token(xs[0])) + Tokens(xs[1..], token)
  }

  function TokenOf(t: Option<nat>): multiset<nat> {
    match t
    case None => multiset{}
    case Some(n) => multiset{n}
  }

  lemma TokensCons<T>(x: T, xs: seq<T>, token: T -> Option<nat>)
    ensures Tokens([x] + xs, token) == TokenOf(token(x)) + Tokens(xs, token)
  {
    assert ([x] + xs)[1..] == xs;
  }

  lemma {:induction false} TokensConcat<T>(xs: seq<T>, ys: seq<T>, token: T -> Option<nat>)
    ensures Tokens(xs + ys, token) == Tokens(xs, token) + Tokens(ys, token)
  {
    if xs == [] {
      assert xs + ys == ys;
    } else {
      assert (xs + ys)[1..] == xs[1..] + ys;
      TokensConcat(xs[1..], ys, token);
    }
  }

  lemma TokensOne<T>(x: T, token: T -> Option<nat>)
    ensures Tokens([x], token) == TokenOf(token(x))
  {
    assert [x][1..] == [];
  }

  lemma TokensAppend<T>(xs: seq<T>, x: T, token: T -> Option<nat>)
    ensures Tokens(xs + [x], token) == Tokens(xs, token) + TokenOf(token(x))
  {
    TokensConcat(xs, [x], token);
    TokensOne(x, token);
  }

  /** A list that is a part, an item and another part. */
  lemma TokensMiddle<T>(xs: seq<T>, a: seq<T>, x: T, b: seq<T>, token: T -> Option<nat>)
    requires xs == a + ([x] + b)
    ensures Tokens(xs, token) == Tokens(a, token) + TokenOf(token(x)) + Tokens(b, token)
  {
    TokensConcat(a, [x] + b, token);
    TokensCons(x, b, token);
  }

  lemma TokensRemove<T>(xs: seq<T>, i: nat, token: T -> Option<nat>)
    requires i < |xs|
    ensures Tokens(xs, token) == Tokens(xs[..i] + xs[i + 1..], token) + TokenOf(token(xs[i]))
  {
    hide Tokens;
    var a, b := xs[..i], xs[i + 1..];
    TokensMiddle(xs, a, xs[i], b, token);
    TokensConcat(a, b, token);
  }

  lemma TokensReplace<T>(xs: seq<T>, i: nat, x: T, token: T -> Option<nat>)
    requires i < |xs|
    ensures Tokens(xs, token) + TokenOf(token(x)) == Tokens(xs[i := x], token) + TokenOf(token(xs[i]))
  {
    hide Tokens;
    var a, b := xs[..i], xs[i + 1..];
    TokensMiddle(xs, a, xs[i], b, token);
    TokensMiddle(xs[i := x], a, x, b, token);
  }

  lemma TokenAt<T>(xs: seq<T>, i: nat, token: T -> Option<nat>)
    requires i < |xs| && token(xs[i]).Some?
    ensures token(xs[i]).value in Tokens(xs, token)
  {
    TokensMiddle(xs, xs[..i], xs[i], xs[i + 1..], token);
  }

  /** Two positions with the same token count twice. */
  lemma TokenTwice<T>(xs: seq<T>, i: nat, j: nat, token: T -> Option<nat>)
    requires i < j < |xs| && token(xs[i]).Some? && token(xs[i]) == token(xs[j])
    ensures Tokens(xs, token)[token(xs[i]).value] >= 2
  {
    var b := xs[i + 1..];
    TokensMiddle(xs, xs[..i], xs[i], b, token);
    assert b[j - i - 1] == xs[j];
    TokenAt(b, j - i - 1, token);
  }

  /** Moving tokens x from one place to another keeps the total. */
  lemma Transfer(a: multiset<nat>, a': multiset<nat>, b: multiset<nat>, c: multiset<nat>, c': multiset<nat>,
                 x: multiset<nat>)
    requires a == a' + x && c' == c + x
    ensures a' + b + c' == a + b + c
  {
  }

  /** A new token n joins the first n. */
  lemma Enter(a: multiset<nat>, a': multiset<nat>, b: multiset<nat>, c: multiset<nat>, n: nat)
    requires a + b + c == UpTo(n) && a' == a + multiset{n}
    ensures a' + b + c == UpTo(n + 1)
  {
    assert a' + b + c == a + b + c + multiset{n};
  }

  /** Each of the numbers below n, once. */
  function UpTo(n: nat): (m: multiset<nat>)
    ensures forall k: nat :: m[k] == if k < n then 1 else 0
  {
    if n == 0 then multiset{} else UpTo(n - 1) + multiset{n - 1}
  }
}
