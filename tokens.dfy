/**
 * `uuid.uuid4()` as a source of fresh tokens. The service only relies on
 * two uuids never being equal, so the source hands out "uuid-0",
 * "uuid-1", ... and keeps (as ghost state) the list of tokens it has
 * issued; freshness of every new token is proved, not assumed.
 */
module Tokens {
  import opened Text

  /** The n-th token the source issues. */
  function Token(n: nat): string
  {
    "uuid-" + NatToString(n)
  }

  lemma TokenInjective(a: nat, b: nat)
    requires Token(a) == Token(b)
    ensures a == b
  {
    PrefixCancel("uuid-", NatToString(a), NatToString(b));
    NatToStringInjective(a, b);
  }

  /** The first `n` tokens, in the order they are issued. */
  function Tokens(n: nat): (ts: seq<string>)
    ensures |ts| == n
  {
    if n == 0 then [] else Tokens(n - 1) + [Token(n - 1)]
  }

  /** The k-th entry of the list is the k-th token. */
  lemma {:induction false} TokensAt(n: nat, k: nat)
    requires k < n
    ensures Tokens(n)[k] == Token(k)
    decreases n
  {
    if k < n - 1 {
      TokensAt(n - 1, k);
    }
  }

  /** The tokens issued from position `lo` on are the tokens numbered from `lo`. */
  lemma TokensFrom(n: nat, lo: nat, drawn: seq<string>)
    requires lo <= n && drawn == Tokens(n)[lo..]
    ensures forall k :: 0 <= k < |drawn| ==> drawn[k] == Token(lo + k)
  {
    forall k | 0 <= k < |drawn|
      ensures drawn[k] == Token(lo + k)
    {
      TokensAt(n, lo + k);
    }
  }

  /** The next token differs from every token issued before it. */
  lemma NextTokenFresh(n: nat)
    ensures Token(n) !in Tokens(n)
  {
    forall k | 0 <= k < n
      ensures Tokens(n)[k] != Token(n)
    {
      TokensAt(n, k);
      if Token(k) == Token(n) {
        TokenInjective(k, n);
      }
    }
  }

  /** No token is issued twice. */
  lemma TokensDistinct(n: nat)
    ensures forall i, j :: 0 <= i < j < n ==> Tokens(n)[i] != Tokens(n)[j]
  {
    forall i, j | 0 <= i < j < n
      ensures Tokens(n)[i] != Tokens(n)[j]
    {
      TokensAt(n, i);
      TokensAt(n, j);
      if Token(i) == Token(j) {
        TokenInjective(i, j);
      }
    }
  }

  class UuidSource {
    var count: nat
    ghost var issued: seq<string>

    /** The tokens issued so far are the first `count` ones. */
    ghost predicate Valid()
      reads this
    {
      issued == Tokens(count)
    }

    constructor ()
      ensures Valid() && issued == []
    {
      count := 0;
      issued := [];
    }

    /** `uuid.uuid4()`: a token never issued before. */
    method Fresh() returns (t: string)
      requires Valid()
      modifies this
      ensures Valid()
      ensures t !in old(issued)
      ensures issued == old(issued) + [t]
    {
      t := Token(count);
      NextTokenFresh(count);
      issued := issued + [t];
      count := count + 1;
    }
  }
}
