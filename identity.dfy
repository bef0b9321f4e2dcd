/**
 * The per-request context: it turns the `Authorization` header into a token, asks
 * the identity provider who the token belongs to, builds a `User` whose id is the
 * second `|`-separated field of the provider's `sub`, and remembers that user for
 * the rest of the request.
 */
module Identity {
  import opened Wrappers

  datatype User = User(id: string, name: string, email: string)

  /** The fields of the provider's user-info answer that the context reads. */
  datatype UserInfo = UserInfo(sub: string, name: string, email: string)

  /** What the provider does with a token: answer, or raise its SDK error (carried as its repr text). */
  datatype ProviderReply = Answered(info: UserInfo) | Rejected(repr: string)

  /** The identity provider, an external service: an arbitrary function of the token. */
  type Provider = string -> ProviderReply

  /** The exceptions that can leave a read of the context's user. */
  datatype Exception =
    | NoTokenException(message: string)
    | Auth0Error(repr: string)
    | IndexError

  /** The result of reading the context's user: a value (Python may in principle give None) or an exception. */
  datatype Resolution = Value(user: Option<User>) | Raise(exception: Exception)

  const BearerPrefix: string := "Bearer "
  const NoTokenMessage: string := "Please provide a valid token"

  /** `s.replace(pat, '')`: one left-to-right pass deleting non-overlapping occurrences. */
  function RemoveAll(s: string, pat: string): (r: string)
    requires |pat| > 0
    ensures |r| <= |s|
    decreases |s|
  {
    if |s| < |pat| then s
    else if s[..|pat|] == pat then RemoveAll(s[|pat|..], pat)
    else [s[0]] + RemoveAll(s[1..], pat)
  }

  /** `n` copies of `pat` back to back. */
  function Repeat(pat: string, n: nat): string {
    if n == 0 then "" else pat + Repeat(pat, n - 1)
  }

  /** Deleting every occurrence leaves nothing of a text made only of copies of the pattern. */
  lemma {:induction false} RemoveAllRepeat(pat: string, n: nat)
    requires |pat| > 0
    ensures RemoveAll(Repeat(pat, n), pat) == ""
  {
    if n > 0 {
      var s := Repeat(pat, n);
      assert s[..|pat|] == pat && s[|pat|..] == Repeat(pat, n - 1);
      RemoveAllRepeat(pat, n - 1);
    }
  }

  /** ...and those are the only texts it empties. */
  lemma {:induction false} RemoveAllEmpty(s: string, pat: string)
    requires |pat| > 0
    requires RemoveAll(s, pat) == ""
    ensures exists n: nat :: s == Repeat(pat, n)
    decreases |s|
  {
    if |s| < |pat| {
      assert s == Repeat(pat, 0);
    } else if s[..|pat|] == pat {
      RemoveAllEmpty(s[|pat|..], pat);
      var n: nat :| s[|pat|..] == Repeat(pat, n);
      assert s == Repeat(pat, n + 1);
    }
  }

  /** `pat` occurs in `s` starting at index `i`. */
  predicate OccursAt(s: string, pat: string, i: int) {
    0 <= i && i + |pat| <= |s| && s[i..i + |pat|] == pat
  }

  /** A text without the pattern passes through unchanged. */
  lemma {:induction false} RemoveAllAbsent(s: string, pat: string)
    requires |pat| > 0
    requires forall i :: !OccursAt(s, pat, i)
    ensures RemoveAll(s, pat) == s
    decreases |s|
  {
    if |s| >= |pat| {
      assert !OccursAt(s, pat, 0);
      forall i
        ensures !OccursAt(s[1..], pat, i)
      {
        if OccursAt(s[1..], pat, i) {
          assert s[1..][i..i + |pat|] == s[i + 1..i + 1 + |pat|];
          assert OccursAt(s, pat, i + 1);
        }
      }
      RemoveAllAbsent(s[1..], pat);
    }
  }

  /**
   * The rule of the pass: up to the first occurrence of the pattern the text is kept,
   * that occurrence is deleted, and the pass goes on after it.
   */
  lemma {:induction false} RemoveAllAtFirst(s: string, pat: string, k: nat)
    requires |pat| > 0
    requires OccursAt(s, pat, k)
    requires forall i :: 0 <= i < k ==> !OccursAt(s, pat, i)
    ensures RemoveAll(s, pat) == s[..k] + RemoveAll(s[k + |pat|..], pat)
    decreases k
  {
    if k > 0 {
      assert !OccursAt(s, pat, 0);
      assert OccursAt(s[1..], pat, k - 1) by {
        assert s[1..][k - 1..k - 1 + |pat|] == s[k..k + |pat|];
      }
      forall i | 0 <= i < k - 1
        ensures !OccursAt(s[1..], pat, i)
      {
        if OccursAt(s[1..], pat, i) {
          assert s[1..][i..i + |pat|] == s[i + 1..i + 1 + |pat|];
          assert OccursAt(s, pat, i + 1);
        }
      }
      RemoveAllAtFirst(s[1..], pat, k - 1);
      assert s[1..][k - 1 + |pat|..] == s[k + |pat|..];
      assert [s[0]] + s[1..][..k - 1] == s[..k];
    }
  }

  /** The pass is single: deleting can bring a new occurrence together, and it stays. */
  lemma RemoveAllSinglePass()
    ensures RemoveAll("BeBearer arer ", BearerPrefix) == BearerPrefix
  {
    var s := "BeBearer arer ";
    assert s[..7][2] != BearerPrefix[2];
    assert s[1..][..7][1] != BearerPrefix[1];
    assert s[2..][..7] == BearerPrefix;
    assert s[9..] == "arer ";
    assert "arer "[..5] == "arer ";
  }

  /** The token: the `Authorization` header (missing means "") with every "Bearer " removed. */
  function Token(authorization: Option<string>): (token: string)
    ensures authorization.None? ==> token == ""
    ensures authorization.Some? ==> |token| <= |authorization.value|
    ensures authorization.Some? && (forall i :: !OccursAt(authorization.value, BearerPrefix, i)) ==>
              token == authorization.value
  {
    var header := if authorization.Some? then authorization.value else "";
    assert (forall i :: !OccursAt(header, BearerPrefix, i)) ==> RemoveAll(header, BearerPrefix) == header by {
      if forall i :: !OccursAt(header, BearerPrefix, i) {
        RemoveAllAbsent(header, BearerPrefix);
      }
    }
    RemoveAll(header, BearerPrefix)
  }

  /** The token is empty exactly when the header is missing or is only copies of "Bearer ". */
  lemma TokenEmpty(authorization: Option<string>)
    ensures Token(authorization) == "" <==>
            authorization.None? || exists n: nat :: authorization.value == Repeat(BearerPrefix, n)
  {
    if authorization.Some? {
      if Token(authorization) == "" {
        RemoveAllEmpty(authorization.value, BearerPrefix);
      }
      if n: nat :| authorization.value == Repeat(BearerPrefix, n) {
        RemoveAllRepeat(BearerPrefix, n);
      }
    }
  }

  /** `s.split(sep)`: the fields between separators, at least one. */
  function Split(s: string, sep: char): (parts: seq<string>)
    ensures |parts| >= 1
    ensures forall i :: 0 <= i < |parts| ==> sep !in parts[i]
    ensures |parts| >= 2 <==> sep in s
  {
    if |s| == 0 then [""]
    else
      var rest := Split(s[1..], sep);
      if s[0] == sep then [""] + rest
      else [[s[0]] + rest[0]] + rest[1..]
  }

  /** `sep.join(parts)`. */
  function Join(parts: seq<string>, sep: char): string
    requires |parts| >= 1
  {
    if |parts| == 1 then parts[0] else parts[0] + [sep] + Join(parts[1..], sep)
  }

  /** Joining the fields back with the separator gives the text that was split. */
  lemma {:induction false} JoinSplit(s: string, sep: char)
    ensures Join(Split(s, sep), sep) == s
  {
    if |s| > 0 {
      var rest := Split(s[1..], sep);
      JoinSplit(s[1..], sep);
      if s[0] == sep {
        assert Split(s, sep)[1..] == rest;
      } else {
        var parts := Split(s, sep);
        assert parts[1..] == rest[1..];
        if |rest| > 1 {
          assert Join(rest, sep) == rest[0] + [sep] + Join(rest[1..], sep);
        }
      }
    }
  }

  /** `sub.split('|')[1]`, or None where Python raises IndexError (no `|` in `sub`). */
  function UserIdFromSub(sub: string): (id: Option<string>)
    ensures id.None? <==> '|' !in sub
    ensures id.Some? ==> '|' !in id.value
  {
    var parts := Split(sub, '|');
    if |parts| >= 2 then Some(parts[1]) else None
  }

  /** A text without the separator is one field. */
  lemma SplitWithoutSeparator(s: string, sep: char)
    requires sep !in s
    ensures Split(s, sep) == [s]
  {
    JoinSplit(s, sep);
  }

  /** A separator after a separator-free prefix ends the first field. */
  lemma {:induction false} SplitAfterSeparator(a: string, b: string, sep: char)
    requires sep !in a
    ensures Split(a + [sep] + b, sep) == [a] + Split(b, sep)
  {
    if |a| > 0 {
      assert (a + [sep] + b)[1..] == a[1..] + [sep] + b;
      SplitAfterSeparator(a[1..], b, sep);
      assert [a[0]] + a[1..] == a;
    } else {
      assert (a + [sep] + b)[1..] == b;
    }
  }

  /** Position of the first `c` in `s`. */
  function IndexOf(s: string, c: char): (k: nat)
    requires c in s
    ensures k < |s| && s[k] == c && c !in s[..k]
  {
    if s[0] == c then 0 else 1 + IndexOf(s[1..], c)
  }

  /** The first field of a text: everything before its first `sep`, or all of it. */
  function FirstField(s: string, sep: char): string {
    if sep in s then s[..IndexOf(s, sep)] else s
  }

  /** Splitting yields the first field, then the fields of what follows the first separator. */
  lemma SplitAtFirst(s: string, sep: char)
    requires sep in s
    ensures Split(s, sep) == [FirstField(s, sep)] + Split(s[IndexOf(s, sep) + 1..], sep)
  {
    var k := IndexOf(s, sep);
    assert s == s[..k] + [sep] + s[k + 1..];
    SplitAfterSeparator(s[..k], s[k + 1..], sep);
  }

  /** The id is the text between the first `|` and the next `|`, or the end of `sub`. */
  lemma UserIdBetweenBars(sub: string)
    requires '|' in sub
    ensures UserIdFromSub(sub) == Some(FirstField(sub[IndexOf(sub, '|') + 1..], '|'))
  {
    var rest := sub[IndexOf(sub, '|') + 1..];
    SplitAtFirst(sub, '|');
    if '|' in rest {
      SplitAtFirst(rest, '|');
    } else {
      SplitWithoutSeparator(rest, '|');
    }
  }

  /** An Auth0-style subject gives the part after the connection name. */
  lemma UserIdExample()
    ensures UserIdFromSub("auth0|abc") == Some("abc")
    ensures UserIdFromSub("abc") == None
  {
    assert "auth0|abc" == "auth0" + ['|'] + "abc";
    SplitAfterSeparator("auth0", "abc", '|');
    SplitWithoutSeparator("abc", '|');
  }

  /**
   * What one read of the uncached `user` property produces: an empty token raises
   * NoTokenException before the provider is asked; a provider error propagates as
   * Auth0Error; a `sub` without `|` raises IndexError; otherwise a User.
   */
  function Resolve(authorization: Option<string>, provider: Provider): (res: Resolution)
    ensures Token(authorization) == "" ==> res == Raise(NoTokenException(NoTokenMessage))
    ensures res.Value? ==> res.user.Some? && Token(authorization) != ""
    ensures res.Value? ==>
              && provider(Token(authorization)).Answered?
              && var info := provider(Token(authorization)).info;
              && Some(res.user.value.id) == UserIdFromSub(info.sub)
              && res.user.value.name == info.name
              && res.user.value.email == info.email
    ensures Token(authorization) != "" && provider(Token(authorization)).Rejected? ==>
              res == Raise(Auth0Error(provider(Token(authorization)).repr))
    ensures (Token(authorization) != "" && provider(Token(authorization)).Answered? &&
             '|' in provider(Token(authorization)).info.sub) ==> res.Value?
    ensures res == Raise(IndexError) <==>
              Token(authorization) != "" && provider(Token(authorization)).Answered? &&
              '|' !in provider(Token(authorization)).info.sub
  {
    var token := Token(authorization);
    if token == "" then Raise(NoTokenException(NoTokenMessage))
    else
      match provider(token)
      case Rejected(repr) => Raise(Auth0Error(repr))
      case Answered(info) =>
        match UserIdFromSub(info.sub)
        case None => Raise(IndexError)
        case Some(id) => Value(Some(User(id, info.name, info.email)))
  }

  /**
   * `Context` with its `cached_property` `user`: the first read that returns a user
   * stores it and later reads return the stored user without asking the provider.
   * A read that raises stores nothing, as `cached_property` does.
   */
  class Context {
    const authorization: Option<string>
    const provider: Provider
    var cached: Option<User>
    /** How many times the provider has been consulted on behalf of this context. */
    ghost var providerCalls: nat

    constructor (authorization: Option<string>, provider: Provider)
      ensures this.authorization == authorization && this.provider == provider
      ensures cached == None && providerCalls == 0
    {
      this.authorization := authorization;
      this.provider := provider;
      cached := None;
      providerCalls := 0;
    }

    /** What a read of `user` yields now. */
    ghost function Current(): Resolution
      reads this
    {
      if cached.Some? then Value(cached) else Resolve(authorization, provider)
    }

    /** Reading `user`. */
    method GetUser() returns (res: Resolution)
      modifies this
      ensures res == old(Current())
      ensures old(cached).Some? ==> cached == old(cached)
      ensures old(cached).None? ==> cached == (if res.Value? then res.user else None)
      ensures providerCalls ==
                old(providerCalls) + (if old(cached).None? && Token(authorization) != "" then 1 else 0)
    {
      if cached.Some? {
        return Value(cached);
      }
      if Token(authorization) != "" {
        providerCalls := providerCalls + 1;
      }
      res := Resolve(authorization, provider);
      if res.Value? {
        cached := res.user;
      }
    }
  }

  /** Two reads of one context: the provider is asked at most once, and a user once found is the answer to both. */
  method ReadTwice(ctx: Context) returns (first: Resolution, second: Resolution)
    modifies ctx
    ensures first == old(ctx.Current())
    ensures first.Value? ==> second == first
    ensures ctx.providerCalls <= old(ctx.providerCalls) + (if first.Value? then 1 else 2)
  {
    first := ctx.GetUser();
    second := ctx.GetUser();
  }
}
