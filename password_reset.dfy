/** Password-reset tokens: a table from token to (user, expiry) changed in
    place by create (delete the user's tokens, then insert), by validation
    (which deletes a token found expired), by delete and by the bulk
    clean-up. Generated tokens are inputs and the clock is a parameter. */
module PasswordReset {
  import opened Common

  type Token = string

  /** A token lives for one hour. */
  const ResetTokenExpiry: int := 1 * MicrosPerHour

  datatype ResetToken = ResetToken(userId: int, expiresAt: Timestamp)

  /** At most one token per user. */
  predicate OnePerUser(tokens: map<Token, ResetToken>)
  {
    forall t1, t2 :: t1 in tokens && t2 in tokens && tokens[t1].userId == tokens[t2].userId ==> t1 == t2
  }

  /** The table after create_reset_token: every token of the user is gone
      and the new one maps to the user, expiring an hour from now. */
  function AfterCreate(tokens: map<Token, ResetToken>, user: int, token: Token, now: Timestamp): (r: map<Token, ResetToken>)
    ensures r.Keys == (tokens.Keys - set t | t in tokens && tokens[t].userId == user) + {token}
    ensures r[token] == ResetToken(user, now + ResetTokenExpiry)
  {
    (map t | t in tokens && tokens[t].userId != user :: tokens[t])[token := ResetToken(user, now + ResetTokenExpiry)]
  }

  /** The new token is already another user's (the user's own old tokens
      are deleted before the insert). */
  predicate Collides(tokens: map<Token, ResetToken>, user: int, token: Token)
  {
    token in tokens && tokens[token].userId != user
  }

  /** Creating a token leaves the user with exactly that token, keeps one
      token per user, and leaves other users' tokens alone. */
  lemma CreateKeepsOne(tokens: map<Token, ResetToken>, user: int, token: Token, now: Timestamp)
    requires OnePerUser(tokens) && !Collides(tokens, user, token)
    ensures OnePerUser(AfterCreate(tokens, user, token, now))
    ensures forall t :: t in AfterCreate(tokens, user, token, now) && AfterCreate(tokens, user, token, now)[t].userId == user ==> t == token
    ensures forall t :: t in tokens && tokens[t].userId != user ==> t in AfterCreate(tokens, user, token, now) && AfterCreate(tokens, user, token, now)[t] == tokens[t]
  {
  }

  /** Whether a token is past its expiry at now; one expiring exactly now
      is still live. */
  predicate IsExpired(r: ResetToken, now: Timestamp)
  {
    r.expiresAt < now
  }

  /** validate_reset_token: None for the empty or an unknown token; an
      expired token is deleted and gives None; a live one gives its user
      and stays. The result is the user and the new table. */
  function Validate(tokens: map<Token, ResetToken>, token: Token, now: Timestamp): (r: (Option<int>, map<Token, ResetToken>))
    ensures r.0.Some? <==> token != "" && token in tokens && !IsExpired(tokens[token], now)
    ensures r.0.Some? ==> r.0.value == tokens[token].userId
    ensures r.1 == if token != "" && token in tokens && IsExpired(tokens[token], now) then tokens - {token} else tokens
  {
    if token == "" || token !in tokens then (None, tokens)
    else if IsExpired(tokens[token], now) then (None, tokens - {token})
    else (Some(tokens[token].userId), tokens)
  }

  /** A token just created validates to its user until its hour is over,
      and not after. */
  lemma CreateThenValidate(tokens: map<Token, ResetToken>, user: int, token: Token, created: Timestamp, now: Timestamp)
    requires token != ""
    ensures Validate(AfterCreate(tokens, user, token, created), token, now).0 ==
      (if now <= created + ResetTokenExpiry then Some(user) else None)
  {
  }

  /** The tokens past their expiry at now. */
  function ExpiredTokens(tokens: map<Token, ResetToken>, now: Timestamp): set<Token>
  {
    set t | t in tokens && IsExpired(tokens[t], now)
  }

  /** The table after cleanup_expired_tokens. */
  function WithoutExpired(tokens: map<Token, ResetToken>, now: Timestamp): (r: map<Token, ResetToken>)
    ensures r.Keys == tokens.Keys - ExpiredTokens(tokens, now)
    ensures forall t :: t in r ==> r[t] == tokens[t] && !IsExpired(r[t], now)
  {
    map t | t in tokens && !IsExpired(tokens[t], now) :: tokens[t]
  }

  /** The clean-up's count is the number of rows it removed, and no
      expired token is left behind. */
  lemma CleanupCount(tokens: map<Token, ResetToken>, now: Timestamp)
    ensures |ExpiredTokens(tokens, now)| == |tokens.Keys| - |WithoutExpired(tokens, now).Keys|
    ensures ExpiredTokens(WithoutExpired(tokens, now), now) == {}
  {
    assert tokens.Keys == WithoutExpired(tokens, now).Keys + ExpiredTokens(tokens, now);
  }

  class ResetTokenStore {
    var tokens: map<Token, ResetToken>

    ghost predicate Valid()
      reads this
    {
      OnePerUser(tokens)
    }

    constructor ()
      ensures Valid() && tokens == map[]
    {
      tokens := map[];
    }

    /** create_reset_token with the generated token `token` at time now. A
        token that is already another user's breaks the table's uniqueness:
        the transaction is rolled back and the error surfaces as 500. */
    method Create(user: int, token: Token, now: Timestamp) returns (r: Result<Token>)
      requires Valid()
      modifies this
      ensures Valid()
      ensures r.Failure? <==> Collides(old(tokens), user, token)
      ensures r.Failure? ==> r.status == 500 && tokens == old(tokens)
      ensures r.Ok? ==> r.value == token && tokens == AfterCreate(old(tokens), user, token, now)
    {
      if token in tokens && tokens[token].userId != user {
        return Failure(500);
      }
      CreateKeepsOne(tokens, user, token, now);
      tokens := map k | k in tokens && tokens[k].userId != user :: tokens[k];
      tokens := tokens[token := ResetToken(user, now + ResetTokenExpiry)];
      return Ok(token);
    }

    /** validate_reset_token at time now. */
    method ValidateToken(token: Token, now: Timestamp) returns (user: Option<int>)
      requires Valid()
      modifies this
      ensures Valid()
      ensures (user, tokens) == Validate(old(tokens), token, now)
    {
      if token == "" || token !in tokens {
        return None;
      }
      if tokens[token].expiresAt < now {
        tokens := tokens - {token};
        return None;
      }
      return Some(tokens[token].userId);
    }

    /** delete_reset_token: removes the token, if present, and nothing else. */
    method Delete(token: Token)
      requires Valid()
      modifies this
      ensures Valid()
      ensures tokens == old(tokens) - {token}
    {
      tokens := tokens - {token};
    }

    /** cleanup_expired_tokens at time now: removes the expired tokens and
        returns how many there were. */
    method Cleanup(now: Timestamp) returns (deleted: nat)
      requires Valid()
      modifies this
      ensures Valid()
      ensures tokens == WithoutExpired(old(tokens), now)
      ensures deleted == |ExpiredTokens(old(tokens), now)|
    {
      deleted := |ExpiredTokens(tokens, now)|;
      tokens := WithoutExpired(tokens, now);
    }
  }
}
