/**
 The one-shot confirmation tokens of server/lib/confirmation-token-store.ts.

 A call's verdict is compared with an oracle that looks only at the history of calls: who
 issued the token for what, and whether a matching call in time came before. Random
 tokens are parameters, assumed fresh; the clock never goes back.
 */
module ConfirmationTokens {
  import opened Wrappers

  datatype TokenEntry = TokenEntry(operatorId: string, scope: string, expiresAt: int, consumed: bool)

  type Tokens = map<string, TokenEntry>

  datatype ConsumeReason = UnknownToken | AlreadyConsumed | Expired | OperatorMismatch | ScopeMismatch

  datatype ConsumeResult = Valid | Invalid(reason: ConsumeReason)

  predicate Live(e: TokenEntry, now: int) { !e.consumed && e.expiresAt >= now }

  function CleanedUp(tokens: Tokens, now: int): Tokens {
    map t | t in tokens && Live(tokens[t], now) :: tokens[t]
  }

  function Issued(tokens: Tokens, token: string, operatorId: string, scope: string, expiresAt: int, now: int): Tokens {
    CleanedUp(tokens[token := TokenEntry(operatorId, scope, expiresAt, false)], now)
  }

  function Consumed(tokens: Tokens, token: string, operatorId: string, scope: string, now: int): (Tokens, ConsumeResult) {
    if token !in tokens then (tokens, Invalid(UnknownToken))
    else
      var e := tokens[token];
      if e.consumed then (tokens, Invalid(AlreadyConsumed))
      else if now > e.expiresAt then (tokens - {token}, Invalid(Expired))
      else if e.operatorId != operatorId then (tokens, Invalid(OperatorMismatch))
      else if e.scope != scope then (tokens, Invalid(ScopeMismatch))
      else (tokens[token := e.(consumed := true)], Valid)
  }

  const DEFAULT_GATE_CONFIRM_TTL_MS := 60_000

  class ConfirmationTokenStore {
    const ttlMs: int
    var tokens: Tokens

    constructor (ttlMs: Option<int>)
      ensures tokens == map[] && this.ttlMs == if ttlMs.Some? then ttlMs.value else 60_000
    {
      this.ttlMs := if ttlMs.Some? then ttlMs.value else DEFAULT_GATE_CONFIRM_TTL_MS;
      tokens := map[];
    }

    /** `token` is the random value drawn; `cleanupAt` is the clock when the clean-up runs. */
    method Issue(token: string, operatorId: string, scope: string, now: int, cleanupAt: int) returns (expiresAt: int)
      modifies this
      ensures expiresAt == now + ttlMs
      ensures tokens == Issued(old(tokens), token, operatorId, scope, expiresAt, cleanupAt)
    {
      expiresAt := now + ttlMs;
      tokens := tokens[token := TokenEntry(operatorId, scope, expiresAt, false)];
      Cleanup(cleanupAt);
    }

    method Consume(token: string, operatorId: string, scope: string, now: int) returns (r: ConsumeResult)
      modifies this
      ensures (tokens, r) == Consumed(old(tokens), token, operatorId, scope, now)
    {
      if token !in tokens { return Invalid(UnknownToken); }
      var entry := tokens[token];
      if entry.consumed { return Invalid(AlreadyConsumed); }
      if now > entry.expiresAt {
        tokens := tokens - {token};
        return Invalid(Expired);
      }
      if entry.operatorId != operatorId { return Invalid(OperatorMismatch); }
      if entry.scope != scope { return Invalid(ScopeMismatch); }
      tokens := tokens[token := entry.(consumed := true)];
      r := Valid;
    }

    method Cleanup(now: int)
      modifies this
      ensures tokens == CleanedUp(old(tokens), now)
    {
      var all := tokens;
      var rest := all.Keys;
      while rest != {}
        invariant rest <= all.Keys
        invariant tokens == map t | t in all && (t in rest || Live(all[t], now)) :: all[t]
        decreases rest
      {
        var k :| k in rest;
        if all[k].consumed || all[k].expiresAt < now {
          tokens := tokens - {k};
        }
        rest := rest - {k};
      }
    }
  }

  /** After `issue` the map holds only live tokens. */
  lemma OnlyLiveAfterIssue(tokens: Tokens, token: string, operatorId: string, scope: string, expiresAt: int, now: int)
    ensures forall t :: t in Issued(tokens, token, operatorId, scope, expiresAt, now) ==>
      Live(Issued(tokens, token, operatorId, scope, expiresAt, now)[t], now)
  {
  }

  // ---------------------------------------------------------------- runs

  datatype Call =
    | IssueCall(token: string, operatorId: string, scope: string, now: int, cleanupAt: int)
    | ConsumeCall(token: string, operatorId: string, scope: string, now: int)
    | CleanupCall(now: int)

  function Next(ttl: int, tokens: Tokens, c: Call): Tokens {
    match c
    case IssueCall(token, operatorId, scope, now, cleanupAt) =>
      Issued(tokens, token, operatorId, scope, now + ttl, cleanupAt)
    case ConsumeCall(token, operatorId, scope, now) => Consumed(tokens, token, operatorId, scope, now).0
    case CleanupCall(now) => CleanedUp(tokens, now)
  }

  function Run(ttl: int, h: seq<Call>): Tokens {
    if h == [] then map[] else Next(ttl, Run(ttl, h[..|h| - 1]), h[|h| - 1])
  }

  /** The verdict of the store on a call after a history. */
  predicate Accepts(ttl: int, h: seq<Call>, c: Call)
    requires c.ConsumeCall?
  {
    Consumed(Run(ttl, h), c.token, c.operatorId, c.scope, c.now).1 == Valid
  }

  function EndOf(c: Call): int { if c.IssueCall? then c.cleanupAt else c.now }

  function Clock(h: seq<Call>, zero: int): int { if h == [] then zero else EndOf(h[|h| - 1]) }

  /** The clock never goes back, and no token is drawn twice. */
  predicate Proper(h: seq<Call>, zero: int) {
    h == [] ||
    var init, last := h[..|h| - 1], h[|h| - 1];
    && Proper(init, zero)
    && Clock(init, zero) <= last.now <= EndOf(last)
    && (last.IssueCall? ==> IssueOf(init, last.token).None?)
  }

  // ---------------------------------------------------------------- the oracle

  /** The call that issued a token. */
  function IssueOf(h: seq<Call>, token: string): (r: Option<Call>)
    ensures r.Some? ==> r.value.IssueCall? && r.value.token == token
  {
    if h == [] then None
    else
      var last := h[|h| - 1];
      if last.IssueCall? && last.token == token then Some(last) else IssueOf(h[..|h| - 1], token)
  }

  /** A call by the operator and for the scope the token was issued to, no later than its expiry. */
  predicate Matches(ttl: int, h: seq<Call>, c: Call)
    requires c.ConsumeCall?
  {
    var issue := IssueOf(h, c.token);
    issue.Some? && issue.value.operatorId == c.operatorId && issue.value.scope == c.scope
    && c.now <= issue.value.now + ttl
  }

  /** Some call before matched this token. */
  predicate Spent(ttl: int, h: seq<Call>, token: string) {
    h != [] &&
    var init, last := h[..|h| - 1], h[|h| - 1];
    Spent(ttl, init, token) || (last.ConsumeCall? && last.token == token && Matches(ttl, init, last))
  }

  /** The first matching call, and only that. */
  predicate Oracle(ttl: int, h: seq<Call>, c: Call)
    requires c.ConsumeCall?
  {
    Matches(ttl, h, c) && !Spent(ttl, h, c.token)
  }

  ghost predicate Tracks(ttl: int, h: seq<Call>, now: int, t: string) {
    var tokens, issue := Run(ttl, h), IssueOf(h, t);
    && (t in tokens ==> && issue.Some?
                        && tokens[t] == TokenEntry(issue.value.operatorId, issue.value.scope,
                                                   issue.value.now + ttl, Spent(ttl, h, t)))
    && (t !in tokens && issue.Some? ==> Spent(ttl, h, t) || issue.value.now + ttl < now)
    && (issue.None? ==> !Spent(ttl, h, t))
  }

  lemma {:induction false} RunTracks(ttl: int, h: seq<Call>, zero: int, t: string)
    requires Proper(h, zero)
    ensures Tracks(ttl, h, Clock(h, zero), t)
  {
    if h != [] {
      var init, last := h[..|h| - 1], h[|h| - 1];
      RunTracks(ttl, init, zero, t);
      if last.IssueCall? { RunTracks(ttl, init, zero, last.token); }
    }
  }

  /**
   Over every proper history, `consume` succeeds exactly on the first call with the
   matching operator and scope at or before the token's expiry.
   */
  lemma AcceptsIsOracle(ttl: int, h: seq<Call>, zero: int, c: Call)
    requires c.ConsumeCall? && Proper(h, zero) && Clock(h, zero) <= c.now
    ensures Accepts(ttl, h, c) <==> Oracle(ttl, h, c)
  {
    RunTracks(ttl, h, zero, c.token);
  }

  /** The token can no longer be used: it was, or its time was over by then. */
  predicate Dead(ttl: int, h: seq<Call>, token: string, now: int) {
    IssueOf(h, token).Some? && (Spent(ttl, h, token) || IssueOf(h, token).value.now + ttl < now)
  }

  /**
   The token was forgotten: at a clean-up, which also ends an issue, that found it dead, or when it
   was presented late without having been used.
   */
  predicate Forgotten(ttl: int, h: seq<Call>, token: string) {
    h != [] &&
    var init, last := h[..|h| - 1], h[|h| - 1];
    || Forgotten(ttl, init, token)
    || match last
       case CleanupCall(now) => Dead(ttl, init, token, now)
       case IssueCall(t, _, _, now, cleanupAt) =>
         if t == token then now + ttl < cleanupAt else Dead(ttl, init, token, cleanupAt)
       case ConsumeCall(t, _, _, now) => t == token && Dead(ttl, init, token, now) && !Spent(ttl, init, token)
  }

  /** What a presented token is told, read off the history alone. */
  function Told(ttl: int, h: seq<Call>, c: Call): ConsumeResult
    requires c.ConsumeCall?
  {
    var issue := IssueOf(h, c.token);
    if issue.None? || Forgotten(ttl, h, c.token) then Invalid(UnknownToken)
    else if Spent(ttl, h, c.token) then Invalid(AlreadyConsumed)
    else if issue.value.now + ttl < c.now then Invalid(Expired)
    else if issue.value.operatorId != c.operatorId then Invalid(OperatorMismatch)
    else if issue.value.scope != c.scope then Invalid(ScopeMismatch)
    else Valid
  }

  lemma {:induction false} KnownUntilForgotten(ttl: int, h: seq<Call>, zero: int, t: string)
    requires Proper(h, zero)
    ensures t in Run(ttl, h) <==> IssueOf(h, t).Some? && !Forgotten(ttl, h, t)
    ensures IssueOf(h, t).None? ==> !Forgotten(ttl, h, t)
  {
    if h != [] {
      var init, last := h[..|h| - 1], h[|h| - 1];
      KnownUntilForgotten(ttl, init, zero, t);
      RunTracks(ttl, init, zero, t);
      KnownStep(ttl, init, last, h, zero, t);
    }
  }

  lemma KnownStep(ttl: int, init: seq<Call>, last: Call, h: seq<Call>, zero: int, t: string)
    requires h != [] && init == h[..|h| - 1] && last == h[|h| - 1] && Proper(h, zero)
    requires Tracks(ttl, init, Clock(init, zero), t)
    requires t in Run(ttl, init) <==> IssueOf(init, t).Some? && !Forgotten(ttl, init, t)
    requires IssueOf(init, t).None? ==> !Forgotten(ttl, init, t)
    ensures t in Run(ttl, h) <==> IssueOf(h, t).Some? && !Forgotten(ttl, h, t)
    ensures IssueOf(h, t).None? ==> !Forgotten(ttl, h, t)
  {
  }

  /** Over every proper history each call is told what the history says, with the first reason that holds. */
  lemma ReasonIsTold(ttl: int, h: seq<Call>, zero: int, c: Call)
    requires c.ConsumeCall? && Proper(h, zero)
    ensures Consumed(Run(ttl, h), c.token, c.operatorId, c.scope, c.now).1 == Told(ttl, h, c)
  {
    RunTracks(ttl, h, zero, c.token);
    KnownUntilForgotten(ttl, h, zero, c.token);
  }

  lemma {:induction false} SpentStays(ttl: int, h: seq<Call>, more: seq<Call>, token: string)
    requires Spent(ttl, h, token)
    ensures Spent(ttl, h + more, token)
  {
    if more == [] {
      assert h + more == h;
    } else {
      SpentStays(ttl, h, more[..|more| - 1], token);
      assert (h + more)[..|h + more| - 1] == h + more[..|more| - 1];
    }
  }

  /** One token, one success. */
  lemma AtMostOnce(ttl: int, h: seq<Call>, zero: int, first: Call, between: seq<Call>, second: Call)
    requires first.ConsumeCall? && second.ConsumeCall? && first.token == second.token
    requires Proper(h + [first] + between + [second], zero)
    requires Accepts(ttl, h, first)
    ensures !Accepts(ttl, h + [first] + between, second)
  {
    var all := h + [first] + between;
    assert (all + [second])[..|all|] == all;
    ProperPrefix(h + [first], between, zero);
    assert (h + [first])[..|h|] == h;
    AcceptsIsOracle(ttl, h, zero, first);
    SpentStays(ttl, h + [first], between, first.token);
    AcceptsIsOracle(ttl, all, zero, second);
  }

  lemma {:induction false} ProperPrefix(h: seq<Call>, more: seq<Call>, zero: int)
    requires Proper(h + more, zero)
    ensures Proper(h, zero)
  {
    if more == [] {
      assert h + more == h;
    } else {
      assert (h + more)[..|h + more| - 1] == h + more[..|more| - 1];
      ProperPrefix(h, more[..|more| - 1], zero);
    }
  }

  /** A failed attempt or a clean-up leaves no trace the oracle could see. */
  lemma {:induction false} NoTrace(ttl: int, h: seq<Call>, x: Call, more: seq<Call>, t: string)
    requires x.CleanupCall? || (x.ConsumeCall? && !Oracle(ttl, h, x))
    ensures IssueOf(h + [x] + more, t) == IssueOf(h + more, t)
    ensures Spent(ttl, h + [x] + more, t) <==> Spent(ttl, h + more, t)
    decreases |more|
  {
    if more == [] {
      assert h + [x] + more == h + [x] && h + more == h && (h + [x])[..|h|] == h;
    } else {
      var init, last := more[..|more| - 1], more[|more| - 1];
      assert (h + [x] + more)[..|h + [x] + more| - 1] == h + [x] + init;
      assert (h + more)[..|h + more| - 1] == h + init;
      NoTrace(ttl, h, x, init, t);
      if last.ConsumeCall? { NoTrace(ttl, h, x, init, last.token); }
    }
  }

  /** Adding or leaving out such a call changes no other call's verdict. */
  lemma NoInterference(ttl: int, h: seq<Call>, x: Call, more: seq<Call>, zero: int, c: Call)
    requires x.CleanupCall? || (x.ConsumeCall? && !Accepts(ttl, h, x))
    requires c.ConsumeCall? && Proper(h + [x] + more, zero) && Clock(h + [x] + more, zero) <= c.now
    ensures Accepts(ttl, h + [x] + more, c) <==> Accepts(ttl, h + more, c)
  {
    ProperPrefix(h + [x], more, zero);
    assert (h + [x])[..|h|] == h;
    if x.ConsumeCall? { AcceptsIsOracle(ttl, h, zero, x); }
    AcceptsIsOracle(ttl, h + [x] + more, zero, c);
    ProperWithout(ttl, h, x, more, zero);
    AcceptsIsOracle(ttl, h + more, zero, c);
    NoTrace(ttl, h, x, more, c.token);
  }

  lemma {:induction false} ProperWithout(ttl: int, h: seq<Call>, x: Call, more: seq<Call>, zero: int)
    requires !x.IssueCall? && Proper(h + [x] + more, zero)
    ensures Proper(h + more, zero) && Clock(h + more, zero) <= Clock(h + [x] + more, zero)
    decreases |more|
  {
    if more == [] {
      assert h + [x] + more == h + [x] && h + more == h && (h + [x])[..|h|] == h;
    } else {
      var init, last := more[..|more| - 1], more[|more| - 1];
      assert (h + [x] + more)[..|h + [x] + more| - 1] == h + [x] + init;
      assert (h + more)[..|h + more| - 1] == h + init;
      ProperWithout(ttl, h, x, init, zero);
      if last.IssueCall? { SameIssue(h, x, init, last.token); }
    }
  }

  lemma {:induction false} SameIssue(h: seq<Call>, x: Call, more: seq<Call>, t: string)
    requires !x.IssueCall?
    ensures IssueOf(h + [x] + more, t) == IssueOf(h + more, t)
    decreases |more|
  {
    if more == [] {
      assert h + [x] + more == h + [x] && h + more == h && (h + [x])[..|h|] == h;
    } else {
      var init := more[..|more| - 1];
      assert (h + [x] + more)[..|h + [x] + more| - 1] == h + [x] + init;
      assert (h + more)[..|h + more| - 1] == h + init;
      SameIssue(h, x, init, t);
    }
  }
}
