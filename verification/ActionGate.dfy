/**
 The action gate of server/contrib/action-gate.ts with the role resolution of
 server/contrib/rbac.ts: one POST handler, one process-wide token store.

 Everything between the arrival of a request and the call of the action's handler runs
 without yielding, so a run is a sequence of requests, to any mix of actions, by anyone.
 */
module ActionGates {
  import opened Wrappers

  datatype Role = Viewer | Operator | Deployer | Admin

  datatype Destructiveness = ReadOnly | Reversible | Irreversible | Destructive

  datatype RoleMapEntry = RoleMapEntry(principal: string, role: Role)

  datatype RolesConfig = RolesConfig(roleMap: seq<RoleMapEntry>, defaultRole: Option<Role>)

  datatype Action = Action(minRole: Option<Role>, destructiveness: Option<Destructiveness>)

  const TOKEN_TTL_MS := 60_000

  function Rank(r: Role): nat {
    match r case Viewer => 0 case Operator => 1 case Deployer => 2 case Admin => 3
  }

  predicate HasRole(actual: Role, required: Role) { Rank(actual) >= Rank(required) }

  // ---------------------------------------------------------------- roles

  /** The role of the first entry for a principal. */
  function FirstFor(entries: seq<RoleMapEntry>, principal: string): Option<Role> {
    if entries == [] then None
    else if entries[0].principal == principal then Some(entries[0].role)
    else FirstFor(entries[1..], principal)
  }

  /** The role of the last entry for a principal. */
  function LastFor(entries: seq<RoleMapEntry>, principal: string): Option<Role> {
    if entries == [] then None
    else if entries[|entries| - 1].principal == principal then Some(entries[|entries| - 1].role)
    else LastFor(entries[..|entries| - 1], principal)
  }

  /** The first exact entry, else the last wildcard, else the default, else admin. */
  function RoleOf(actor: string, config: RolesConfig): Role {
    var exact, wildcard := FirstFor(config.roleMap, actor), LastFor(config.roleMap, "*");
    if exact.Some? then exact.value
    else if wildcard.Some? then wildcard.value
    else if config.defaultRole.Some? then config.defaultRole.value
    else Admin
  }

  method ResolveRole(actor: string, config: RolesConfig) returns (r: Role)
    ensures r == RoleOf(actor, config)
  {
    var wildcard: Option<Role> := None;
    var entries := config.roleMap;
    assert entries[0..] == entries && entries[..0] == [];
    for i := 0 to |entries|
      invariant FirstFor(entries, actor) == FirstFor(entries[i..], actor)
      invariant wildcard == LastFor(entries[..i], "*")
    {
      if entries[i].principal == actor { return entries[i].role; }
      assert entries[i..][1..] == entries[i + 1..] && entries[..i + 1][..i] == entries[..i];
      if entries[i].principal == "*" { wildcard := Some(entries[i].role); }
    }
    assert entries[..|entries|] == entries;
    if wildcard.Some? { return wildcard.value; }
    r := if config.defaultRole.Some? then config.defaultRole.value else Admin;
  }

  /** No entry for the principal from one place to before another. */
  predicate NoEntry(es: seq<RoleMapEntry>, from: int, to: int, principal: string) {
    forall j :: 0 <= j < |es| && from <= j < to ==> es[j].principal != principal
  }

  predicate FirstAt(es: seq<RoleMapEntry>, i: int, principal: string, role: Role) {
    0 <= i < |es| && es[i] == RoleMapEntry(principal, role) && NoEntry(es, 0, i, principal)
  }

  predicate LastAt(es: seq<RoleMapEntry>, i: int, principal: string, role: Role) {
    0 <= i < |es| && es[i] == RoleMapEntry(principal, role) && NoEntry(es, i + 1, |es|, principal)
  }

  /** A role is the first one given to the actor; without one the last wildcard's; without one the default, or admin. */
  ghost predicate RoleFrom(actor: string, config: RolesConfig, role: Role) {
    var es := config.roleMap;
    if !NoEntry(es, 0, |es|, actor) then exists i :: FirstAt(es, i, actor, role)
    else if !NoEntry(es, 0, |es|, "*") then exists i :: LastAt(es, i, "*", role)
    else role == if config.defaultRole == None then Admin else config.defaultRole.value
  }

  lemma {:induction false} FirstIs(entries: seq<RoleMapEntry>, principal: string)
    ensures FirstFor(entries, principal).None? ==> NoEntry(entries, 0, |entries|, principal)
    ensures FirstFor(entries, principal).Some? ==> exists i :: FirstAt(entries, i, principal, FirstFor(entries, principal).value)
  {
    if entries != [] {
      var rest, role := entries[1..], FirstFor(entries, principal);
      FirstIs(rest, principal);
      assert forall j :: 0 < j < |entries| ==> entries[j] == rest[j - 1];
      if entries[0].principal == principal {
        assert FirstAt(entries, 0, principal, role.value);
      } else if role.Some? {
        var i :| FirstAt(rest, i, principal, role.value);
        assert FirstAt(entries, i + 1, principal, role.value);
      }
    }
  }

  lemma {:induction false} LastIs(entries: seq<RoleMapEntry>, principal: string)
    ensures LastFor(entries, principal).None? ==> NoEntry(entries, 0, |entries|, principal)
    ensures LastFor(entries, principal).Some? ==> exists i :: LastAt(entries, i, principal, LastFor(entries, principal).value)
  {
    if entries != [] {
      var n, init, role := |entries| - 1, entries[..|entries| - 1], LastFor(entries, principal);
      LastIs(init, principal);
      assert forall j :: 0 <= j < n ==> entries[j] == init[j];
      if entries[n].principal == principal {
        assert LastAt(entries, n, principal, role.value);
      } else if role.Some? {
        var i :| LastAt(init, i, principal, role.value);
        assert LastAt(entries, i, principal, role.value);
      }
    }
  }

  /** The resolved role is the one the entries give. */
  lemma RoleIsFrom(actor: string, config: RolesConfig)
    ensures RoleFrom(actor, config, RoleOf(actor, config))
  {
    FirstIs(config.roleMap, actor);
    LastIs(config.roleMap, "*");
  }

  /** The role of the first entry that matches an actor, by name or by wildcard. */
  function FirstMatch(entries: seq<RoleMapEntry>, actor: string): Option<Role> {
    if entries == [] then None
    else if entries[0].principal == actor || entries[0].principal == "*" then Some(entries[0].role)
    else FirstMatch(entries[1..], actor)
  }

  /** The role by the rule that the first match wins. */
  function FirstMatchRole(actor: string, config: RolesConfig): Role {
    var m := FirstMatch(config.roleMap, actor);
    if m.Some? then m.value else if config.defaultRole.Some? then config.defaultRole.value else Admin
  }

  /** A wildcard entry comes before any entry for the actor. */
  predicate WildcardFirst(entries: seq<RoleMapEntry>, actor: string) {
    entries != [] && entries[0].principal != actor && (entries[0].principal == "*" || WildcardFirst(entries[1..], actor))
  }

  lemma {:induction false} FirstMatchIs(entries: seq<RoleMapEntry>, actor: string)
    ensures FirstMatch(entries, actor)
            == if WildcardFirst(entries, actor) then FirstFor(entries, "*") else FirstFor(entries, actor)
    ensures FirstFor(entries, actor).None? && FirstFor(entries, "*").Some? ==> WildcardFirst(entries, actor)
    ensures WildcardFirst(entries, actor) ==> FirstFor(entries, "*").Some?
  {
    if entries != [] { FirstMatchIs(entries[1..], actor); }
  }

  lemma {:induction false} SomeFirst(entries: seq<RoleMapEntry>, principal: string)
    ensures FirstFor(entries, principal).Some? <==> exists i :: 0 <= i < |entries| && entries[i].principal == principal
  {
    if entries != [] {
      SomeFirst(entries[1..], principal);
      if i :| 0 <= i < |entries| && entries[i].principal == principal && i > 0 {
        assert entries[1..][i - 1] == entries[i];
      }
      if i :| 0 <= i < |entries[1..]| && entries[1..][i].principal == principal {
        assert entries[i + 1].principal == principal;
      }
    }
  }

  lemma {:induction false} SomeLast(entries: seq<RoleMapEntry>, principal: string)
    ensures LastFor(entries, principal).Some? <==> exists i :: 0 <= i < |entries| && entries[i].principal == principal
  {
    if entries != [] {
      var init := entries[..|entries| - 1];
      SomeLast(init, principal);
      if i :| 0 <= i < |init| && init[i].principal == principal { assert entries[i].principal == principal; }
      if i :| 0 <= i < |entries| && entries[i].principal == principal && i < |entries| - 1 {
        assert init[i] == entries[i];
      }
    }
  }

  /**
   The first match wins exactly if no wildcard of another role comes before the actor's own entry
   or, where the actor has none, if the last wildcard has the role of the first one.
   */
  lemma FirstMatchWinsIff(actor: string, config: RolesConfig)
    ensures var entries := config.roleMap; var exact, first := FirstFor(entries, actor), FirstFor(entries, "*");
            RoleOf(actor, config) == FirstMatchRole(actor, config)
            <==> if exact.Some? then (WildcardFirst(entries, actor) ==> first == exact) else LastFor(entries, "*") == first
  {
    FirstMatchIs(config.roleMap, actor);
    SomeFirst(config.roleMap, "*");
    SomeLast(config.roleMap, "*");
  }

  /** Two maps on which a later entry wins: two wildcards, and a wildcard before the actor's own entry. */
  lemma LaterEntryWins(actor: string)
    requires actor != "*"
    ensures var m := [RoleMapEntry("*", Viewer), RoleMapEntry("*", Admin)];
            RoleOf(actor, RolesConfig(m, None)) == Admin && FirstMatch(m, actor) == Some(Viewer)
    ensures var m := [RoleMapEntry("*", Viewer), RoleMapEntry(actor, Admin)];
            RoleOf(actor, RolesConfig(m, None)) == Admin && FirstMatch(m, actor) == Some(Viewer)
  {
    var two, own := [RoleMapEntry("*", Viewer), RoleMapEntry("*", Admin)], [RoleMapEntry("*", Viewer), RoleMapEntry(actor, Admin)];
    var none: seq<RoleMapEntry> := [];
    assert two[1..] == [two[1]] && two[1..][1..] == none;
    assert own[1..] == [own[1]];
    assert FirstFor(two[1..], actor) == FirstFor(none, actor) == None;
    assert FirstFor(own[1..], actor) == Some(Admin);
  }

  // ---------------------------------------------------------------- the token store

  datatype ContribToken = ContribToken(actionKey: string, phrase: string, issuedAt: int, actor: string)

  type Store = map<string, ContribToken>

  function ConsumeToken(store: Store, token: string, actionKey: string, now: int): (Store, Option<ContribToken>) {
    if token !in store then (store, None)
    else
      var e := store[token];
      (store - {token}, if e.actionKey != actionKey || now - e.issuedAt > TOKEN_TTL_MS then None else Some(e))
  }

  class ContribTokenStore {
    var store: Store

    constructor ()
      ensures store == map[]
    {
      store := map[];
    }

    /** `token` is the random value drawn. */
    method Issue(token: string, actionKey: string, phrase: string, actor: string, now: int)
      modifies this
      ensures store == old(store)[token := ContribToken(actionKey, phrase, now, actor)]
    {
      store := store[token := ContribToken(actionKey, phrase, now, actor)];
    }

    method Consume(token: string, actionKey: string, now: int) returns (entry: Option<ContribToken>)
      modifies this
      ensures (store, entry) == ConsumeToken(old(store), token, actionKey, now)
    {
      if token !in store { return None; }
      var e := store[token];
      store := store - {token};
      if e.actionKey != actionKey { return None; }
      if now - e.issuedAt > TOKEN_TTL_MS { return None; }
      entry := Some(e);
    }
  }

  // ---------------------------------------------------------------- one request

  /** A POST to an action; `drawn` is the random token used if one is issued. */
  datatype Request = Request(
    actionKey: string, action: Action, actor: string, header: Option<string>, drawn: string, now: int)

  datatype Outcome =
    | Denied
    | Confirm(token: string, phrase: string)
    | BadToken
    | Runs(role: Role, paidWith: Option<string>)

  function MinRole(a: Action): Role { if a.minRole.Some? then a.minRole.value else Admin }

  function Severity(a: Action): Destructiveness {
    if a.destructiveness.Some? then a.destructiveness.value else Reversible
  }

  function PhraseOf(d: Destructiveness): string
    requires d != ReadOnly
  {
    match d
    case Reversible => "CONFIRM ACTION"
    case Irreversible => "CONFIRM PERMANENT"
    case Destructive => "CONFIRM DESTROY"
  }

  predicate Presents(r: Request) { r.header.Some? && r.header.value != "" }

  function Handle(config: RolesConfig, store: Store, r: Request): (Store, Outcome) {
    var role := RoleOf(r.actor, config);
    if !HasRole(role, MinRole(r.action)) then (store, Denied)
    else if Severity(r.action) == ReadOnly then (store, Runs(role, None))
    else if !Presents(r) then
      var phrase := PhraseOf(Severity(r.action));
      (store[r.drawn := ContribToken(r.actionKey, phrase, r.now, r.actor)], Confirm(r.drawn, phrase))
    else
      var (s, entry) := ConsumeToken(store, r.header.value, r.actionKey, r.now);
      (s, if entry.None? then BadToken else Runs(role, Some(r.header.value)))
  }

  method Post(config: RolesConfig, tokens: ContribTokenStore, r: Request) returns (o: Outcome)
    modifies tokens
    ensures (tokens.store, o) == Handle(config, old(tokens.store), r)
  {
    var role := ResolveRole(r.actor, config);
    var minRole := if r.action.minRole.Some? then r.action.minRole.value else Admin;
    if !HasRole(role, minRole) { return Denied; }
    var severity := if r.action.destructiveness.Some? then r.action.destructiveness.value else Reversible;
    if severity == ReadOnly { return Runs(role, None); }
    if r.header.None? || r.header.value == "" {
      var phrase := PhraseOf(severity);
      tokens.Issue(r.drawn, r.actionKey, phrase, r.actor, r.now);
      return Confirm(r.drawn, phrase);
    }
    var entry := tokens.Consume(r.header.value, r.actionKey, r.now);
    if entry.None? { return BadToken; }
    o := Runs(role, r.header);
  }

  // ---------------------------------------------------------------- runs

  function StoreAfter(config: RolesConfig, h: seq<Request>): Store {
    if h == [] then map[] else Handle(config, StoreAfter(config, h[..|h| - 1]), h[|h| - 1]).0
  }

  function OutcomeOf(config: RolesConfig, h: seq<Request>, r: Request): Outcome {
    Handle(config, StoreAfter(config, h), r).1
  }

  /** No token is drawn twice. */
  predicate FreshTokens(h: seq<Request>) {
    forall i, j :: 0 <= i < j < |h| ==> h[i].drawn != h[j].drawn
  }

  predicate Issues(config: RolesConfig, h: seq<Request>, r: Request, token: string) {
    OutcomeOf(config, h, r).Confirm? && r.drawn == token
  }

  predicate Uses(config: RolesConfig, h: seq<Request>, r: Request, token: string) {
    var o := OutcomeOf(config, h, r);
    o.Runs? && o.paidWith == Some(token)
  }

  /** The request that was answered with a token. */
  function IssueOf(config: RolesConfig, h: seq<Request>, token: string): (r: Option<Request>)
    ensures r.Some? ==> r.value in h && r.value.drawn == token
  {
    if h == [] then None
    else
      var init, last := h[..|h| - 1], h[|h| - 1];
      if Issues(config, init, last, token) then Some(last) else IssueOf(config, init, token)
  }

  /** How many handler runs a token has paid for. */
  function UseCount(config: RolesConfig, h: seq<Request>, token: string): nat {
    if h == [] then 0
    else
      var init, last := h[..|h| - 1], h[|h| - 1];
      UseCount(config, init, token) + if Uses(config, init, last, token) then 1 else 0
  }

  /** The role is below the required one, which is admin if none is given. */
  predicate Below(actual: Role, required: Option<Role>) {
    match actual
    case Viewer => required != Some(Viewer)
    case Operator => required == Some(Deployer) || required == Some(Admin) || required == None
    case Deployer => required == Some(Admin) || required == None
    case Admin => false
  }

  /** A request that gets as far as presenting a token. */
  predicate PresentsToken(config: RolesConfig, r: Request, token: string) {
    && !Below(RoleOf(r.actor, config), r.action.minRole) && r.action.destructiveness != Some(ReadOnly)
    && r.header == Some(token) && token != ""
  }

  /** The token was presented after it was issued. */
  predicate Presented(config: RolesConfig, h: seq<Request>, token: string) {
    h != []
    && (Presented(config, h[..|h| - 1], token)
        || (IssueOf(config, h[..|h| - 1], token).Some? && PresentsToken(config, h[|h| - 1], token)))
  }

  /** What the store knows about a token, from the history: it is there exactly from its issue to its first presentation. */
  ghost predicate Tracks(config: RolesConfig, h: seq<Request>, t: string) {
    var store, issue, uses := StoreAfter(config, h), IssueOf(config, h, t), UseCount(config, h, t);
    && (t in store <==> issue.Some? && !Presented(config, h, t))
    && (t in store ==> store[t].actionKey == issue.value.actionKey && store[t].issuedAt == issue.value.now)
    && uses <= 1 && (uses == 1 ==> issue.Some? && Presented(config, h, t))
    && (Presented(config, h, t) ==> issue.Some?)
  }

  lemma {:induction false} RunTracks(config: RolesConfig, h: seq<Request>, t: string)
    requires FreshTokens(h)
    ensures Tracks(config, h, t)
  {
    if h != [] {
      var init, last := h[..|h| - 1], h[|h| - 1];
      RunTracks(config, init, t);
      if Issues(config, init, last, t) {
        assert last.drawn == t && forall i :: 0 <= i < |init| ==> init[i].drawn == h[i].drawn != t;
      }
      TracksStep(config, init, last, h, t);
    }
  }

  lemma TracksStep(config: RolesConfig, init: seq<Request>, last: Request, h: seq<Request>, t: string)
    requires h == init + [last] && Tracks(config, init, t)
    requires Issues(config, init, last, t) ==> IssueOf(config, init, t).None?
    ensures Tracks(config, h, t)
  {
    OneMore(config, init, last, h, t);
    HandleTells(config, StoreAfter(config, init), last, t);
  }

  lemma OneMore(config: RolesConfig, init: seq<Request>, last: Request, h: seq<Request>, t: string)
    requires h == init + [last]
    ensures StoreAfter(config, h) == Handle(config, StoreAfter(config, init), last).0
    ensures IssueOf(config, h, t) == if Issues(config, init, last, t) then Some(last) else IssueOf(config, init, t)
    ensures UseCount(config, h, t) == UseCount(config, init, t) + if Uses(config, init, last, t) then 1 else 0
    ensures Presented(config, h, t) <==>
              Presented(config, init, t) || (IssueOf(config, init, t).Some? && PresentsToken(config, last, t))
  {
    assert h[..|h| - 1] == init && h[|h| - 1] == last;
  }

  /** What a request does to a token. */
  lemma HandleTells(config: RolesConfig, store: Store, r: Request, t: string)
    ensures var (s, o) := Handle(config, store, r);
            && (o.Confirm? && r.drawn == t ==> t in s && s[t].actionKey == r.actionKey && s[t].issuedAt == r.now)
            && (!(o.Confirm? && r.drawn == t) ==> (t in s <==> t in store && !PresentsToken(config, r, t)) && (t in s ==> s[t] == store[t]))
            && (o.Runs? && o.paidWith == Some(t) ==> t in store && PresentsToken(config, r, t))
            && (o.Confirm? ==> !PresentsToken(config, r, t))
  {
  }

  /** The verdict on a request from the history alone. */
  function Verdict(config: RolesConfig, h: seq<Request>, r: Request): Outcome {
    var role, severity := RoleOf(r.actor, config), r.action.destructiveness;
    if Below(role, r.action.minRole) then Denied
    else if severity == Some(ReadOnly) then Runs(role, None)
    else if r.header == None || r.header == Some("") then
      Confirm(r.drawn, if severity == Some(Irreversible) then "CONFIRM PERMANENT"
                       else if severity == Some(Destructive) then "CONFIRM DESTROY" else "CONFIRM ACTION")
    else
      var issue := IssueOf(config, h, r.header.value);
      if issue.Some? && !Presented(config, h, r.header.value)
         && issue.value.actionKey == r.actionKey && r.now - issue.value.now <= 60_000
      then Runs(role, r.header)
      else BadToken
  }

  /** A confirmed action runs if and only if its token was issued for it, in time, and never presented before. */
  lemma OutcomeIsVerdict(config: RolesConfig, h: seq<Request>, r: Request)
    requires FreshTokens(h)
    ensures OutcomeOf(config, h, r) == Verdict(config, h, r)
  {
    if Presents(r) { RunTracks(config, h, r.header.value); }
  }

  /** Who is turned away, after any history: viewers by all but viewer actions, and so on up to admins, who never are. */
  lemma DeniedIff(config: RolesConfig, h: seq<Request>, r: Request, role: Role)
    requires RoleFrom(r.actor, config, role)
    ensures OutcomeOf(config, h, r) == Denied <==>
              var required := if r.action.minRole == None then Admin else r.action.minRole.value;
              || (role == Viewer && required != Viewer)
              || (role == Operator && (required == Deployer || required == Admin))
              || (role == Deployer && required == Admin)
  {
    OneRole(r.actor, config, role);
  }

  /** The entries give one role, which is the one resolved. */
  lemma OneRole(actor: string, config: RolesConfig, role: Role)
    ensures RoleFrom(actor, config, role) <==> role == RoleOf(actor, config)
  {
    RoleIsFrom(actor, config);
  }

  /**
   Gate safety: a handler run is by an actor whose role is not below the required one; a run of an
   action that is not read-only used a token that was issued by an earlier request for the same
   action key, at most 60 seconds before, and had paid for no other run.
   */
  lemma RunsAreAuthorised(config: RolesConfig, h: seq<Request>, r: Request)
    requires FreshTokens(h) && OutcomeOf(config, h, r).Runs?
    ensures var role, required := OutcomeOf(config, h, r).role, if r.action.minRole == None then Admin else r.action.minRole.value;
            && RoleFrom(r.actor, config, role)
            && (required == Admin ==> role == Admin)
            && (required == Deployer ==> role == Admin || role == Deployer)
            && (required == Operator ==> role != Viewer)
    ensures r.action.destructiveness != Some(ReadOnly) ==>
      && r.header.Some? && r.header.value != "" && Uses(config, h, r, r.header.value)
      && var issue := IssueOf(config, h, r.header.value);
      && issue.Some? && issue.value.actionKey == r.actionKey
      && r.now - issue.value.now <= 60_000
      && UseCount(config, h, r.header.value) == 0
  {
    RoleIsFrom(r.actor, config);
    if Severity(r.action) != ReadOnly { RunTracks(config, h, r.header.value); }
  }

  /** Over a whole run a token pays for one handler run at most. */
  lemma OneRunPerToken(config: RolesConfig, h: seq<Request>, token: string)
    requires FreshTokens(h)
    ensures UseCount(config, h, token) <= 1
  {
    RunTracks(config, h, token);
  }

  // ---------------------------------------------------------------- counting

  function IssueCount(config: RolesConfig, h: seq<Request>, key: string): nat {
    if h == [] then 0
    else
      var init, last := h[..|h| - 1], h[|h| - 1];
      IssueCount(config, init, key)
      + if last.actionKey == key && OutcomeOf(config, init, last).Confirm? then 1 else 0
  }

  /** Runs of an action key that had to be confirmed. */
  function GatedRuns(config: RolesConfig, h: seq<Request>, key: string): nat {
    if h == [] then 0
    else
      var init, last := h[..|h| - 1], h[|h| - 1];
      var o := OutcomeOf(config, init, last);
      GatedRuns(config, init, key) + if last.actionKey == key && o.Runs? && o.paidWith.Some? then 1 else 0
  }

  function Outstanding(store: Store, key: string): set<string> {
    set t | t in store && store[t].actionKey == key
  }

  /** Runs of confirmed actions never outnumber the confirmations issued for their key. */
  lemma {:induction false} RunsNeverOutnumberIssues(config: RolesConfig, h: seq<Request>, key: string)
    requires FreshTokens(h)
    ensures GatedRuns(config, h, key) + |Outstanding(StoreAfter(config, h), key)| <= IssueCount(config, h, key)
  {
    if h != [] {
      var init, last := h[..|h| - 1], h[|h| - 1];
      RunsNeverOutnumberIssues(config, init, key);
      var store, after := StoreAfter(config, init), StoreAfter(config, h);
      if OutcomeOf(config, init, last).Confirm? {
        RunTracks(config, init, last.drawn);
        assert last.drawn !in store by {
          assert forall i :: 0 <= i < |init| ==> init[i] == h[i] && init[i].drawn != last.drawn;
        }
        OutstandingAfterIssue(store, last.drawn, after[last.drawn], key);
      } else if Presents(last) && Severity(last.action) != ReadOnly {
        OutstandingAfterConsume(store, last.header.value, key);
      }
    }
  }

  lemma OutstandingAfterIssue(store: Store, token: string, e: ContribToken, key: string)
    requires token !in store
    ensures |Outstanding(store[token := e], key)| == |Outstanding(store, key)| + if e.actionKey == key then 1 else 0
  {
    var s := Outstanding(store, key);
    assert Outstanding(store[token := e], key) == if e.actionKey == key then s + {token} else s;
  }

  lemma OutstandingAfterConsume(store: Store, token: string, key: string)
    ensures |Outstanding(store - {token}, key)|
            == |Outstanding(store, key)| - if token in store && store[token].actionKey == key then 1 else 0
  {
    var s := Outstanding(store, key);
    assert Outstanding(store - {token}, key) == s - {token};
  }
}
