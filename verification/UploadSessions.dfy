/**
 The session registry of resumable uploads: a token is bound to the first server and target it is
 used for, until it is retired or expires.
 */
module UploadSessions {
  import opened Common

  datatype ServerId = ServerId(uuid: TokenId)
  datatype TokenId = TokenId(text: string)
  datatype Target = Target(path: string)

  datatype Session = Session(serverId: ServerId, target: Target, expires: int, consumed: bool)

  /** `expires` is None when the token carries no expiry; `unique` whether its id is unseen. */
  datatype Token = Token(id: TokenId, expires: Option<int>)

  /** What happened so far, for tokens that got through. */
  datatype Event =
    | Bound(token: TokenId, serverId: ServerId, target: Target, at: int)
    | Retired(token: TokenId, at: int)

  function CountOf(byServer: map<ServerId, int>, server: ServerId): int {
    if server in byServer then byServer[server] else 0
  }

  function SessionsOf(sessions: map<TokenId, Session>, server: ServerId): set<TokenId> {
    set id | id in sessions && sessions[id].serverId == server
  }

  ghost predicate CountAt(sessions: map<TokenId, Session>, byServer: map<ServerId, int>, server: ServerId) {
    CountOf(byServer, server) == |SessionsOf(sessions, server)| && (server in byServer ==> byServer[server] > 0)
  }

  /** The per-server counts are the numbers of sessions, and no zero entry is kept. */
  ghost predicate CountsExact(sessions: map<TokenId, Session>, byServer: map<ServerId, int>) {
    forall server {:trigger CountAt(sessions, byServer, server)} :: CountAt(sessions, byServer, server)
  }

  /** The earliest expiry, and None exactly when there is no session. */
  ghost predicate ExactMinimum(sessions: map<TokenId, Session>, next: Option<int>) {
    if next.None? then sessions == map[]
    else
      && (forall id :: id in sessions ==> next.value <= sessions[id].expires)
      && (exists id :: id in sessions && sessions[id].expires == next.value)
  }

  /** The sessions that have not expired. */
  function Live(sessions: map<TokenId, Session>, now: int): map<TokenId, Session> {
    map id | id in sessions && now < sessions[id].expires :: sessions[id]
  }

  lemma AddSize(sessions: map<TokenId, Session>, id: TokenId, s: Session, server: ServerId)
    requires id !in sessions
    ensures |SessionsOf(sessions[id := s], server)|
         == |SessionsOf(sessions, server)| + if server == s.serverId then 1 else 0
  {
    var after := sessions[id := s];
    if server == s.serverId {
      assert SessionsOf(after, server) == SessionsOf(sessions, server) + {id};
    } else {
      assert SessionsOf(after, server) == SessionsOf(sessions, server);
    }
  }

  lemma AddCounts(sessions: map<TokenId, Session>, byServer: map<ServerId, int>, id: TokenId, s: Session)
    requires CountsExact(sessions, byServer) && id !in sessions
    ensures CountsExact(sessions[id := s], byServer[s.serverId := CountOf(byServer, s.serverId) + 1])
  {
    var after, counts := sessions[id := s], byServer[s.serverId := CountOf(byServer, s.serverId) + 1];
    forall server ensures CountAt(after, counts, server) {
      assert CountAt(sessions, byServer, server);
      AddSize(sessions, id, s, server);
    }
  }

  function Decrement(byServer: map<ServerId, int>, server: ServerId): map<ServerId, int> {
    var n := CountOf(byServer, server) - 1;
    if n == 0 then byServer - {server} else byServer[server := n]
  }

  lemma RemoveCounts(sessions: map<TokenId, Session>, byServer: map<ServerId, int>, id: TokenId)
    requires CountsExact(sessions, byServer) && id in sessions
    ensures CountsExact(sessions - {id}, Decrement(byServer, sessions[id].serverId))
  {
    var after, s := sessions - {id}, sessions[id];
    var counts := Decrement(byServer, s.serverId);
    assert after[id := s] == sessions;
    forall server ensures CountAt(after, counts, server) {
      assert CountAt(sessions, byServer, server);
      AddSize(after, id, s, server);
    }
  }

  /** The earliest expiry among the sessions already visited. */
  ghost predicate MinimumOutside(sessions: map<TokenId, Session>, todo: set<TokenId>, next: Option<int>) {
    if next.None? then sessions.Keys <= todo
    else
      && (forall id :: id in sessions && id !in todo ==> next.value <= sessions[id].expires)
      && (exists id :: id in sessions && id !in todo && sessions[id].expires == next.value)
  }

  /** A visited session goes, or its expiry counts. */
  lemma VisitOne(sessions: map<TokenId, Session>, todo: set<TokenId>, id: TokenId, next: Option<int>)
    requires MinimumOutside(sessions, todo, next) && id in todo && id in sessions
    ensures MinimumOutside(sessions - {id}, todo - {id}, next)
    ensures var e := sessions[id].expires;
      MinimumOutside(sessions, todo - {id}, if next.None? || e < next.value then Some(e) else next)
  {
    var e := sessions[id].expires;
    assert id !in todo - {id};
    if next.Some? {
      var m :| m in sessions && m !in todo && sessions[m].expires == next.value;
      assert m in sessions - {id} && m !in todo - {id};
    }
  }

  /** A past event is still what the registry says, or its session has expired and is gone. `spent`
      are the tokens that ever got a session, `clock` is the latest time seen. */
  ghost predicate Remembered(e: Event, sessions: map<TokenId, Session>, spent: set<TokenId>,
                             issued: TokenId -> int, clock: int)
  {
    && e.at <= clock && e.token in spent
    && (e.Bound? ==> e.at < issued(e.token))
    && if e.token !in sessions then clock >= issued(e.token)
       else
         match e
         case Bound(token, server, target, _) =>
           sessions[token].serverId == server && (sessions[token].consumed || sessions[token].target == target)
         case Retired(token, _) => sessions[token].consumed
  }

  ghost predicate Remembers(history: seq<Event>, sessions: map<TokenId, Session>, spent: set<TokenId>,
                            issued: TokenId -> int, clock: int)
  {
    && sessions.Keys <= spent
    && forall k :: 0 <= k < |history| ==> Remembered(history[k], sessions, spent, issued, clock)
  }

  /** No token was ever bound to two places, and none was bound after it was retired. */
  ghost predicate Consistent(history: seq<Event>) {
    forall j, k :: 0 <= j < k < |history| && history[j].token == history[k].token && history[k].Bound? ==>
      history[j].Bound? && history[j].serverId == history[k].serverId && history[j].target == history[k].target
  }

  /** Nothing can be bound to the token any more: it was retired, or its session expired. */
  ghost predicate IsClosed(id: TokenId, sessions: map<TokenId, Session>, spent: set<TokenId>,
                           issued: TokenId -> int, clock: int)
  {
    id in spent && if id in sessions then sessions[id].consumed else clock >= issued(id)
  }

  lemma PruneKeepsClosed(id: TokenId, sessions: map<TokenId, Session>, spent: set<TokenId>,
                         issued: TokenId -> int, clock: int, now: int)
    requires forall id :: id in sessions ==> sessions[id].expires == issued(id)
    requires IsClosed(id, sessions, spent, issued, clock)
    ensures IsClosed(id, Live(sessions, now), spent, issued, Later(clock, now))
  {
  }

  function Later(clock: int, now: int): int {
    if clock < now then now else clock
  }

  /** With the expired sessions gone, every past event is still accounted for. */
  lemma PruneRemembers(history: seq<Event>, sessions: map<TokenId, Session>, spent: set<TokenId>,
                       issued: TokenId -> int, clock: int, now: int)
    requires Remembers(history, sessions, spent, issued, clock)
    requires forall id :: id in sessions ==> sessions[id].expires == issued(id)
    ensures Remembers(history, Live(sessions, now), spent, issued, Later(clock, now))
  {
    forall k | 0 <= k < |history|
      ensures Remembered(history[k], Live(sessions, now), spent, issued, Later(clock, now))
    {
      assert Remembered(history[k], sessions, spent, issued, clock);
    }
  }

  ghost predicate WithinLimits(sessions: map<TokenId, Session>, byServer: map<ServerId, int>, global: nat,
                               perServer: nat)
  {
    |sessions| <= global && forall server :: CountOf(byServer, server) <= perServer
  }

  lemma PruneKeepsLimits(before: map<TokenId, Session>, after: map<TokenId, Session>,
                         counts: map<ServerId, int>, counts': map<ServerId, int>, global: nat, perServer: nat)
    requires after.Keys <= before.Keys && forall id :: id in after ==> after[id] == before[id]
    requires CountsExact(before, counts) && CountsExact(after, counts')
    requires WithinLimits(before, counts, global, perServer)
    ensures WithinLimits(after, counts', global, perServer)
  {
    SubsetCard(after.Keys, before.Keys);
    forall server ensures CountOf(counts', server) <= perServer {
      assert CountAt(before, counts, server) && CountAt(after, counts', server);
      SubsetCard(SessionsOf(after, server), SessionsOf(before, server));
    }
  }

  /** A bind that agrees with the live session of its token, or is the first of its token, agrees
      with all earlier ones. */
  lemma BindConsistent(history: seq<Event>, sessions: map<TokenId, Session>, spent: set<TokenId>,
                       issued: TokenId -> int, clock: int, e: Event)
    requires Remembers(history, sessions, spent, issued, clock) && Consistent(history) && e.Bound?
    requires if e.token in sessions then
        !sessions[e.token].consumed && sessions[e.token].serverId == e.serverId && sessions[e.token].target == e.target
      else e.token !in spent || clock < issued(e.token)
    ensures Consistent(history + [e])
    ensures e.token !in sessions ==> forall k :: 0 <= k < |history| ==> history[k].token != e.token
  {
    forall k | 0 <= k < |history| && history[k].token == e.token
      ensures e.token in sessions && history[k].Bound?
      ensures history[k].serverId == e.serverId && history[k].target == e.target
    {
      assert Remembered(history[k], sessions, spent, issued, clock);
    }
  }

  lemma AddKeepsLimits(sessions: map<TokenId, Session>, byServer: map<ServerId, int>, id: TokenId, s: Session,
                       global: nat, perServer: nat)
    requires WithinLimits(sessions, byServer, global, perServer) && id !in sessions
    requires |sessions| < global && CountOf(byServer, s.serverId) < perServer
    ensures var counts := byServer[s.serverId := CountOf(byServer, s.serverId) + 1];
      WithinLimits(sessions[id := s], counts, global, perServer)
  {
    var after, counts := sessions[id := s], byServer[s.serverId := CountOf(byServer, s.serverId) + 1];
    assert after.Keys == sessions.Keys + {id};
    assert |after| == |after.Keys| && |sessions| == |sessions.Keys|;
    forall server ensures CountOf(counts, server) <= perServer {
      assert CountOf(byServer, server) <= perServer;
    }
  }

  lemma AppendRemembers(history: seq<Event>, before: map<TokenId, Session>, after: map<TokenId, Session>,
                        spent: set<TokenId>, more: set<TokenId>, issued: TokenId -> int, clock: int, e: Event)
    requires Remembers(history, before, spent, issued, clock) && spent <= more && after.Keys <= more
    requires Remembered(e, after, more, issued, clock)
    requires forall id :: id in before ==> id in after && after[id] == before[id]
    requires forall id :: id in after && id !in before ==> forall k :: 0 <= k < |history| ==> history[k].token != id
    ensures Remembers(history + [e], after, more, issued, clock)
  {
    forall k | 0 <= k < |history + [e]| ensures Remembered((history + [e])[k], after, more, issued, clock) {
      if k < |history| {
        assert Remembered(history[k], before, spent, issued, clock);
      }
    }
  }

  /** What a successful bind leaves behind. */
  lemma BoundRemembers(history: seq<Event>, live: map<TokenId, Session>, spent: set<TokenId>,
                       issued: TokenId -> int, clock: int, e: Event)
    requires Remembers(history, live, spent, issued, clock) && Consistent(history)
    requires e.Bound? && e.at < issued(e.token) && e.at <= clock
    requires if e.token in live then
        !live[e.token].consumed && live[e.token].serverId == e.serverId && live[e.token].target == e.target
      else e.token !in spent || clock < issued(e.token)
    requires e.token in live ==> live[e.token].expires == issued(e.token)
    ensures var after := live[e.token := Session(e.serverId, e.target, issued(e.token), false)];
      Remembers(history + [e], after, spent + {e.token}, issued, clock) && Consistent(history + [e])
  {
    var after := live[e.token := Session(e.serverId, e.target, issued(e.token), false)];
    BindConsistent(history, live, spent, issued, clock, e);
    AppendRemembers(history, live, after, spent, spent + {e.token}, issued, clock, e);
  }

  lemma RetireRemembers(history: seq<Event>, sessions: map<TokenId, Session>, spent: set<TokenId>,
                        issued: TokenId -> int, clock: int, id: TokenId, ended: Session, e: Event)
    requires Remembers(history, sessions, spent, issued, clock) && id in sessions
    requires ended.serverId == sessions[id].serverId && ended.consumed && e == Retired(id, clock)
    ensures Remembers(history + [e], sessions[id := ended], spent, issued, clock)
    ensures Consistent(history) ==> Consistent(history + [e])
  {
    var after := sessions[id := ended];
    forall k | 0 <= k < |history + [e]| ensures Remembered((history + [e])[k], after, spent, issued, clock) {
      if k < |history| {
        assert Remembered(history[k], sessions, spent, issued, clock);
      }
    }
  }

  lemma RetireKeeps(sessions: map<TokenId, Session>, byServer: map<ServerId, int>, next: Option<int>, id: TokenId,
                    s: Session)
    requires id in sessions && s.serverId == sessions[id].serverId && s.expires == sessions[id].expires
    requires CountsExact(sessions, byServer) && ExactMinimum(sessions, next)
    ensures CountsExact(sessions[id := s], byServer) && ExactMinimum(sessions[id := s], next)
    ensures |sessions[id := s]| == |sessions|
  {
    var after := sessions[id := s];
    assert after.Keys == sessions.Keys;
    forall server ensures CountAt(after, byServer, server) {
      assert CountAt(sessions, byServer, server);
      assert SessionsOf(after, server) == SessionsOf(sessions, server);
    }
    if next.Some? {
      var m :| m in sessions && sessions[m].expires == next.value;
      assert m in after && after[m].expires == next.value;
    }
  }

  class Registry {
    const globalLimit: nat
    const perServerLimit: nat
    /** The expiry each token is issued with; it never changes. */
    ghost const issued: TokenId -> int
    var sessions: map<TokenId, Session>
    var byServer: map<ServerId, int>
    var nextExpiry: Option<int>
    ghost var history: seq<Event>
    ghost var spent: set<TokenId>
    ghost var clock: int

    constructor (globalLimit: nat, perServerLimit: nat, ghost issued: TokenId -> int, ghost clock: int)
      ensures Valid() && sessions == map[] && history == [] && spent == {}
      ensures this.clock == clock && this.issued == issued
      ensures this.globalLimit == globalLimit && this.perServerLimit == perServerLimit
    {
      this.globalLimit, this.perServerLimit, this.issued, this.clock := globalLimit, perServerLimit, issued, clock;
      sessions, byServer, nextExpiry, history, spent := map[], map[], None, [], {};
    }

    /** The counters and the limits, which hold whatever the clock does. */
    ghost predicate Sound()
      reads this
    {
      && ExactMinimum(sessions, nextExpiry)
      && CountsExact(sessions, byServer)
      && WithinLimits(sessions, byServer, globalLimit, perServerLimit)
      && (forall id :: id in sessions ==> sessions[id].expires == issued(id))
    }

    ghost predicate Valid()
      reads this
    {
      Sound() && Remembers(history, sessions, spent, issued, clock) && Consistent(history)
    }

    ghost predicate Closed(id: TokenId)
      reads this
    {
      IsClosed(id, sessions, spent, issued, clock)
    }

    /** The time was not read before one that was used earlier, or the token store does not take a
        token for new that already had a session. */
    ghost predicate InTime(token: Token, unique: bool, now: int)
      reads this
    {
      clock <= now || (unique ==> token.id !in spent)
    }

    /** Deletes every expired session and recomputes the earliest expiry; the map is visited in an
        order nobody chooses. */
    method PruneExpired(now: int)
      requires ExactMinimum(sessions, nextExpiry) && CountsExact(sessions, byServer)
      modifies this`sessions, this`byServer, this`nextExpiry
      ensures ExactMinimum(sessions, nextExpiry) && CountsExact(sessions, byServer)
      ensures sessions == Live(old(sessions), now)
    {
      if nextExpiry.None? || now < nextExpiry.value {
        assert forall id :: id in sessions ==> now < sessions[id].expires;
        return;
      }
      nextExpiry := None;
      var todo := sessions.Keys;
      while todo != {}
        invariant todo <= sessions.Keys <= old(sessions).Keys
        invariant forall id :: id in sessions ==> sessions[id] == old(sessions)[id]
        invariant forall id :: id in old(sessions) && id !in todo ==>
          (id in sessions <==> now < old(sessions)[id].expires)
        invariant CountsExact(sessions, byServer) && MinimumOutside(sessions, todo, nextExpiry)
        decreases |todo|
      {
        var id: TokenId :| id in todo;
        VisitOne(sessions, todo, id, nextExpiry);
        todo := todo - {id};
        var session := sessions[id];
        if now >= session.expires {
          RemoveCounts(sessions, byServer, id);
          sessions := sessions - {id};
          byServer := Decrement(byServer, session.serverId);
        } else if nextExpiry.None? || session.expires < nextExpiry.value {
          nextExpiry := Some(session.expires);
        }
      }
      assert sessions.Keys <= todo ==> sessions == map[];
    }

    /** A live token keeps its target unless it was retired; a new one needs room and a future expiry. */
    ghost predicate Admits(live: map<TokenId, Session>, token: Token, unique: bool, serverId: ServerId,
                           target: Target, now: int)
    {
      if token.id in live then
        !live[token.id].consumed && live[token.id].serverId == serverId && live[token.id].target == target
      else
        && |live| < globalLimit && |SessionsOf(live, serverId)| < perServerLimit
        && token.expires.Some? && now < token.expires.value && unique
    }

    /** Whether a token may be used for a target. `now` is read before the registry is locked. */
    method Bind(token: Token, unique: bool, serverId: ServerId, target: Target, now: int) returns (ok: bool)
      requires Sound()
      requires token.expires.Some? ==> token.expires.value == issued(token.id)
      modifies this
      ensures Sound() && (old(Valid() && InTime(token, unique, now)) ==> Valid())
      ensures clock == Later(old(clock), now) && spent == old(spent) + if ok then {token.id} else {}
      ensures forall id :: id in sessions ==> now < sessions[id].expires
      ensures ok <==> Admits(Live(old(sessions), now), token, unique, serverId, target, now)
      ensures !ok ==> sessions == Live(old(sessions), now)
      ensures history == if ok then old(history) + [Bound(token.id, serverId, target, now)] else old(history)
      ensures ok ==> now < issued(token.id)
      ensures ok ==>
        sessions == Live(old(sessions), now)[token.id := Session(serverId, target, issued(token.id), false)]
      ensures old(Sound() && InTime(token, unique, now) && Closed(token.id)) ==> !ok
      ensures old(Valid() && InTime(token, unique, now)) ==> forall id :: old(Closed(id)) ==> Closed(id)
    {
      ghost var fits := old(Valid() && InTime(token, unique, now));
      Tick(now);
      ghost var live := sessions;
      ok := Admit(token, unique, serverId, target, now);
      if ok {
        if fits {
          BoundRemembers(history, live, spent, issued, clock, Bound(token.id, serverId, target, now));
        }
        history, spent := history + [Bound(token.id, serverId, target, now)], spent + {token.id};
      }
    }

    /** The decision, once the expired sessions are gone. */
    method Admit(token: Token, unique: bool, serverId: ServerId, target: Target, now: int) returns (ok: bool)
      requires Sound() && forall id :: id in sessions ==> now < sessions[id].expires
      requires token.expires.Some? ==> token.expires.value == issued(token.id)
      modifies this`sessions, this`byServer, this`nextExpiry
      ensures Sound()
      ensures ok <==> Admits(old(sessions), token, unique, serverId, target, now)
      ensures sessions == if ok then old(sessions)[token.id := Session(serverId, target, issued(token.id), false)]
                          else old(sessions)
      ensures ok ==> now < issued(token.id)
    {
      if token.id in sessions {
        var session := sessions[token.id];
        ok := !session.consumed && session.serverId == serverId && session.target == target;
        return;
      }
      assert CountAt(sessions, byServer, serverId);
      if |sessions| >= globalLimit || CountOf(byServer, serverId) >= perServerLimit {
        return false;
      }
      if token.expires.None? || now >= token.expires.value || !unique {
        return false;
      }
      AddSession(token.id, Session(serverId, target, token.expires.value, false));
      ok := true;
    }

    /** The expired sessions go. */
    method Tick(now: int)
      requires Sound()
      modifies this`sessions, this`byServer, this`nextExpiry, this`clock
      ensures Sound() && (old(Valid()) ==> Valid())
      ensures clock == Later(old(clock), now) && sessions == Live(old(sessions), now)
      ensures forall id :: old(Closed(id)) ==> Closed(id)
    {
      ghost var before := sessions;
      forall id | Closed(id) ensures IsClosed(id, Live(sessions, now), spent, issued, Later(clock, now)) {
        PruneKeepsClosed(id, sessions, spent, issued, clock, now);
      }
      if Valid() {
        PruneRemembers(history, before, spent, issued, clock, now);
      }
      PruneExpired(now);
      PruneKeepsLimits(before, sessions, old(byServer), byServer, globalLimit, perServerLimit);
      clock := Later(clock, now);
    }

    method AddSession(id: TokenId, session: Session)
      requires id !in sessions && ExactMinimum(sessions, nextExpiry) && CountsExact(sessions, byServer)
      requires WithinLimits(sessions, byServer, globalLimit, perServerLimit)
      requires |sessions| < globalLimit && CountOf(byServer, session.serverId) < perServerLimit
      modifies this`sessions, this`byServer, this`nextExpiry
      ensures sessions == old(sessions)[id := session]
      ensures WithinLimits(sessions, byServer, globalLimit, perServerLimit)
      ensures ExactMinimum(sessions, nextExpiry) && CountsExact(sessions, byServer)
    {
      AddCounts(sessions, byServer, id, session);
      AddKeepsLimits(sessions, byServer, id, session, globalLimit, perServerLimit);
      sessions := sessions[id := session];
      byServer := byServer[session.serverId := CountOf(byServer, session.serverId) + 1];
      if nextExpiry.None? || session.expires < nextExpiry.value {
        nextExpiry := Some(session.expires);
        assert sessions[id].expires == nextExpiry.value;
      } else {
        ghost var m :| m in old(sessions) && old(sessions)[m].expires == nextExpiry.value;
        assert m in sessions && sessions[m].expires == nextExpiry.value;
      }
    }

    ghost predicate WasBound(token: TokenId, serverId: ServerId, target: Target)
      reads this
    {
      exists k :: 0 <= k < |history| && BoundTo(history[k], token, serverId, target)
    }

    /** Ends a session for good: the entry stays so that the token cannot be bound again. */
    method Retire(tokenId: TokenId, serverId: ServerId, target: Target)
      requires Sound()
      modifies this`sessions, this`history
      ensures Sound() && (old(Valid()) ==> Valid())
      ensures var s := old(sessions);
        if tokenId in s && !s[tokenId].consumed && s[tokenId].serverId == serverId && s[tokenId].target == target then
          && sessions == s[tokenId := s[tokenId].(target := Target(""), consumed := true)]
          && history == old(history) + [Retired(tokenId, clock)]
        else sessions == s && history == old(history)
      ensures forall id :: old(Closed(id)) ==> Closed(id)
      ensures old(Valid() && WasBound(tokenId, serverId, target)) ==> Closed(tokenId)
    {
      if Valid() && WasBound(tokenId, serverId, target) {
        ghost var k :| 0 <= k < |history| && BoundTo(history[k], tokenId, serverId, target);
        assert Remembered(history[k], sessions, spent, issued, clock);
      }
      if tokenId in sessions {
        var session := sessions[tokenId];
        if !session.consumed && session.serverId == serverId && session.target == target {
          var ended := session.(target := Target(""), consumed := true);
          RetireKeeps(sessions, byServer, nextExpiry, tokenId, ended);
          if Valid() {
            RetireRemembers(history, sessions, spent, issued, clock, tokenId, ended, Retired(tokenId, clock));
          }
          sessions := sessions[tokenId := ended];
          history := history + [Retired(tokenId, clock)];
        }
      }
    }
  }

  ghost predicate BoundTo(e: Event, token: TokenId, serverId: ServerId, target: Target) {
    e.Bound? && e.token == token && e.serverId == serverId && e.target == target
  }

  /** A token that the registry does not know and has room for. */
  method BindNew(registry: Registry, token: Token, serverId: ServerId, target: Target, now: int) returns (ok: bool)
    requires registry.Sound() && token.expires == Some(registry.issued(token.id)) && now < token.expires.value
    requires var live := Live(registry.sessions, now);
      token.id !in live && |live| < registry.globalLimit && |live| < registry.perServerLimit
    modifies registry
    ensures ok && registry.Sound()
    ensures registry.sessions ==
      Live(old(registry.sessions), now)[token.id := Session(serverId, target, token.expires.value, false)]
    ensures registry.history == old(registry.history) + [Bound(token.id, serverId, target, now)]
  {
    ghost var live := Live(registry.sessions, now);
    SubsetCard(SessionsOf(live, serverId), live.Keys);
    assert |live.Keys| == |live|;
    ok := registry.Bind(token, true, serverId, target, now);
  }

  /** Outside those conditions one token does serve two targets: its session is pruned by a later
      request, and a request that read its time before the expiry is let in as new. */
  method StaleRebind() returns (first: bool, second: bool, third: bool, ghost history: seq<Event>)
    ensures first && second && third && !Consistent(history)
  {
    var late, other := Token(TokenId("late"), Some(10)), Token(TokenId("other"), Some(20));
    var server := ServerId(TokenId("server"));
    var registry := new Registry(2, 2, id => if id == TokenId("late") then 10 else 20, 0);
    first := BindNew(registry, late, server, Target("a"), 5);
    assert Live(registry.sessions, 10) == map[];
    second := BindNew(registry, other, server, Target("c"), 10);
    ghost var left := map[other.id := Session(server, Target("c"), 20, false)];
    assert Live(registry.sessions, 9) == left;
    third := BindNew(registry, late, server, Target("b"), 9);
    history := registry.history;
    assert history[0].target == Target("a") && history[2].target == Target("b");
  }
}
