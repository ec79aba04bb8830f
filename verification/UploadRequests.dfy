/**
 Resumable uploads end to end, with requests that overlap: a request binds its token first, works on
 its target when it gets the target's lock, and retires the token when the upload is complete. Other
 requests take their steps in between.
 */
module UploadRequests {
  import opened Common
  import Sessions = UploadSessions
  import Append = UploadAppend

  /** A request with the time it read and what the token store would say about its token. */
  datatype Arrival = Arrival(
    token: Sessions.Token, unique: bool, serverId: Sessions.ServerId, target: Sessions.Target,
    request: Append.Request, now: int)

  /** How far a request has come. `retired` is whether a completed upload has retired its token. */
  datatype Phase = Fresh | Held(bound: bool) | Answered(reply: Append.Reply, retired: bool)

  predicate WellFormed(a: Arrival) {
    a.request.offset >= 0 && (a.request.uploadLength.Some? ==> 0 <= a.request.uploadLength.value)
  }

  class Uploads {
    const registry: Sessions.Registry
    const arrivals: seq<Arrival>
    const targets: seq<Append.Target>
    const maxSize: int64
    var phases: seq<Phase>
    /** Where in the registry's history each bind is, and how long it was at each completion. */
    ghost var boundAt: seq<nat>
    ghost var completedAt: seq<nat>

    constructor (registry: Sessions.Registry, arrivals: seq<Arrival>, targets: seq<Append.Target>, maxSize: int64)
      requires registry.Valid() && |targets| == |arrivals| && 0 < maxSize as int < MAX_INT64
      requires forall k :: 0 <= k < |arrivals| ==> Acceptable(registry, arrivals[k])
      requires forall k :: 0 <= k < |targets| ==> |targets[k].contents| <= MAX_INT64
      ensures Valid() && this.registry == registry && this.arrivals == arrivals && this.targets == targets
      ensures this.maxSize == maxSize && forall k :: 0 <= k < |arrivals| ==> phases[k] == Fresh
    {
      this.registry, this.arrivals, this.targets, this.maxSize := registry, arrivals, targets, maxSize;
      phases := seq(|arrivals|, _ => Fresh);
      boundAt, completedAt := seq(|arrivals|, _ => 0), seq(|arrivals|, _ => 0);
    }

    ghost predicate Bound(k: nat)
      requires k < |phases|
      reads this`phases
    {
      (phases[k].Held? && phases[k].bound) || Succeeded(k)
    }

    ghost predicate Succeeded(k: nat)
      requires k < |phases|
      reads this`phases
    {
      phases[k].Answered? && phases[k].reply.Done?
    }

    ghost predicate Completed(k: nat)
      requires k < |phases|
      reads this`phases
    {
      Succeeded(k) && phases[k].retired
    }

    /** A bound request has its event in the registry's history. */
    ghost predicate Marked(k: nat)
      requires k < |phases| == |arrivals| == |boundAt|
      reads this, registry
    {
      Bound(k) ==>
        var a := arrivals[k];
        && boundAt[k] < |registry.history|
        && Sessions.BoundTo(registry.history[boundAt[k]], a.token.id, a.serverId, a.target)
    }

    /** A completed upload has closed its token. */
    ghost predicate Finished(k: nat)
      requires k < |phases| == |arrivals| == |completedAt|
      reads this, registry
    {
      Completed(k) ==>
        arrivals[k].request.complete && registry.Closed(arrivals[k].token.id) && completedAt[k] <= |registry.history|
    }

    /** Whoever succeeds with the token of a completed upload was bound before it completed. */
    ghost predicate InTurn(j: nat, k: nat)
      requires j < |phases| && k < |phases| == |arrivals| == |boundAt| == |completedAt|
      reads this
    {
      Bound(j) && Completed(k) && arrivals[j].token.id == arrivals[k].token.id ==> boundAt[j] < completedAt[k]
    }

    ghost predicate Valid()
      reads this, registry, targets
    {
      && registry.Valid() && 0 < maxSize as int < MAX_INT64
      && |phases| == |arrivals| == |targets| == |boundAt| == |completedAt|
      && (forall k :: 0 <= k < |arrivals| ==> Acceptable(registry, arrivals[k]))
      && (forall k :: 0 <= k < |targets| ==> |targets[k].contents| <= MAX_INT64)
      && (forall k :: 0 <= k < |phases| ==> Marked(k))
      && (forall k :: 0 <= k < |phases| ==> Finished(k))
      && (forall j, k :: 0 <= j < |phases| && 0 <= k < |phases| ==> InTurn(j, k))
    }

    predicate TooLong(k: nat)
      requires k < |arrivals|
    {
      arrivals[k].request.uploadLength.Some? && arrivals[k].request.uploadLength.value > maxSize
    }

    /** Whether the registry lets the request in, and the sessions it then has. */
    ghost predicate Admitted(k: nat)
      requires k < |arrivals|
      reads registry
    {
      var a := arrivals[k];
      registry.Admits(Sessions.Live(registry.sessions, a.now), a.token, a.unique, a.serverId, a.target, a.now)
    }

    ghost function SessionsWith(k: nat): map<Sessions.TokenId, Sessions.Session>
      requires k < |arrivals|
      reads registry
    {
      var a := arrivals[k];
      var session := Sessions.Session(a.serverId, a.target, registry.issued(a.token.id), false);
      Sessions.Live(registry.sessions, a.now)[a.token.id := session]
    }

    /** The first step: the session registry decides. */
    method BindStep(k: nat)
      requires Valid() && k < |arrivals| && phases[k] == Fresh
      requires registry.InTime(arrivals[k].token, arrivals[k].unique, arrivals[k].now)
      modifies this, registry
      ensures Valid()
      ensures forall i :: 0 <= i < |phases| && i != k ==> phases[i] == old(phases[i])
      ensures registry.clock in {old(registry.clock), Sessions.Later(old(registry.clock), arrivals[k].now)}
      ensures registry.spent <= old(registry.spent) + if arrivals[k].unique then {arrivals[k].token.id} else {}
      ensures if TooLong(k) then phases[k] == Answered(Append.TooLarge, false) && unchanged(registry)
        else phases[k] == Held(old(Admitted(k)))
      ensures !TooLong(k) && old(Admitted(k)) ==> registry.sessions == old(SessionsWith(k))
    {
      var a := arrivals[k];
      if TooLong(k) {
        phases := phases[k := Answered(Append.TooLarge, false)];
        KeepAll(k);
        return;
      }
      ghost var n := |registry.history|;
      var bound := registry.Bind(a.token, a.unique, a.serverId, a.target, a.now);
      phases := phases[k := Held(bound)];
      boundAt := boundAt[k := n];
      KeepAll(k);
    }

    /** What a step of request `k` leaves true of the others, and of itself if it says so. */
    twostate lemma KeepAll(k: nat)
      requires old(Valid()) && k < |arrivals|
      requires |phases| == |old(phases)| && |boundAt| == |old(boundAt)| && |completedAt| == |old(completedAt)|
      requires forall i :: 0 <= i < |phases| && i != k ==>
        phases[i] == old(phases[i]) && boundAt[i] == old(boundAt[i]) && completedAt[i] == old(completedAt[i])
      requires old(registry.history) <= registry.history
      requires forall id :: old(registry.Closed(id)) ==> registry.Closed(id)
      requires Marked(k) && Finished(k)
      requires Completed(k) ==> completedAt[k] == |registry.history|
      requires Bound(k) && !old(Bound(k)) ==> !old(registry.Closed(arrivals[k].token.id))
      requires Bound(k) && old(Bound(k)) ==> boundAt[k] == old(boundAt[k])
      ensures forall i :: 0 <= i < |phases| ==> Marked(i)
      ensures forall i :: 0 <= i < |phases| ==> Finished(i)
      ensures forall i, j :: 0 <= i < |phases| && 0 <= j < |phases| ==> InTurn(i, j)
    {
      forall i | 0 <= i < |phases| ensures Marked(i) && Finished(i) {
        assert old(Marked(i)) && old(Finished(i));
      }
      forall i, j | 0 <= i < |phases| && 0 <= j < |phases| ensures InTurn(i, j) {
        assert old(InTurn(i, j)) && old(Finished(j)) && Marked(i);
      }
    }

    /** The second step, under the target's lock: the append. */
    method AppendStep(k: nat)
      requires Valid() && k < |arrivals| && phases[k].Held?
      modifies this, targets[k]
      ensures Valid() && targets[k].regular == old(targets[k].regular)
      ensures forall i :: 0 <= i < |phases| && i != k ==> phases[i] == old(phases[i])
      ensures phases[k].Answered? && !phases[k].retired
      ensures Succeeded(k) ==>
        old(Bound(k)) && targets[k].contents == old(targets[k].contents) + arrivals[k].request.body
      ensures arrivals[k].request.outside.Calm() ==>
        phases[k].reply == Append.Verdict(Gated(k, old(phases[k].bound)), targets[k].regular,
                                          |old(targets[k].contents)|, maxSize as int)
    {
      var reply, reported, fault := targets[k].Patch(Gated(k, phases[k].bound), maxSize);
      phases := phases[k := Answered(reply, false)];
      KeepAll(k);
    }

    /** The request with what the registry said about its token. */
    function Gated(k: nat, bound: bool): Append.Request
      requires k < |arrivals|
    {
      arrivals[k].request.(gates := arrivals[k].request.gates.(bound := bound))
    }

    /** The last step of a completed upload. */
    method RetireStep(k: nat)
      requires Valid() && k < |arrivals| && Succeeded(k) && !phases[k].retired && arrivals[k].request.complete
      modifies this, registry
      ensures Valid() && Completed(k)
      ensures forall i :: 0 <= i < |phases| && i != k ==> phases[i] == old(phases[i])
      ensures registry.clock == old(registry.clock) && registry.spent == old(registry.spent)
    {
      var a := arrivals[k];
      assert Marked(k);
      registry.Retire(a.token.id, a.serverId, a.target);
      phases := phases[k := Answered(Append.Done, true)];
      completedAt := completedAt[k := |registry.history|];
      KeepAll(k);
    }

    /** All that succeed with one token are for one server and one target. */
    ghost predicate OneHome(j: nat, k: nat)
      requires j < |phases| && k < |phases| == |arrivals|
      reads this
    {
      Succeeded(j) && Succeeded(k) && arrivals[j].token.id == arrivals[k].token.id ==>
        arrivals[j].serverId == arrivals[k].serverId && arrivals[j].target == arrivals[k].target
    }

    lemma AllAtHome(j: nat, k: nat)
      requires Valid() && j < |phases| && k < |phases|
      ensures OneHome(j, k)
    {
      assert Marked(j) && Marked(k);
    }

    /** No event of the token after its retirement is a bind, so a success was bound before it. */
    lemma BoundBeforeRetired(k: nat, r: nat)
      requires Valid() && k < |phases| && Succeeded(k) && r < |registry.history|
      requires registry.history[r].Retired? && registry.history[r].token == arrivals[k].token.id
      ensures boundAt[k] < r
    {
      assert Marked(k);
    }
  }

  /** A request as the registry can take it. */
  ghost predicate Acceptable(registry: Sessions.Registry, a: Arrival) {
    WellFormed(a) && (a.token.expires.Some? ==> a.token.expires.value == registry.issued(a.token.id))
  }

  // ----------------------------------------------------------------- whole runs

  datatype Move = Bind(k: nat) | Work(k: nat) | Retire(k: nat)

  /** The times of the binds still to come do not go back. */
  ghost predicate Ordered(u: Uploads, moves: seq<Move>, from: nat)
    reads u.registry
  {
    && (forall i :: from <= i < |moves| ==> moves[i].k < |u.arrivals|)
    && (forall i :: from <= i < |moves| && moves[i].Bind? ==> u.registry.clock <= u.arrivals[moves[i].k].now)
    && (forall i, j :: from <= i < j < |moves| && moves[i].Bind? && moves[j].Bind? ==>
          u.arrivals[moves[i].k].now <= u.arrivals[moves[j].k].now)
  }

  /** The token store takes no token for new twice. */
  ghost predicate Once(u: Uploads)
    reads u, u.registry
  {
    && |u.phases| == |u.arrivals|
    && (forall k :: 0 <= k < |u.arrivals| && u.phases[k].Fresh? && u.arrivals[k].unique ==>
          u.arrivals[k].token.id !in u.registry.spent)
    && (forall j, k :: 0 <= j < k < |u.arrivals| && u.arrivals[j].unique && u.arrivals[k].unique ==>
          u.arrivals[j].token.id != u.arrivals[k].token.id)
  }

  /** A request whose step has come has taken it. */
  ghost predicate Progressed(phases: seq<Phase>, moves: seq<Move>, to: nat)
    requires to <= |moves|
  {
    && (forall i :: 0 <= i < to ==> moves[i].k < |phases|)
    && (forall i :: 0 <= i < to && moves[i].Bind? ==> !phases[moves[i].k].Fresh?)
    && (forall i, j :: 0 <= i < j < to && moves[i].Bind? && moves[j] == Work(moves[i].k) ==>
          phases[moves[i].k].Answered?)
  }

  function Stage(p: Phase): nat {
    match p
    case Fresh => 0
    case Held(_) => 1
    case Answered(_, _) => 2
  }

  lemma ProgressStep(before: seq<Phase>, after: seq<Phase>, moves: seq<Move>, i: nat)
    requires i < |moves| && |before| == |after| && moves[i].k < |before| && Progressed(before, moves, i)
    requires forall k :: 0 <= k < |before| && k != moves[i].k ==> after[k] == before[k]
    requires Stage(after[moves[i].k]) >= Stage(before[moves[i].k])
    requires moves[i].Bind? ==> !after[moves[i].k].Fresh?
    requires moves[i].Work? && !before[moves[i].k].Fresh? ==> after[moves[i].k].Answered?
    ensures Progressed(after, moves, i + 1)
  {
  }

  /**
   Every interleaving of any requests over any targets, as long as times are used in order or the
   token store takes no token for new twice. All requests that succeed with one token are for one
   server and one target. A request can succeed after another one has completed the upload, but only
   if it was bound before that.
   */
  method Run(u: Uploads, moves: seq<Move>)
    requires u.Valid() && forall k :: 0 <= k < |u.phases| ==> u.phases[k].Fresh?
    requires forall i :: 0 <= i < |moves| ==> moves[i].k < |u.arrivals|
    requires Ordered(u, moves, 0) || Once(u)
    modifies u, u.registry, u.targets
    ensures u.Valid() && Progressed(u.phases, moves, |moves|)
    ensures forall j, k :: 0 <= j < |u.phases| && 0 <= k < |u.phases| ==> u.OneHome(j, k) && u.InTurn(j, k)
  {
    ghost var ordered := Ordered(u, moves, 0);
    for i := 0 to |moves|
      invariant u.Valid() && Progressed(u.phases, moves, i)
      invariant if ordered then Ordered(u, moves, i) else Once(u)
    {
      Take(u, moves, i, ordered);
    }
    forall j, k | 0 <= j < |u.phases| && 0 <= k < |u.phases| ensures u.OneHome(j, k) {
      u.AllAtHome(j, k);
    }
  }

  /** One move, if the request is ready for it. */
  method Take(u: Uploads, moves: seq<Move>, i: nat, ghost ordered: bool)
    requires u.Valid() && i < |moves| && moves[i].k < |u.arrivals| && Progressed(u.phases, moves, i)
    requires if ordered then Ordered(u, moves, i) else Once(u)
    modifies u, u.registry, u.targets
    ensures u.Valid() && Progressed(u.phases, moves, i + 1)
    ensures if ordered then Ordered(u, moves, i + 1) else Once(u)
  {
    var k := moves[i].k;
    ghost var before := u.phases;
    if moves[i].Bind? && u.phases[k].Fresh? {
      u.BindStep(k);
    } else if moves[i].Work? && u.phases[k].Held? {
      u.AppendStep(k);
    } else if moves[i].Retire? && u.phases[k].Answered? && u.phases[k].reply.Done? && !u.phases[k].retired {
      if u.arrivals[k].request.complete {
        u.RetireStep(k);
      }
    }
    ProgressStep(before, u.phases, moves, i);
  }

  /** Two requests with one token: the second one appends after the first one has completed. */
  function Overlapping(): seq<Arrival> {
    var token := Sessions.Token(Sessions.TokenId("token"), Some(10));
    var server, target := Sessions.ServerId(Sessions.TokenId("server")), Sessions.Target("file");
    var gates, calm := Append.Gates(false, true, true), Append.Outside(true, true, None, 0, true, true);
    [Arrival(token, true, server, target, Append.Request(gates, 0, None, true, -1, [7], calm), 1),
     Arrival(token, false, server, target, Append.Request(gates, 1, None, false, -1, [8], calm), 1)]
  }

  /** Two requests that agree, on a registry that does not know their token yet. */
  method BindTwice(u: Uploads)
    requires u.Valid() && |u.arrivals| == 2 && u.phases == [Fresh, Fresh] && !u.TooLong(0) && !u.TooLong(1)
    requires var a, b := u.arrivals[0], u.arrivals[1];
      && a.token == b.token && a.serverId == b.serverId && a.target == b.target && a.unique
      && u.registry.clock <= a.now <= b.now && a.token.expires.Some? && b.now < a.token.expires.value
    requires u.registry.sessions == map[] && u.registry.globalLimit > 0 && u.registry.perServerLimit > 0
    modifies u, u.registry
    ensures u.Valid() && u.phases == [Held(true), Held(true)]
  {
    ghost var none := Sessions.Live(u.registry.sessions, u.arrivals[0].now);
    assert none == map[] && Sessions.SessionsOf(none, u.arrivals[0].serverId) == {};
    u.BindStep(0);
    assert u.arrivals[0].token.id in Sessions.Live(u.registry.sessions, u.arrivals[1].now);
    u.BindStep(1);
  }

  /** An append whose verdict is to be done, with nothing failing outside. */
  method AppendDone(u: Uploads, k: nat)
    requires u.Valid() && k < |u.arrivals| && u.phases[k].Held? && u.arrivals[k].request.outside.Calm()
    requires Append.Verdict(u.Gated(k, u.phases[k].bound), u.targets[k].regular, |u.targets[k].contents|,
                            u.maxSize as int) == Append.Done
    modifies u, u.targets[k]
    ensures u.Valid() && u.phases[k] == Answered(Append.Done, false)
    ensures u.targets[k].regular == old(u.targets[k].regular)
    ensures forall i :: 0 <= i < |u.phases| && i != k ==> u.phases[i] == old(u.phases[i])
    ensures u.targets[k].contents == old(u.targets[k].contents) + u.arrivals[k].request.body
  {
    u.AppendStep(k);
  }

  /** Overlapping requests do succeed after the upload is complete: both are bound, the first one
      appends and retires the token, and the second one still appends. */
  method Overlap() returns (contents: Bytes, ghost boundAt: nat, ghost completedAt: nat)
    ensures contents == [7, 8] && boundAt < completedAt
  {
    var file := new Append.Target([], true);
    var registry := new Sessions.Registry(2, 2, id => 10, 0);
    var u := new Uploads(registry, Overlapping(), [file, file], 100);
    BindTwice(u);
    AppendDone(u, 0);
    u.RetireStep(0);
    AppendDone(u, 1);
    contents, boundAt, completedAt := file.contents, u.boundAt[1], u.completedAt[0];
    assert u.Completed(0) && u.Succeeded(1) && u.InTurn(1, 0);
  }
}
