/**
 Applying a network policy to a running server under the network lock: when rules are opened,
 when "applied" is published and what every failure leaves behind.
 */
module NetworkReconciler {
  import opened Common
  import opened NetworkWorld

  datatype NetError =
    | Cancelled | Conflict | Invalid | Unsupported | LoadFailed | SaveFailed | InspectError
    | NeedsRestart | Mismatch | Backend | Untrusted | KillFailed

  datatype State = Pending | Applied | Failed

  /** What went wrong, in the order in which the status text grows. */
  datatype Problem = Cause(error: NetError) | NotInspected | NotQuarantined(error: NetError)

  datatype Status = Status(state: State, desired: Policy, appliedRevision: nat, problems: seq<Problem>)

  const EMPTY := Policy(0, "", false, Bandwidth(0, 0), "")

  /** How a failed reconcile left the server. */
  datatype Exit =
    | NotStarted                       // refused before the policy was loaded
    | Unprotected                      // nothing to protect: no policy required, container not managed
    | NotRunning                       // the container was seen stopped or absent
    | Quarantined                      // the drop gate reads back, or a kill was accepted
    | Retained(previous: Policy, pair: Pair)
    | Recorded                         // the status says why quarantine was impossible

  class Environment {
    const world: World
    const ceiling: Bandwidth
    var ports: Ports
    var deleted: bool
    var verified: bool
    var status: Status
    var containerId: string
    var applied: Option<Policy>
    /** The interfaces the last published policy was verified on; None for an unmanaged container. */
    ghost var pair: Option<Pair>

    constructor (world: World, ceiling: Bandwidth, ports: Ports)
      requires world.openings == [] && world.shapings == []
      ensures Valid() && this.world == world && this.ceiling == ceiling && this.ports == ports && !deleted
    {
      this.world, this.ceiling, this.ports := world, ceiling, ports;
      deleted, verified, containerId, applied, pair := false, false, "", None, None;
      status := Status(Pending, EMPTY, 0, []);
    }

    /** The kernel enforces `p`: its rules are in place and both directions run at its rates. */
    ghost predicate InForce(p: Policy, on: Pair)
      reads this`ports, world`table, world`shapers
    {
      world.table == OpenRules(p, ports) && Shaped(world.shapers, on, p.Effective(ceiling))
    }

    /** No rules were ever opened before both shapers ran at the rates of the policy they belong to,
        and no shaper was ever touched without the drop gate in place. */
    ghost predicate Orderly()
      reads world`openings, world`shapings
    {
      && (forall k :: 0 <= k < |world.openings| ==>
           Shaped(world.openings[k].shapers, world.openings[k].pair, world.openings[k].policy.Effective(ceiling)))
      && (forall k :: 0 <= k < |world.shapings| ==> world.shapings[k] == Drop)
    }

    /** A published "applied" is true: the policy is in force, or there is none to enforce. */
    ghost predicate Honest()
      reads this, world`table, world`shapers
    {
      status.state == Applied ==>
        if pair.Some? then InForce(status.desired, pair.value) else !status.desired.Required(ceiling)
    }

    /** The server's own records agree with each other, whatever happened to the kernel meanwhile. */
    ghost predicate Consistent()
      reads this, world
    {
      && Orderly()
      && (verified ==> status.desired == world.disk)
      && (status.state == Applied ==> verified)
    }

    ghost predicate Valid()
      reads this, world
    {
      Honest() && Consistent()
    }

    /** Nothing is left to do for `p`: the container was seen stopped, the policy was verified as in
        force, or it asks for nothing and the container is not managed. */
    ghost predicate Settled(p: Policy)
      reads this, world
    {
      || world.observed.Stopped()
      || (verified && status.desired == p && if pair.Some? then InForce(p, pair.value) else !p.Required(ceiling))
      || (!p.Required(ceiling) && world.observed.Found? && !world.observed.c.managed)
    }

    // ------------------------------------------------------------------- status

    function PendingStatus(p: Policy): Status
      reads this
    {
      Status(Pending, p, status.appliedRevision, [])
    }

    method FailStatus(p: Policy, error: NetError)
      modifies this`verified, this`status
      ensures !verified && status == Status(Failed, p, old(status.appliedRevision), [Cause(error)])
    {
      verified := false;
      status := PendingStatus(p).(state := Failed, problems := [Cause(error)]);
    }

    /** Only reached with the policy in force, or with nothing to enforce. */
    method PublishApplied(p: Policy, id: string, ghost on: Option<Pair>)
      requires Orderly() && p == world.disk
      requires if on.Some? then InForce(p, on.value) else !p.Required(ceiling)
      modifies this`containerId, this`applied, this`verified, this`status, this`pair
      ensures Valid() && verified && status.desired == p && pair == on && applied == Some(p) && containerId == id
      ensures status.problems == [] && (status.state == Applied <==> p.revision != 0 && p.hash != "")
      ensures status.state == Applied ==> status.appliedRevision == p.revision
      ensures status.state != Applied ==>
        status.state == Pending && status.appliedRevision == old(status.appliedRevision)
    {
      containerId, applied, verified, pair := id, Some(p), true, on;
      if p.revision == 0 || p.hash == "" {
        status := PendingStatus(p);
      } else {
        status := Status(Applied, p, p.revision, []);
      }
    }

    // ------------------------------------------------------------- verification

    /** Finds the one non-loopback interface and checks it against the one host veth. The links read
        are `hosts` and `insides`, none when they could not be read. */
    method MatchLinks(c: Container)
      returns (pair: Option<Pair>, ghost hosts: Option<seq<Link>>, ghost insides: Option<seq<Link>>)
      ensures pair.Some? ==>
        pair.value.inside.Inside? && pair.value.inside.namespace == c.namespace && pair.value.host.Host?
      ensures pair.Some? <==> hosts.Some? && insides.Some? && exists k :: Matched(hosts.value, insides.value, c, k)
      ensures pair.Some? ==> exists k ::
        Matched(hosts.value, insides.value, c, k) &&
        pair.value == Pair(Inside(c.namespace, insides.value[k].name), Host(hosts.value[0].name))
    {
      var hostLinks, hostOk := world.Links();
      var insideLinks, insideOk := world.Links();
      hosts := if hostOk then Some(hostLinks) else None;
      insides := if insideOk then Some(insideLinks) else None;
      pair := None;
      if !hostOk || !insideOk || |hostLinks| != 1 || c.endpointMac.None? {
        return;
      }
      var inside: Option<Link> := None;
      ghost var at := 0;
      for i := 0 to |insideLinks|
        invariant inside.Some? ==> at < i && insideLinks[at] == inside.value && inside.value.name != "lo"
        invariant forall j :: 0 <= j < i && (inside.Some? ==> j != at) ==>
          insideLinks[j].name == "lo" || (inside.Some? && j < at && insideLinks[j].name == "")
      {
        if insideLinks[i].name != "lo" {
          if inside.Some? && inside.value.name != "" {
            return;
          }
          inside, at := Some(insideLinks[i]), i;
        }
      }
      if inside.None? || inside.value.name == "" || inside.value.peer != hostLinks[0].index
         || hostLinks[0].peer != inside.value.index || inside.value.address != c.endpointMac.value {
        return;
      }
      assert Matched(hostLinks, insideLinks, c, at);
      pair := Some(Pair(Inside(c.namespace, inside.value.name), Host(hostLinks[0].name)));
    }

    /** Reads everything back and changes nothing. Success on a managed container means in force. */
    method VerifyPolicy(p: Policy, c: Container) returns (err: Option<NetError>, ghost on: Option<Pair>)
      ensures err.None? && (c.managed || p.Required(ceiling)) ==>
        c.managed && c.running && on.Some? && InForce(p, on.value)
      ensures err.None? && c.managed ==> c.attachmentSupported && c.bindingsMatch && c.endpointMac.Some?
      ensures err.None? && !c.managed ==> !p.Required(ceiling) && on.None?
    {
      on := None;
      var valid := world.Check();
      if !valid {
        return Some(Invalid), on;
      }
      if !p.Required(ceiling) && !c.managed {
        return None, on;
      }
      if !c.managed {
        return Some(NeedsRestart), on;
      }
      var interrupted := world.Check();
      if interrupted {
        return Some(Cancelled), on;
      }
      var networkOk := world.Check();
      if !networkOk || !c.running || !c.attachmentSupported || !c.bindingsMatch || c.endpointMac.None? {
        return Some(Mismatch), on;
      }
      var runtimeOk := world.Check();
      if !runtimeOk {
        return Some(Mismatch), on;
      }
      var found, _, _ := MatchLinks(c);
      if found.None? {
        return Some(Mismatch), on;
      }
      var rate := p.Effective(ceiling);
      var upload := world.VerifyShape(found.value.inside, rate.upload);
      if !upload {
        return Some(Backend), on;
      }
      var download := world.VerifyShape(found.value.host, rate.download);
      if !download {
        return Some(Backend), on;
      }
      var rules := world.VerifyTable(OpenRules(p, ports));
      if !rules {
        return Some(Backend), on;
      }
      return None, found;
    }

    /** The same under the runtime lease, which may be unavailable. */
    method VerifyNetwork(p: Policy, c: Container) returns (err: Option<NetError>, ghost on: Option<Pair>)
      ensures err.None? && (c.managed || p.Required(ceiling)) ==>
        c.managed && c.running && on.Some? && InForce(p, on.value)
      ensures err.None? && !c.managed ==> !p.Required(ceiling) && on.None?
    {
      if c.managed {
        var lease := world.Check();
        if !lease {
          return Some(Backend), None;
        }
      }
      err, on := VerifyPolicy(p, c);
    }

    // --------------------------------------------------------------- quarantine

    method GateNetwork() returns (ok: bool)
      modifies world`table
      ensures ok ==> world.table == Drop
      ensures world.table == Drop || world.table == old(world.table)
    {
      var lease := world.Check();
      if !lease {
        return false;
      }
      var installed := world.Gate();
      if !installed {
        return false;
      }
      ok := world.VerifyTable(Drop);
    }

    /** Quarantines a container that carries the server's identity: gate it, or else kill it. */
    method CloseNetwork(c: Container) returns (err: Option<NetError>)
      modifies world`table, world`kills
      ensures err.None? ==> c.trusted && (world.table == Drop || world.kills == old(world.kills) + 1)
      ensures !c.trusted ==>
        err == Some(Untrusted) && world.table == old(world.table) && world.kills == old(world.kills)
      ensures err.Some? ==> world.kills == old(world.kills)
    {
      if !c.trusted {
        return Some(Untrusted);
      }
      if c.managed {
        var gated := GateNetwork();
        if gated {
          return None;
        }
      }
      var killed := world.Kill();
      err := if killed then None else Some(KillFailed);
    }

    /** Fail closed after a rejected change: stop what is running or record why that failed. */
    method FailSynced(p: Policy, cause: NetError) returns (ghost exit: Exit)
      requires Orderly()
      modifies this`verified, this`status, world`table, world`kills, world`observed
      ensures Valid() && !verified && status.state == Failed && status.desired == p
      ensures Cause(cause) in status.problems
      ensures exit.NotRunning? || exit.Quarantined? || exit.Recorded?
      ensures Explained(exit, old(world.kills))
    {
      FailStatus(p, cause);
      var i := world.Inspect();
      if i.Stopped() {
        return NotRunning;
      }
      if i.Unavailable? {
        status := status.(problems := status.problems + [NotInspected]);
        return Recorded;
      }
      var closed := CloseNetwork(i.c);
      if closed.Some? {
        status := status.(problems := status.problems + [NotQuarantined(closed.value)]);
        return Recorded;
      }
      return Quarantined;
    }

    /** What each way out of a failure says about the world and the status. */
    ghost predicate Explained(exit: Exit, kills: nat)
      reads this, world
    {
      match exit
      case NotStarted => true
      case Unprotected => !world.disk.Required(ceiling)
      case NotRunning => world.observed.Stopped()
      case Quarantined => world.table == Drop || world.kills > kills
      case Retained(previous, on) => applied == Some(previous) && InForce(previous, on)
      case Recorded =>
        |status.problems| == 2 && (status.problems[1].NotInspected? || status.problems[1].NotQuarantined?)
    }

    // ---------------------------------------------------------------- reconcile

    /** Replaces the rules without a gate: the shapers already run at the rates of both policies.
        A refused replacement is harmless exactly when the previous policy still reads back. */
    method ReplaceLive(p: Policy, previous: Policy, c: Container, ghost on: Pair)
      returns (retained: bool, err: Option<NetError>, ghost still: Pair)
      requires Orderly() && c.managed && c.managed == world.labelled(c.id)
      requires Shaped(world.shapers, on, p.Effective(ceiling))
      modifies world`table, world`openings, world`observed
      ensures Orderly()
      ensures err.None? ==> InForce(p, on)
      ensures retained ==> err.Some? && InForce(previous, still)
      ensures err != Some(Conflict)
    {
      still := on;
      var installed := world.Open(p, ports, on);
      if !installed {
        retained := false;
        var i := world.Inspect();
        if i.Found? && i.c.id == c.id {
          var again, found := VerifyPolicy(previous, i.c);
          if again.None? {
            retained := true;
            still := found.value;
          }
        }
        return retained, Some(Backend), still;
      }
      var ok := world.VerifyTable(OpenRules(p, ports));
      return false, if ok then None else Some(Backend), still;
    }

    /** The gated path: drop everything, shape both ends, read them back, then open. */
    method GateShapeOpen(p: Policy, c: Container) returns (err: Option<NetError>, ghost on: Pair)
      requires Orderly()
      modifies world`table, world`shapers, world`openings, world`shapings
      ensures Orderly()
      ensures err.None? ==> InForce(p, on)
      ensures err != Some(Conflict)
    {
      on := Pair(Host(""), Host(""));
      var gated := world.Gate();
      if !gated {
        return Some(Backend), on;
      }
      var closed := world.VerifyTable(Drop);
      if !closed {
        return Some(Backend), on;
      }
      if !c.attachmentSupported || !c.bindingsMatch || c.endpointMac.None? {
        return Some(Mismatch), on;
      }
      var found, _, _ := MatchLinks(c);
      if found.None? {
        return Some(Mismatch), on;
      }
      var inside, host := found.value.inside, found.value.host;
      on := found.value;
      var rate := p.Effective(ceiling);
      var shapedUp := world.Shape(inside, rate.upload);
      if !shapedUp {
        return Some(Backend), on;
      }
      var readUp := world.VerifyShape(inside, rate.upload);
      if !readUp {
        return Some(Backend), on;
      }
      var shapedDown := world.Shape(host, rate.download);
      if !shapedDown {
        return Some(Backend), on;
      }
      var readDown := world.VerifyShape(host, rate.download);
      if !readDown {
        return Some(Backend), on;
      }
      var installed := world.Open(p, ports, on);
      if !installed {
        return Some(Backend), on;
      }
      var ok := world.VerifyTable(OpenRules(p, ports));
      err := if ok then None else Some(Backend);
    }

    /** Everything after the policy was loaded. `protect` is whether a failure must be closed. */
    method ApplyPolicy(p: Policy) returns (err: Option<NetError>, protect: bool, retained: bool, ghost still: Pair)
      requires Orderly() && p == world.disk && !verified && status.state == Pending && status.desired == p
      modifies this`containerId, this`applied, this`verified, this`status, this`pair
      modifies world`table, world`shapers, world`openings, world`shapings, world`observed
      ensures Orderly()
      ensures err.None? ==> Valid() && Settled(p)
      ensures !protect ==> !p.Required(ceiling)
      ensures retained ==> err.Some? && applied.Some? && InForce(applied.value, still)
      ensures err != Some(Conflict)
    {
      protect, retained, still := p.Required(ceiling), false, Pair(Host(""), Host(""));
      var defaultsOk := world.Check();
      if !defaultsOk {
        return Some(Invalid), protect, retained, still;
      }
      var i := world.Inspect();
      if i.Stopped() {
        return None, protect, retained, still;
      }
      if i.Unavailable? {
        return Some(InspectError), protect, retained, still;
      }
      var c := i.c;
      protect := protect || c.managed;
      if !p.Required(ceiling) && !c.managed {
        if p.revision > 0 {
          PublishApplied(p, c.id, None);
        }
        return None, protect, retained, still;
      }
      var supported := world.Check();
      if !supported {
        return Some(Unsupported), protect, retained, still;
      }
      if !c.managed {
        return Some(NeedsRestart), protect, retained, still;
      }
      var prepared := world.Check();
      if !prepared {
        return Some(Mismatch), protect, retained, still;
      }
      err, retained, still := ApplyManaged(p, c);
    }

    /** A running managed container: the live replacement when nothing but rules changes, else the gate. */
    method ApplyManaged(p: Policy, c: Container) returns (err: Option<NetError>, retained: bool, ghost still: Pair)
      requires Orderly() && p == world.disk && c.managed && c.managed == world.labelled(c.id)
      modifies this`containerId, this`applied, this`verified, this`status, this`pair
      modifies world`table, world`shapers, world`openings, world`shapings, world`observed
      ensures Orderly()
      ensures err.None? ==> Valid() && verified && status.desired == p && pair.Some? && InForce(p, pair.value)
      ensures err.Some? ==> unchanged(this)
      ensures retained ==> err.Some? && applied.Some? && InForce(applied.value, still)
      ensures err != Some(Conflict)
    {
      retained, still := false, Pair(Host(""), Host(""));
      if applied.Some? && c.id == containerId && applied.value.Effective(ceiling) == p.Effective(ceiling) {
        var drift, on := VerifyPolicy(applied.value, c);
        if drift.None? {
          retained, err, still := ReplaceLive(p, applied.value, c, on.value);
          if err.None? {
            PublishApplied(p, c.id, on);
          }
          return;
        }
      }
      ghost var on: Pair;
      err, on := GateShapeOpen(p, c);
      if err.None? {
        PublishApplied(p, c.id, Some(on));
      }
    }

    /**
     Brings the kernel to the policy on disk, even when the kernel changed behind the server's back.
     On success nothing is left to do and the status is true. On failure the server is unprotected
     only when nothing required protection; otherwise it was seen stopped, is quarantined, still
     runs under the previous policy, or the status records why it could not be quarantined.
     */
    method Reconcile() returns (err: Option<NetError>, ghost exit: Exit)
      requires Consistent()
      modifies this`verified, this`status, this`containerId, this`applied, this`pair
      modifies world`table, world`shapers, world`openings, world`shapings, world`observed, world`kills
      ensures Consistent() && (old(Valid()) || err.None? || !exit.NotStarted? ==> Valid())
      ensures err.None? ==> Settled(world.disk)
      ensures err.Some? ==> Explained(exit, old(world.kills))
      ensures err.Some? && exit.NotStarted? ==>
        unchanged(this) && unchanged(world) && err.value in {Cancelled, Conflict}
      ensures err.Some? && !exit.NotStarted? ==>
        status.state == Failed && !verified && Cause(err.value) in status.problems
      ensures deleted ==> err.Some? && exit.NotStarted?
      ensures err == Some(Conflict) ==> deleted
    {
      exit := NotStarted;
      var cancelled := world.Check();
      if cancelled {
        return Some(Cancelled), exit;
      }
      if deleted {
        return Some(Conflict), exit;
      }
      var p, loaded := world.Load();
      var protect, retained := p.Required(ceiling) || !loaded, false;
      verified := false;
      status := PendingStatus(p);
      ghost var still := Pair(Host(""), Host(""));
      if loaded {
        err, protect, retained, still := ApplyPolicy(p);
      } else {
        err := Some(LoadFailed);
      }
      if err.Some? {
        exit := AfterFailure(p, err.value, protect, retained, still);
      }
    }

    /** The deferred part of a reconcile that failed. */
    method AfterFailure(p: Policy, cause: NetError, protect: bool, retained: bool, ghost still: Pair)
      returns (ghost exit: Exit)
      requires Orderly()
      requires !protect ==> !world.disk.Required(ceiling)
      requires retained ==> applied.Some? && InForce(applied.value, still)
      modifies this`verified, this`status, world`table, world`kills, world`observed
      ensures Valid() && status.state == Failed && !verified && Cause(cause) in status.problems
      ensures !exit.NotStarted? && Explained(exit, old(world.kills))
    {
      FailStatus(p, cause);
      if !protect {
        return Unprotected;
      }
      if retained {
        return Retained(applied.value, still);
      }
      exit := FailSynced(p, cause);
    }

    // ------------------------------------------------------------- entry points

    /** Revisions only grow, and under an unchanged revision the hash or the rules stay the same. */
    static predicate Successor(old': Policy, next: Policy) {
      || next == old'
      || next.revision > old'.revision
      || (next.revision == old'.revision && (next.hash == old'.hash || next.SameRules(old')))
    }

    /** A policy that passes for the one on disk. */
    static predicate Known(disk: Policy, p: Policy) {
      p.revision == disk.revision && p.hash == disk.hash
    }

    /** Revision and hash identify the policy on disk. */
    static predicate Agrees(disk: Policy, p: Policy) {
      Known(disk, p) ==> p == disk
    }

    /** A policy that cannot follow the one on disk. */
    static predicate Outdated(old': Policy, next: Policy) {
      || next.revision < old'.revision
      || (next.revision == old'.revision && next.hash != old'.hash && !next.SameRules(old'))
    }

    method ValidateUpdate(old': Policy, next: Policy) returns (err: Option<NetError>)
      ensures err.None? ==> Successor(old', next)
      ensures err.Some? ==> err.value in {Invalid, Conflict}
      ensures err == Some(Conflict) ==> Outdated(old', next)
      ensures next.revision < old'.revision ==> err.Some?
      ensures next.revision == old'.revision && next.hash != old'.hash && !next.SameRules(old') ==> err.Some?
    {
      var valid := world.Check();
      if !valid {
        return Some(Invalid);
      }
      if next.revision < old'.revision {
        return Some(Conflict);
      }
      if next.revision == old'.revision && next.hash != old'.hash && !next.SameRules(old') {
        return Some(Conflict);
      }
      return None;
    }

    /** A policy that the running container, as last seen, cannot carry. */
    ghost predicate NeedsRestartFor(next: Policy)
      reads this, world
    {
      next.Required(ceiling) && world.observed.Found? && world.observed.c.running && !world.observed.c.managed
    }

    /** A required policy is refused while an unmanaged container runs. */
    method CheckSupport(next: Policy) returns (err: Option<NetError>)
      modifies world`observed
      ensures err.Some? ==> err.value in {Unsupported, InspectError, Conflict}
      ensures err == Some(Conflict) ==> NeedsRestartFor(next)
      ensures err.None? && next.Required(ceiling) && world.observed.Found? && world.observed.c.running ==>
        world.observed.c.managed
    {
      var enabled := world.Check();
      if !enabled {
        return Some(Unsupported);
      }
      var i := world.Inspect();
      if i.Unavailable? {
        return Some(InspectError);
      }
      if i.Found? && i.c.running && next.Required(ceiling) && !i.c.managed {
        return Some(Conflict);
      }
      var supported := world.Check();
      err := if supported then None else Some(Unsupported);
    }

    method SavePolicy(p: Policy, changed: bool) returns (ok: bool)
      modifies world`disk
      ensures world.disk == old(world.disk) || (changed && world.disk == p)
      ensures ok && changed ==> world.disk == p
    {
      var lease := world.Check();
      if !lease {
        return false;
      }
      if changed {
        ok := world.Save(p);
        if !ok {
          return;
        }
      }
      ok := world.Check();
    }

    /** True when the recorded container still runs `p` as verified; reads only. */
    method StillApplied(p: Policy) returns (yes: bool, ghost on: Option<Pair>)
      modifies world`observed
      ensures yes ==> if on.Some? then InForce(p, on.value) else !p.Required(ceiling)
    {
      on := None;
      var i := world.Inspect();
      if !i.Found? || !i.c.running || i.c.id != containerId {
        return false, on;
      }
      var err: Option<NetError>;
      err, on := VerifyNetwork(p, i.c);
      yes := err.None?;
    }

    /** A PUT of a policy: durable before anything is enforced; enforcement is left to the worker. */
    method UpdatePolicy(p: Policy) returns (err: Option<NetError>, scheduled: bool, ghost exit: Option<Exit>)
      requires Consistent()
      modifies this`verified, this`status, this`containerId, this`applied, this`pair, world
      ensures Consistent() && (old(Valid()) ==> Valid())
      ensures Successor(old(world.disk), world.disk)
      ensures err.None? && scheduled ==> Valid() && !verified && status.state == Pending && status.desired == p
      ensures err.None? && scheduled ==>
        || world.disk == p
        || (p.revision == world.disk.revision && p.hash == world.disk.hash && world.disk == old(world.disk))
      ensures err.None? && !scheduled ==> status == old(status) && verified && world.disk == old(world.disk)
      ensures err.None? && !scheduled ==> applied == old(applied) && containerId == old(containerId)
      ensures err.None? && !scheduled ==> !p.Required(ceiling) || exists on :: InForce(p, on)
      ensures err.None? && !scheduled && p == world.disk ==> Valid()
      ensures err == Some(Conflict) ==> deleted || Outdated(old(world.disk), p) || NeedsRestartFor(p)
      ensures err.Some? && err.value !in {LoadFailed, SaveFailed} ==> unchanged(this) && world.disk == old(world.disk)
      ensures err.Some? && err.value in {LoadFailed, SaveFailed} ==>
        status.state == Failed && !verified && [Cause(err.value)] <= status.problems
      ensures exit.Some? ==>
        err == Some(SaveFailed) && (Explained(exit.value, old(world.kills)) <==> !exit.value.Recorded?)
      ensures err == Some(SaveFailed) && exit.None? ==>
        world.observed.Stopped() || !world.disk.Required(ceiling) || exists on :: InForce(world.disk, on)
    {
      scheduled, exit := false, None;
      var cancelled := world.Check();
      if cancelled {
        return Some(Cancelled), scheduled, exit;
      }
      if deleted {
        return Some(Conflict), scheduled, exit;
      }
      var current, loaded := world.Load();
      if !loaded {
        FailStatus(current, LoadFailed);
        return Some(LoadFailed), scheduled, exit;
      }
      err := ValidateUpdate(current, p);
      if err.Some? {
        return;
      }
      err := CheckSupport(p);
      if err.Some? {
        return;
      }
      cancelled := world.Check();
      if cancelled {
        return Some(Cancelled), scheduled, exit;
      }
      var same := current.revision == p.revision && current.hash == p.hash;
      if same && verified {
        var still, on := StillApplied(p);
        if still {
          if p == current {
            pair := on;
          }
          assert on.Some? ==> InForce(p, on.value);
          return None, scheduled, exit;
        }
      }
      verified := false;
      status := PendingStatus(p);
      var saved := SavePolicy(p, !same);
      if !saved {
        exit := FailedSave(p);
        return Some(SaveFailed), scheduled, exit;
      }
      return None, true, exit;
    }

    /**
     Reconciles whatever policy became visible, and then publishes the failed write. That replaces
     the status: the reason why a quarantine was impossible is lost, and nothing else is.
     */
    method FailedSave(p: Policy) returns (ghost exit: Option<Exit>)
      requires Consistent() && status.state == Pending && !verified
      modifies this`verified, this`status, this`containerId, this`applied, this`pair
      modifies world`table, world`shapers, world`openings, world`shapings, world`observed, world`kills
      ensures Valid() && status.state == Failed && !verified && |status.problems| <= 2
      ensures [Cause(SaveFailed)] <= status.problems && forall e :: e in status.problems ==> e.Cause?
      ensures exit.None? ==>
        world.observed.Stopped() || !world.disk.Required(ceiling) || exists on :: InForce(world.disk, on)
      ensures exit.Some? ==> (Explained(exit.value, old(world.kills)) <==> !exit.value.Recorded?)
    {
      var failed, how := Reconcile();
      exit := if failed.Some? then Some(how) else None;
      FailStatus(p, SaveFailed);
      if failed.Some? {
        status := status.(problems := status.problems + [Cause(failed.value)]);
      }
      assert pair.Some? && InForce(world.disk, pair.value) ==> exists on :: InForce(world.disk, on);
    }

    /** New settings, with or without a policy: allocations and rules change together. */
    method SetSettings(newPorts: Ports, incoming: Option<Policy>) returns (err: Option<NetError>, ghost exit: Exit)
      requires Consistent()
      modifies this`ports, this`verified, this`status, this`containerId, this`applied, this`pair, world
      ensures Consistent()
      ensures old(Valid()) && (incoming.Some? ==> Agrees(old(world.disk), incoming.value)) ==> Valid()
      ensures Successor(old(world.disk), world.disk)
      ensures ports == newPorts || ports == old(ports)
      ensures err.None? ==> ports == newPorts
      ensures err.None? && (incoming.Some? ==> Agrees(old(world.disk), incoming.value)) ==>
        Valid() && (Settled(world.disk) || (world.disk.revision == 0 && !world.disk.Required(ceiling)))
      ensures err.None? && incoming.Some? ==>
        (world.disk == incoming.value <==> Agrees(old(world.disk), incoming.value))
      ensures incoming.Some? && Known(old(world.disk), incoming.value) ==> world.disk == old(world.disk)
      ensures err.Some? ==> Explained(exit, old(world.kills))
      ensures err.Some? && !exit.NotStarted? ==> status.state == Failed && !verified
      ensures err.Some? && exit.NotStarted? ==>
        || (unchanged(this) && world.disk == old(world.disk))
        || (ports == newPorts && status.state == Pending && !verified)
      ensures err == Some(Conflict) ==>
        || deleted
        || (incoming.Some? && Outdated(old(world.disk), incoming.value))
        || (if incoming.Some? then incoming.value else old(world.disk)).Required(ceiling)
    {
      exit := NotStarted;
      if deleted {
        return Some(Conflict), exit;
      }
      var current, loaded := world.Load();
      if !loaded {
        exit := FailSynced(current, LoadFailed);
        return Some(LoadFailed), exit;
      }
      if incoming.None? && current.revision == 0 && !current.Required(ceiling) {
        ports := newPorts;
        status := PendingStatus(current);
        return None, exit;
      }
      if incoming.Some? && incoming.value.revision < current.revision {
        return Some(Conflict), exit;
      }
      var next := current;
      if incoming.Some? {
        err := ValidateUpdate(current, incoming.value);
        if err.Some? {
          exit := FailSynced(current, err.value);
          return;
        }
        next := incoming.value;
      }
      err := CheckSupport(next);
      if err.Some? {
        exit := FailSynced(current, err.value);
        return;
      }
      var cancelled := world.Check();
      if cancelled {
        return Some(Cancelled), exit;
      }
      err, exit := SwitchTo(current, next, newPorts);
    }

    /** The accepted half of `SetSettings`. */
    method SwitchTo(current: Policy, next: Policy, newPorts: Ports) returns (err: Option<NetError>, ghost exit: Exit)
      requires Consistent() && current == world.disk
      modifies this`ports, this`verified, this`status, this`containerId, this`applied, this`pair, world
      ensures Consistent() && (Agrees(current, next) ==> Valid())
      ensures world.disk == current || world.disk == next
      ensures Known(current, next) ==> world.disk == current
      ensures err.None? ==> (world.disk == next <==> Agrees(current, next))
      ensures ports == newPorts || ports == old(ports)
      ensures err.None? ==> ports == newPorts
      ensures err.None? && Agrees(current, next) ==> world.disk == next && Settled(next)
      ensures err.Some? ==> Explained(exit, old(world.kills))
      ensures err.Some? && !exit.NotStarted? ==> status.state == Failed && !verified
      ensures err.Some? && exit.NotStarted? ==> ports == newPorts && status.state == Pending && !verified
      ensures err == Some(Conflict) ==> deleted
    {
      exit := NotStarted;
      var wasVerified := verified;
      var changed := next.revision != current.revision || next.hash != current.hash;
      var saved := SavePolicy(next, changed);
      if !saved {
        var visible, ok := world.Load();
        exit := FailSynced(if ok then visible else current, SaveFailed);
        return Some(SaveFailed), exit;
      }
      ports := newPorts;
      if !changed && wasVerified {
        var still, on := StillApplied(next);
        if still {
          pair := on;
          return None, exit;
        }
      }
      verified := false;
      status := PendingStatus(next);
      err, exit := Reconcile();
    }

    /**
     A status read. With a live request and the lock at hand it verifies what it is about to report,
     so that "applied" is true of the kernel even after drift. Without either it returns the stored
     status unchecked, and "applied" is then as true as it was before the call.
     */
    method ReadStatus(live: bool, locked: bool) returns (reported: Status)
      requires Consistent()
      modifies this`verified, this`status, this`pair, world`table, world`kills, world`observed
      ensures Consistent() && reported == status
      ensures live && locked ==> Valid()
      ensures !(live && locked) ==> unchanged(this) && unchanged(world)
      ensures reported.state == Applied ==> reported == old(status)
      ensures reported.state == Applied ==> (Honest() <==> (live && locked) || old(Honest()))
    {
      if !live || !locked {
        return status;
      }
      reported := CheckedStatus();
    }

    method CheckedStatus() returns (reported: Status)
      requires Consistent()
      modifies this`verified, this`status, this`pair, world`table, world`kills, world`observed
      ensures Valid() && reported == status
      ensures reported.state == Applied ==> reported == old(status)
    {
      var p, loaded := world.Load();
      if !loaded {
        var wasApplied := status.state == Applied;
        verified := false;
        status := status.(state := Failed, problems := [Cause(LoadFailed)]);
        if wasApplied {
          var seen := world.Inspect();
          QuarantineForRead(if seen.Found? then Some(seen.c) else None);
        }
        return status;
      }
      if status.desired.revision != p.revision || status.desired.hash != p.hash {
        verified := false;
        status := PendingStatus(p);
      }
      if status.state != Applied {
        return status;
      }
      var i := world.Inspect();
      if i.Found? && i.c.running && i.c.id == containerId {
        var err, on := VerifyNetwork(p, i.c);
        if err.None? {
          pair := on;
          return status;
        }
        verified := false;
        if err.value == Cancelled {
          status := PendingStatus(p).(problems := [Cause(Cancelled)]);
          return status;
        }
        status := status.(state := Failed, problems := [Cause(err.value)]);
        QuarantineForRead(Some(i.c));
        return status;
      }
      verified := false;
      if i.Unavailable? && i.interrupted {
        status := PendingStatus(p).(problems := [Cause(Cancelled)]);
      } else if i.Stopped() {
        status := status.(state := Pending);
      } else {
        status := status.(state := Failed, problems := [Cause(if i.Found? then Mismatch else InspectError)]);
        QuarantineForRead(if i.Found? then Some(i.c) else None);
      }
      reported := status;
    }

    /** Closes the inspected container, or adds to the failed status that it could not; a container
        that could not be inspected has no identity to trust. */
    method QuarantineForRead(c: Option<Container>)
      requires status.state == Failed && Orderly() && !verified
      modifies this`status, world`table, world`kills
      ensures Valid() && status.state == Failed
      ensures world.table == Drop || world.kills > old(world.kills) || |status.problems| == |old(status.problems)| + 1
    {
      var closed := Some(Untrusted);
      if c.Some? {
        closed := CloseNetwork(c.value);
      }
      if closed.Some? {
        status := status.(problems := status.problems + [NotQuarantined(closed.value)]);
      }
    }

    /** The body of the background worker once it holds the lock. */
    method ReconcilePending()
      requires Consistent()
      modifies this`verified, this`status, this`containerId, this`applied, this`pair
      modifies world`table, world`shapers, world`openings, world`shapings, world`observed, world`kills
      ensures Consistent() && (old(Valid()) ==> Valid())
      ensures deleted || Settled(world.disk) || (status.state == Failed && !verified) || unchanged(this)
    {
      if deleted {
        return;
      }
      var p, loaded := world.Load();
      if loaded {
        var i := world.Inspect();
        if i.Found? && i.c.running && i.c.id == containerId {
          var err, on := VerifyNetwork(p, i.c);
          if err.None? {
            PublishApplied(p, i.c.id, on);
            return;
          }
        }
      }
      var failed, exit := Reconcile();
    }

    /** Before a container is created or started: nothing stays published, and the bridge is gated. */
    method PrepareContainer() returns (ok: bool)
      requires Consistent()
      modifies this`verified, this`status, world`table
      ensures Valid() && status.state != Applied && !verified
      ensures ok ==> world.table == Drop || !world.disk.Required(ceiling)
    {
      var p, loaded := world.Load();
      if !loaded {
        FailStatus(p, LoadFailed);
        return false;
      }
      verified := false;
      status := PendingStatus(p);
      if !p.Required(ceiling) {
        return true;
      }
      ok := GateNetwork();
    }
  }

  // ----------------------------------------------------------------- whole runs

  datatype Operation =
    | Put(policy: Policy)
    | Configure(ports: Ports, incoming: Option<Policy>)
    | Read(live: bool, locked: bool)
    | Work
    | Prepare
    | Drift(rules: Ruleset, rates: map<Device, int>)

  /** A reported status, and what the kernel enforced at that moment. */
  datatype Report = Report(
    checked: bool, status: Status, pair: Option<Pair>, ports: Ports, table: Ruleset, shapers: map<Device, int>)

  /** A checked "applied" was true when it was reported. */
  ghost predicate TrueReport(r: Report, ceiling: Bandwidth) {
    var p := r.status.desired;
    r.checked && r.status.state == Applied ==>
      if r.pair.Some? then r.table == OpenRules(p, r.ports) && Shaped(r.shapers, r.pair.value, p.Effective(ceiling))
      else !p.Required(ceiling)
  }

  /**
   Any sequence of operations, with the kernel drifting in between: rules were only ever opened on
   shapers that ran at the policy's rates and shapers only changed behind the gate, the revision on
   disk never went back, and every checked report of "applied" was true.
   */
  method Run(env: Environment, operations: seq<Operation>) returns (ghost reports: seq<Option<Report>>)
    requires env.Consistent()
    modifies env, env.world
    ensures env.Consistent()
    ensures env.world.disk.revision >= old(env.world.disk.revision)
    ensures |reports| == |operations|
    ensures forall k :: 0 <= k < |reports| ==> Answers(operations[k], reports[k], env.ceiling)
  {
    reports := [];
    for k := 0 to |operations|
      invariant env.Consistent() && |reports| == k
      invariant env.world.disk.revision >= old(env.world.disk.revision)
      invariant forall i :: 0 <= i < k ==> Answers(operations[i], reports[i], env.ceiling)
    {
      ghost var report := Perform(env, operations[k]);
      reports := reports + [report];
    }
  }

  /** Exactly the reads report, and what they checked was true. */
  ghost predicate Answers(op: Operation, report: Option<Report>, ceiling: Bandwidth) {
    && (report.Some? <==> op.Read?)
    && (report.Some? ==> report.value.checked == (op.live && op.locked) && TrueReport(report.value, ceiling))
  }

  method Perform(env: Environment, op: Operation) returns (ghost report: Option<Report>)
    requires env.Consistent()
    modifies env, env.world
    ensures env.Consistent()
    ensures env.world.disk.revision >= old(env.world.disk.revision)
    ensures Answers(op, report, env.ceiling)
    ensures report.Some? ==> report.value == Report(
      op.live && op.locked, env.status, env.pair, env.ports, env.world.table, env.world.shapers)
  {
    report := None;
    match op
    case Put(policy) =>
      var err, scheduled, exit := env.UpdatePolicy(policy);
    case Configure(ports, incoming) =>
      var err, exit := env.SetSettings(ports, incoming);
    case Read(live, locked) =>
      var status := env.ReadStatus(live, locked);
      report := Some(Report(live && locked, status, env.pair, env.ports, env.world.table, env.world.shapers));
    case Work =>
      env.ReconcilePending();
    case Prepare =>
      var ok := env.PrepareContainer();
    case Drift(rules, rates) =>
      env.world.Drift(rules, rates);
  }

  /** Two policies with one revision and hash: the second one is never stored, whatever is answered. */
  method CollidingSettings() returns (err: Option<NetError>, disk: Policy, sent: Policy)
    ensures disk != sent && disk.revision == sent.revision && disk.hash == sent.hash
  {
    var p := Policy(1, "hash", true, Bandwidth(0, 0), "rules");
    sent := p.(rules := "other rules");
    var world := new World(id => true, p, Absent, map[]);
    var env := new Environment(world, Bandwidth(0, 0), map[]);
    ghost var exit;
    err, exit := env.SetSettings(map[], Some(sent));
    disk := world.disk;
  }

  /** A contended read does report "applied" over a kernel that drops everything. */
  method ContendedRead() returns (reported: Status, table: Ruleset, ports: Ports)
    ensures reported.state == Applied && table == Drop && table != OpenRules(reported.desired, ports)
  {
    var p := Policy(1, "hash", true, Bandwidth(0, 0), "rules");
    ports := map[];
    var world := new World(id => true, p, OpenRules(p, ports), map[]);
    var env := new Environment(world, Bandwidth(0, 0), ports);
    env.PublishApplied(p, "container", Some(Pair(Host("inside"), Host("outside"))));
    world.Drift(Drop, map[]);
    reported := env.ReadStatus(true, false);
    table := world.table;
  }
}
