/**
 What the network reconciler acts on: the policy on disk, the server's nftables table, the two
 shapers and the container. Every call may fail, and a call that changes something may or may
 not have changed it whatever it reports; only a successful read-back says what is there.
 */
module NetworkWorld {
  import opened Common

  /** Bits per second; 0 means unlimited. */
  datatype Bandwidth = Bandwidth(upload: int, download: int)

  type Ports = map<string, seq<int>>

  datatype Policy = Policy(revision: nat, hash: string, firewallEnabled: bool, bandwidth: Bandwidth, rules: string)
  {
    predicate Required(ceiling: Bandwidth) {
      firewallEnabled || bandwidth.upload > 0 || bandwidth.download > 0 || ceiling.upload > 0 || ceiling.download > 0
    }

    function Effective(ceiling: Bandwidth): Bandwidth {
      Bandwidth(Capped(bandwidth.upload, ceiling.upload), Capped(bandwidth.download, ceiling.download))
    }

    predicate SameRules(other: Policy) {
      firewallEnabled == other.firewallEnabled && bandwidth == other.bandwidth && rules == other.rules
    }
  }

  function Capped(rate: int, ceiling: int): int {
    if ceiling > 0 && (rate == 0 || rate > ceiling) then ceiling else rate
  }

  /** An administrator ceiling binds every policy, whatever it asks for. */
  lemma CeilingBinds(p: Policy, ceiling: Bandwidth)
    requires p.bandwidth.upload >= 0 && p.bandwidth.download >= 0
    ensures ceiling.upload > 0 ==> 0 < p.Effective(ceiling).upload <= ceiling.upload
    ensures ceiling.download > 0 ==> 0 < p.Effective(ceiling).download <= ceiling.download
    ensures !p.Required(ceiling) ==> p.Effective(ceiling) == Bandwidth(0, 0)
  {
  }

  /** Something is to be enforced exactly when there is a firewall or a rate. */
  lemma RequiredExactly(p: Policy, ceiling: Bandwidth)
    requires p.bandwidth.upload >= 0 && p.bandwidth.download >= 0
    requires ceiling.upload >= 0 && ceiling.download >= 0
    ensures p.Required(ceiling) <==> p.firewallEnabled || p.Effective(ceiling) != Bandwidth(0, 0)
  {
  }

  /** What a policy asks for is never exceeded, and a rate is the policy's own unless the ceiling
      takes its place. */
  lemma OwnRateBinds(p: Policy, ceiling: Bandwidth)
    requires p.bandwidth.upload >= 0 && p.bandwidth.download >= 0
    requires ceiling.upload >= 0 && ceiling.download >= 0
    ensures p.bandwidth.upload > 0 ==> 0 < p.Effective(ceiling).upload <= p.bandwidth.upload
    ensures p.bandwidth.download > 0 ==> 0 < p.Effective(ceiling).download <= p.bandwidth.download
    ensures p.Effective(ceiling).upload in {p.bandwidth.upload, ceiling.upload}
    ensures p.Effective(ceiling).download in {p.bandwidth.download, ceiling.download}
    ensures Within(p.bandwidth.upload, ceiling.upload) ==> p.Effective(ceiling).upload == p.bandwidth.upload
    ensures Within(p.bandwidth.download, ceiling.download) ==> p.Effective(ceiling).download == p.bandwidth.download
  {
  }

  /** A rate that a ceiling leaves alone; 0 is unlimited on both sides. */
  predicate Within(rate: int, ceiling: int) {
    ceiling == 0 || (rate != 0 && rate <= ceiling)
  }

  /** The server's table: none, the drop gate, or the rules of a policy for the assigned ports. */
  datatype Ruleset = Absent | Drop | Rules(policy: Policy, ports: Ports)

  function OpenRules(p: Policy, ports: Ports): Ruleset {
    if p.firewallEnabled then Rules(p, ports) else Absent
  }

  /** The rules in place tell which policy with a firewall they belong to and for which ports, and are
      never the gate. */
  lemma RulesIdentify(p: Policy, ports: Ports, q: Policy, others: Ports)
    ensures OpenRules(p, ports) != Drop
    ensures p.firewallEnabled && OpenRules(p, ports) == OpenRules(q, others) ==> p == q && ports == others
    ensures !p.firewallEnabled && !q.firewallEnabled ==> OpenRules(p, ports) == OpenRules(q, others)
  {
  }

  datatype Device = Inside(namespace: string, name: string) | Host(name: string)

  /** The two ends of the veth pair that carries the server's traffic. */
  datatype Pair = Pair(inside: Device, host: Device)

  function Rate(shapers: map<Device, int>, d: Device): int {
    if d in shapers then shapers[d] else 0
  }

  ghost predicate Shaped(shapers: map<Device, int>, pair: Pair, rate: Bandwidth) {
    Rate(shapers, pair.inside) == rate.upload && Rate(shapers, pair.host) == rate.download
  }

  datatype Link = Link(index: int, peer: int, name: string, address: string)

  /** The `k`-th link is the only one that is neither the loopback nor, before it, nameless. */
  ghost predicate OnlyLink(links: seq<Link>, k: int) {
    && 0 <= k < |links| && links[k].name != "lo" && links[k].name != ""
    && forall j :: 0 <= j < |links| && j != k ==> links[j].name == "lo" || (j < k && links[j].name == "")
  }

  datatype Container = Container(
    id: string, running: bool, managed: bool, trusted: bool,
    attachmentSupported: bool, bindingsMatch: bool, endpointMac: Option<string>, namespace: string)

  /** The container's only interface and the only link on its bridge are two ends of one pair, and the
      interface has the endpoint's address. */
  ghost predicate Matched(hosts: seq<Link>, insides: seq<Link>, c: Container, k: int) {
    && |hosts| == 1 && OnlyLink(insides, k)
    && insides[k].peer == hosts[0].index && hosts[0].peer == insides[k].index
    && c.endpointMac == Some(insides[k].address)
  }

  datatype Inspection = NotFound | Unavailable(interrupted: bool) | Found(c: Container)
  {
    predicate Stopped() {
      NotFound? || (Found? && !c.running)
    }
  }

  /** An attempt to replace the table by the rules of a policy, with the shapers as they were then. */
  datatype Opening = Opening(policy: Policy, pair: Pair, shapers: map<Device, int>)

  class World {
    /** Which container ids were created with the owner label; labels never change. */
    const labelled: string -> bool
    var disk: Policy
    var table: Ruleset
    var shapers: map<Device, int>
    ghost var observed: Inspection
    ghost var kills: nat
    ghost var openings: seq<Opening>
    /** The table in place at each attempt to change a shaper. */
    ghost var shapings: seq<Ruleset>

    constructor (labelled: string -> bool, disk: Policy, table: Ruleset, shapers: map<Device, int>)
      ensures this.disk == disk && this.table == table && this.shapers == shapers && openings == [] && shapings == []
    {
      this.labelled, this.disk, this.table, this.shapers := labelled, disk, table, shapers;
      observed, kills, openings, shapings := NotFound, 0, [], [];
    }

    /** Rules and rates change behind the server's back. */
    method Drift(rules: Ruleset, rates: map<Device, int>)
      modifies this`table, this`shapers
      ensures table == rules && shapers == rates
    {
      table, shapers := rules, rates;
    }

    /** A foreign check whose outcome nothing here determines. */
    method Check() returns (ok: bool)
    {
      ok := *;
    }

    method Load() returns (p: Policy, ok: bool)
      ensures ok ==> p == disk
    {
      p, ok := disk, *;
      if !ok {
        p := *;
      }
    }

    /** A rename can become visible although the write reports a failure. */
    method Save(p: Policy) returns (ok: bool)
      modifies this`disk
      ensures disk == p || disk == old(disk)
      ensures ok ==> disk == p
    {
      ok := *;
      if ok {
        disk := p;
      } else if * {
        disk := p;
      }
    }

    method Inspect() returns (i: Inspection)
      modifies this`observed
      ensures observed == i
      ensures i.Found? ==> i.c.managed == labelled(i.c.id)
    {
      i := *;
      if i.Found? {
        i := Found(i.c.(managed := labelled(i.c.id)));
      }
      observed := i;
    }

    /** True when Docker accepted the kill or knows no such container. */
    method Kill() returns (ok: bool)
      modifies this`kills
      ensures kills == old(kills) + if ok then 1 else 0
    {
      ok := *;
      kills := kills + if ok then 1 else 0;
    }

    method Gate() returns (ok: bool)
      modifies this`table
      ensures table == Drop || table == old(table)
    {
      ok := *;
      if * {
        table := Drop;
      }
    }

    method Open(p: Policy, ports: Ports, ghost pair: Pair) returns (ok: bool)
      modifies this`table, this`openings
      ensures table == OpenRules(p, ports) || table == old(table)
      ensures openings == old(openings) + [Opening(p, pair, shapers)]
    {
      openings := openings + [Opening(p, pair, shapers)];
      ok := *;
      if * {
        table := OpenRules(p, ports);
      }
    }

    method VerifyTable(expected: Ruleset) returns (ok: bool)
      ensures ok ==> table == expected
    {
      ok := *;
      ok := ok && table == expected;
    }

    method Shape(d: Device, rate: int) returns (ok: bool)
      modifies this`shapers, this`shapings
      ensures shapings == old(shapings) + [table]
      ensures forall e :: e != d ==> Rate(shapers, e) == Rate(old(shapers), e)
    {
      shapings := shapings + [table];
      ok := *;
      if * {
        shapers := shapers[d := rate];
      } else if * {
        var partial: int := *;
        shapers := shapers[d := partial];
      }
    }

    method VerifyShape(d: Device, rate: int) returns (ok: bool)
      ensures ok ==> Rate(shapers, d) == rate
    {
      ok := *;
      ok := ok && Rate(shapers, d) == rate;
    }

    method Links() returns (links: seq<Link>, ok: bool)
    {
      links, ok := *, *;
    }
  }
}
