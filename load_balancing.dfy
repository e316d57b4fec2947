/** The preferred-host load-balancing wrapper: a policy that, for a statement aimed at
    a fixed host, yields that host first and then the plan of the policy it wraps, and
    that keeps the host it last pinned at distance Local. What is modelled is the
    behaviour its unit tests pin down; hosts are known by their address (the tests use
    the IPv4 addresses 201.0.0.0, 101.0.0.0, 102.0.0.0 and 200.0.0.0, written here as
    201, 101, 102 and 200). */
module DseLoadBalancing {
  import opened Wrappers

  type Host = int

  datatype HostDistance = Local | Remote | Ignored

  /** The wrapped policy: the plan it yields for a statement and the distance it
      reports for each host. */
  datatype ChildPolicy = ChildPolicy(plan: seq<Host>, distance: Host -> HostDistance)

  /** The plan of the wrapper: the preferred host, when there is one, followed by the
      child's plan in its own order (the child's plan is not searched for it). */
  function PreferredFirst(preferredHost: Option<Host>, childPlan: seq<Host>): (plan: seq<Host>)
    ensures preferredHost.None? ==> plan == childPlan
    ensures preferredHost.Some? ==> |plan| == |childPlan| + 1 && plan[0] == preferredHost.value
    ensures preferredHost.Some? ==> forall i :: 0 <= i < |childPlan| ==> plan[i + 1] == childPlan[i]
  {
    match preferredHost
    case None => childPlan
    case Some(p) => [p] + childPlan
  }

  /** The plan is the child's plan plus one occurrence of the preferred host: a child
      plan that already holds the preferred host yields it twice. */
  lemma PreferredFirstContents(preferredHost: Option<Host>, childPlan: seq<Host>)
    ensures multiset(PreferredFirst(preferredHost, childPlan))
            == multiset(childPlan) + if preferredHost.Some? then multiset{preferredHost.value} else multiset{}
  {
  }

  /** DseLoadBalancingPolicy wrapping `child`. */
  class DseLoadBalancingPolicy {
    const child: ChildPolicy
    var lastPreferredHost: Option<Host>

    constructor (child: ChildPolicy)
      ensures this.child == child && lastPreferredHost == None
    {
      this.child := child;
      lastPreferredHost := None;
    }

    /** The distance of `host`: Local for the host last used as preferred, otherwise
        whatever the child reports. */
    function Distance(host: Host): (d: HostDistance)
      reads this
      ensures lastPreferredHost == Some(host) ==> d == Local
      ensures lastPreferredHost != Some(host) ==> d == child.distance(host)
    {
      if lastPreferredHost == Some(host) then Local else child.distance(host)
    }

    /** The query plan for a statement whose preferred host is `preferredHost` (None
        for a statement without one); a preferred host is remembered so that its
        distance is Local from now on. */
    method NewQueryPlan(preferredHost: Option<Host>) returns (plan: seq<Host>)
      modifies this`lastPreferredHost
      ensures plan == PreferredFirst(preferredHost, child.plan)
      ensures preferredHost.Some? ==> lastPreferredHost == preferredHost && Distance(preferredHost.value) == Local
      ensures preferredHost.None? ==> lastPreferredHost == old(lastPreferredHost)
    {
      if preferredHost.Some? {
        lastPreferredHost := preferredHost;
      }
      plan := PreferredFirst(preferredHost, child.plan);
    }
  }

  /** The child plan of the tests. */
  const TestChildPlan: seq<Host> := [101, 102]

  /** With preferred host 201 the plan is 201, 101, 102. */
  method ShouldYieldPreferredHostFirst() returns (plan: seq<Host>)
    ensures plan == [201, 101, 102]
  {
    var lbp := new DseLoadBalancingPolicy(ChildPolicy(TestChildPlan, _ => Local));
    plan := lbp.NewQueryPlan(Some(201));
  }

  /** Without a preferred host the plan is the child's, 101, 102. */
  method ShouldYieldChildHostsWhenNoPreferredHostDefined() returns (plan: seq<Host>)
    ensures plan == [101, 102]
  {
    var lbp := new DseLoadBalancingPolicy(ChildPolicy(TestChildPlan, _ => Local));
    plan := lbp.NewQueryPlan(None);
  }

  /** A child that ignores every host: host 200 is Ignored; once 201 has been used as
      preferred host, 201 is Local. */
  method ShouldSetDistanceForPreferredHostToLocal() returns (before: HostDistance, after: HostDistance)
    ensures before == Ignored && after == Local
  {
    var lbp := new DseLoadBalancingPolicy(ChildPolicy(TestChildPlan, _ => Ignored));
    before := lbp.Distance(200);
    var _ := lbp.NewQueryPlan(Some(201));
    after := lbp.Distance(201);
  }

  /** For any child and any host p: a new wrapper reports the child's distance for p,
      and, after a plan with preferred host p, reports Local for p and the child's
      distance for every other host. */
  method PreferredHostDistance(child: ChildPolicy, p: Host, other: Host)
    returns (before: HostDistance, after: HostDistance, afterOther: HostDistance)
    requires other != p
    ensures before == child.distance(p)
    ensures after == Local
    ensures afterOther == child.distance(other)
  {
    var lbp := new DseLoadBalancingPolicy(child);
    before := lbp.Distance(p);
    var _ := lbp.NewQueryPlan(Some(p));
    after := lbp.Distance(p);
    afterOther := lbp.Distance(other);
  }
}
