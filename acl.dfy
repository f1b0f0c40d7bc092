/** `get_acl_bound_ports`: the ports an ACL table is bound to by default are
    the port channels together with the front-panel ports that are not members
    of any port channel. */
module Acl {
  import opened ConfigDb

  const PortChannelMemberTable: string := "PORTCHANNEL_MEMBER"
  const PortTable: string := "PORT"

  /** The `(portchannel, member)` keys of PORTCHANNEL_MEMBER. */
  function MemberKeys(db: Db): set<(string, string)> {
    set k | k in GetTable(db, PortChannelMemberTable) && k.Pair? :: (k.first, k.second)
  }

  /** The port names of PORT. */
  function PortNames(db: Db): set<string> {
    set k | k in GetTable(db, PortTable) && k.Name? :: k.name
  }

  predicate IsPortChannel(members: set<(string, string)>, x: string) {
    exists k :: k in members && k.0 == x
  }

  predicate IsMember(members: set<(string, string)>, x: string) {
    exists k :: k in members && k.1 == x
  }

  /** Collects the two halves of the member keys, as the first loop does. */
  method SplitMemberKeys(members: set<(string, string)>) returns (channels: set<string>, memberPorts: set<string>)
    ensures forall x :: x in channels <==> IsPortChannel(members, x)
    ensures forall x :: x in memberPorts <==> IsMember(members, x)
  {
    channels, memberPorts := {}, {};
    var todo := members;
    while todo != {}
      invariant todo <= members
      invariant forall x :: x in channels <==> exists k :: k in members - todo && k.0 == x
      invariant forall x :: x in memberPorts <==> exists k :: k in members - todo && k.1 == x
      decreases |todo|
    {
      var key :| key in todo;
      channels := channels + {key.0};
      memberPorts := memberPorts + {key.1};
      todo := todo - {key};
    }
  }

  /** The bound ports: every port channel, and every port no port channel
      takes as a member. */
  method AclBoundPorts(members: set<(string, string)>, ports: set<string>) returns (r: set<string>)
    ensures forall x :: x in r <==> IsPortChannel(members, x) || (x in ports && !IsMember(members, x))
  {
    var memberPorts;
    r, memberPorts := SplitMemberKeys(members);
    var todo := ports;
    ghost var channels := r;
    while todo != {}
      invariant todo <= ports
      invariant forall x :: x in r <==> x in channels || (x in ports - todo && x !in memberPorts)
      decreases |todo|
    {
      var port :| port in todo;
      if port !in memberPorts {
        r := r + {port};
      }
      todo := todo - {port};
    }
  }

  /** `get_acl_bound_ports` on the database: the two tables are read and the
      result formed as above (its order as a list is not modelled). */
  method GetAclBoundPorts(db: Db) returns (r: set<string>)
    ensures forall x :: x in r <==>
      IsPortChannel(MemberKeys(db), x) || (x in PortNames(db) && !IsMember(MemberKeys(db), x))
  {
    r := AclBoundPorts(MemberKeys(db), PortNames(db));
  }

  /** A member port is bound only when it is also the name of a port channel;
      a port that belongs to no port channel is always bound. */
  lemma BoundPortsPartition(members: set<(string, string)>, ports: set<string>, r: set<string>, pc: string, p: string)
    requires forall x :: x in r <==> IsPortChannel(members, x) || (x in ports && !IsMember(members, x))
    ensures (pc, p) in members && !IsPortChannel(members, p) ==> p !in r && pc in r
    ensures p in ports && !IsMember(members, p) ==> p in r
    ensures p in r ==> IsPortChannel(members, p) || p in ports
  {
    if (pc, p) in members && !IsPortChannel(members, p) {
      assert IsMember(members, p);
      assert IsPortChannel(members, pc);
    }
  }
}
