/**
 Whole runs: what a node may have queued and answered after any sequence of messages, and why the
 packets in flight between any number of nodes run out.
 */
module NetworkRuns {
  import opened Bytes
  import opened PeerDatabase
  import opened P2pNode

  // ---------------------------------------------------------------- runs of one node

  function AfterAll(c: Config, s: State, ms: seq<Incoming>): State {
    if ms == [] then s else After(c, AfterAll(c, s, ms[..|ms| - 1]), ms[|ms| - 1])
  }

  /** A node that has just started. */
  predicate Started(s: State) {
    s.completed == {} && s.messages == []
  }

  /** A handshake our server accepts. */
  predicate Completes(c: Config, s: State, m: Incoming) {
    m.isServer && m.packet.Handshake? && Accepts(c, s.completed, m)
  }

  lemma {:induction false} CompletedGrows(c: Config, s: State, ms: seq<Incoming>, i: nat)
    requires i <= |ms|
    ensures AfterAll(c, s, ms[..i]).completed <= AfterAll(c, s, ms).completed
  {
    hide Introduced;
    hide Touched;
    if i == |ms| {
      assert ms[..i] == ms;
    } else {
      assert ms[..|ms| - 1][..i] == ms[..i];
      CompletedGrows(c, s, ms[..|ms| - 1], i);
    }
  }

  /** Whoever is in the set was let in by a handshake our server accepted. */
  lemma {:induction false} CompletedByHandshake(c: Config, s: State, ms: seq<Incoming>, k: Key) returns (i: nat)
    requires Started(s) && k in AfterAll(c, s, ms).completed
    ensures i < |ms| && ms[i].from == k && Completes(c, AfterAll(c, s, ms[..i]), ms[i])
  {
    hide Introduced;
    hide Touched;
    var front := ms[..|ms| - 1];
    if k in AfterAll(c, s, front).completed {
      i := CompletedByHandshake(c, s, front, k);
      assert front[..i] == ms[..i];
    } else {
      i := |ms| - 1;
    }
  }

  /** What may be queued: data for our network, from someone else, at a version we talk to. */
  predicate Proper(c: Config, q: Queued) {
    && q.packet.NetworkData? && q.packet.networkId == c.networkId
    && q.packet.version >= MINIMUM_VERSION && q.from != c.identity && !c.seedMode
  }

  /**
   Every message in the queue arrived as message `j`, is proper, and came from a sender whose
   handshake our server had accepted earlier, as message `i`.
   */
  lemma {:induction false} QueuedAfterHandshake(c: Config, s: State, ms: seq<Incoming>, n: nat) returns (i: nat, j: nat)
    requires Started(s) && n < |AfterAll(c, s, ms).messages|
    ensures i < j < |ms|
    ensures
      var q := AfterAll(c, s, ms).messages[n];
      && q == Queued(ms[j].from, ms[j].packet, ms[j].isServer) && Proper(c, q)
      && ms[i].from == q.from && Completes(c, AfterAll(c, s, ms[..i]), ms[i])
  {
    hide Introduced;
    hide Touched;
    var front, last := ms[..|ms| - 1], ms[|ms| - 1];
    var before := AfterAll(c, s, front);
    if n < |before.messages| {
      i, j := QueuedAfterHandshake(c, s, front, n);
      assert front[..i] == ms[..i];
    } else {
      j := |ms| - 1;
      i := CompletedByHandshake(c, s, front, last.from);
      assert front[..i] == ms[..i];
    }
  }

  /** No sender is ever answered a second handshake. */
  lemma OneHandshakeAnswer(c: Config, s: State, ms: seq<Incoming>, i: nat, j: nat)
    requires i < j < |ms| && ms[i].packet.Handshake? && ms[j].packet.Handshake?
    requires Answers(c, AfterAll(c, s, ms[..i]).completed, ms[i])
    requires Answers(c, AfterAll(c, s, ms[..j]).completed, ms[j])
    ensures ms[i].from != ms[j].from
  {
    hide Introduced;
    assert ms[..i + 1][..i] == ms[..i];
    assert ms[..j][..i + 1] == ms[..i + 1];
    CompletedGrows(c, s, ms[..j], i + 1);
  }

  /** A node's database stays keyed and never lists the node itself. */
  lemma {:induction false} RunKeepsKeyed(c: Config, s: State, ms: seq<Incoming>)
    requires Keyed(c.own, s.table)
    ensures Keyed(c.own, AfterAll(c, s, ms).table)
  {
    hide After;
    if ms != [] {
      RunKeepsKeyed(c, s, ms[..|ms| - 1]);
      StepKeepsKeyed(c, AfterAll(c, s, ms[..|ms| - 1]), ms[|ms| - 1]);
    }
  }

  // ---------------------------------------------------------------- a network of nodes

  /** A packet on its way to the server or to a client socket of a node. */
  datatype Flight = Flight(node: Key, m: Incoming)

  datatype Member = Member(config: Config, state: State)

  datatype Net = Net(members: map<Key, Member>, flights: seq<Flight>)

  /** The network only carries packets to its members. */
  ghost predicate Closed(net: Net) {
    forall i :: 0 <= i < |net.flights| ==> net.flights[i].node in net.members
  }

  /** The packets a handled message puts on the wire: an answer on its way to a client, or nothing. */
  ghost predicate PutsInFlight(member: Member, m: Incoming, added: seq<Flight>, members: set<Key>) {
    added == [] ||
    (&& |added| == 1 && Answers(member.config, member.state.completed, m)
     && added[0].node in members && !added[0].m.isServer
     && IsAnswer(member.config, After(member.config, member.state, m).table, m, Reply(m.from, added[0].m.packet)))
  }

  /** Some node handles one packet; its answer may arrive with any routing data, or be lost. */
  ghost predicate Handles(net: Net, k: nat, next: Net) {
    && k < |net.flights| && net.flights[k].node in net.members
    && var node, m := net.flights[k].node, net.flights[k].m;
       var member := net.members[node];
       next.members == net.members[node := member.(state := After(member.config, member.state, m))] &&
       |next.flights| >= |net.flights| - 1 &&
       next.flights[..|net.flights| - 1] == net.flights[..k] + net.flights[k + 1..] &&
       PutsInFlight(member, m, next.flights[|net.flights| - 1..], net.members.Keys)
  }

  /** Twice the packets to servers plus the packets to clients. */
  function Load(fs: seq<Flight>): nat {
    if fs == [] then 0 else Load(fs[..|fs| - 1]) + Weight(fs[|fs| - 1])
  }

  function Weight(f: Flight): nat {
    if f.m.isServer then 2 else 1
  }

  lemma {:induction false} LoadConcat(a: seq<Flight>, b: seq<Flight>)
    ensures Load(a + b) == Load(a) + Load(b)
  {
    if b == [] {
      assert a + b == a;
    } else {
      assert (a + b)[..|a + b| - 1] == a + b[..|b| - 1];
      LoadConcat(a, b[..|b| - 1]);
    }
  }

  lemma LoadWithout(fs: seq<Flight>, k: nat)
    requires k < |fs|
    ensures Load(fs) == Load(fs[..k] + fs[k + 1..]) + Weight(fs[k])
  {
    hide Load;
    hide Weight;
    assert fs == (fs[..k] + [fs[k]]) + fs[k + 1..];
    LoadConcat(fs[..k] + [fs[k]], fs[k + 1..]);
    LoadConcat(fs[..k], [fs[k]]);
    LoadConcat(fs[..k], fs[k + 1..]);
    LoadOne(fs[k]);
  }

  lemma LoadOne(f: Flight)
    ensures Load([f]) == Weight(f)
  {
    assert [f][..0] == [];
  }

  /** Every handled packet lightens the load, and the network stays closed. */
  lemma StepDrains(net: Net, k: nat, next: Net)
    requires Closed(net) && Handles(net, k, next)
    ensures Load(next.flights) < Load(net.flights) && Closed(next)
  {
    hide After;
    hide Accepts;
    hide IsAnswer;
    hide Load;
    var n := |net.flights| - 1;
    var added := next.flights[n..];
    LoadWithout(net.flights, k);
    assert next.flights == next.flights[..n] + added;
    LoadConcat(next.flights[..n], added);
    FewAdded(net.members[net.flights[k].node], net.flights[k].m, added, net.members.Keys);
    forall i | 0 <= i < |next.flights| ensures next.flights[i].node in net.members {
      if i < n {
        assert next.flights[i] == (net.flights[..k] + net.flights[k + 1..])[i];
      } else {
        assert next.flights[i] == added[i - n];
      }
    }
  }

  lemma FewAdded(member: Member, m: Incoming, added: seq<Flight>, members: set<Key>)
    requires PutsInFlight(member, m, added, members)
    ensures Load(added) < if m.isServer then 2 else 1
    ensures forall i :: 0 <= i < |added| ==> added[i].node in members
  {
    hide After;
    hide Accepts;
    hide IsAnswer;
  }

  ghost predicate Step(net: Net, next: Net) {
    exists k :: Handles(net, k, next)
  }

  /** A run in which only packets in flight are handled, whichever comes next. */
  ghost predicate Run(nets: seq<Net>) {
    |nets| <= 1 || (Run(nets[..|nets| - 1]) && Step(nets[|nets| - 2], nets[|nets| - 1]))
  }

  /** No reply loop: a run is never longer than the load it started with. */
  lemma {:induction false} RunsDrain(nets: seq<Net>)
    requires nets != [] && Closed(nets[0]) && Run(nets)
    ensures |nets| - 1 + Load(nets[|nets| - 1].flights) <= Load(nets[0].flights)
    ensures Closed(nets[|nets| - 1])
  {
    hide Handles;
    hide Closed;
    hide Load;
    var n := |nets| - 1;
    if n > 0 {
      RunsDrain(nets[..n]);
      var k :| Handles(nets[n - 1], k, nets[n]);
      StepDrains(nets[n - 1], k, nets[n]);
    }
  }

  /** A run that cannot go on has handled every packet. */
  lemma StuckMeansEmpty(net: Net)
    requires Closed(net)
    ensures net.flights == [] <==> forall next :: !Step(net, next)
  {
    if net.flights != [] {
      var node, m := net.flights[0].node, net.flights[0].m;
      var member := net.members[node];
      var next := Net(net.members[node := member.(state := After(member.config, member.state, m))], net.flights[1..]);
      assert Handles(net, 0, next) && Step(net, next);
    }
  }
}
