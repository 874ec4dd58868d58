/**
 The peer-to-peer node: what it does with each packet, what it answers, and how it keeps its outgoing
 connections up. Sockets, threads and clocks are arguments; every handled message is one step.
 */
module P2pNode {
  import opened Bytes
  import opened Collections
  import opened Errors
  import opened PeerDatabase

  const VERSION: Word := 1
  const MINIMUM_VERSION := 1
  const MAXIMUM_PEERS_EXCHANGED := 250
  const DEFAULT_CONNECTION_COUNT := 3 + 8

  type Word = x: int | 0 <= x < 0x1_0000

  datatype Packet =
    | Handshake(version: Word, peerId: Key, peerPort: Port, networkId: Key, peers: seq<Peer>)
    | PeerExchange(version: Word, peerId: Key, peerPort: Port, networkId: Key, peers: seq<Peer>)
    | Keepalive(version: Word, peerId: Key)
    | NetworkData(version: Word, networkId: Key, payload: Data)
    /** An unknown type, or bytes that do not parse. */
    | Unreadable

  /** A message from the socket: who sent it, from where, and whether our server received it. */
  datatype Incoming = Incoming(from: Key, address: Address, packet: Packet, isServer: bool, now: uint64)

  datatype Queued = Queued(from: Key, packet: Packet, isServer: bool)

  /** A reply routed through the server, or a request on one of our own connections. */
  datatype Sent = Reply(to: Key, packet: Packet) | Request(client: Key, packet: Packet)

  datatype Client = Client(address: Address, port: Port)

  datatype Config = Config(identity: Key, own: Key, port: Port, networkId: Key, seedMode: bool)

  datatype State = State(table: Table, completed: set<Key>, messages: seq<Queued>)

  // ---------------------------------------------------------------- one step on values

  /** Peers named in a packet are added one by one, except the sender itself. */
  function Learnt(own: Key, table: Table, sender: Key, peers: seq<Peer>, now: uint64): Table {
    if peers == [] then table
    else
      var front := Learnt(own, table, sender, peers[..|peers| - 1], now);
      var last := peers[|peers| - 1];
      if last.peerId == sender then front else Added(own, front, last, now)
  }

  function Introduced(own: Key, table: Table, m: Incoming): Table
    requires m.packet.Handshake? || m.packet.PeerExchange?
  {
    var sender := Peer(m.address, m.packet.peerPort, m.packet.peerId, m.packet.networkId, m.now);
    Learnt(own, Added(own, table, sender, m.now), m.packet.peerId, m.packet.peers, m.now)
  }

  /** The message passes every check of its handler. */
  predicate Accepts(c: Config, completed: set<Key>, m: Incoming) {
    match m.packet
    case Handshake(version, peerId, _, _, peers) =>
      && !(m.isServer && m.from in completed) && m.from != c.identity && peerId != c.own
      && version >= MINIMUM_VERSION && |peers| <= MAXIMUM_PEERS_EXCHANGED
    case PeerExchange(version, peerId, _, _, _) =>
      && (m.isServer ==> m.from in completed) && m.from != c.identity && peerId != c.own
      && version >= MINIMUM_VERSION
    case Keepalive(version, peerId) =>
      m.isServer ==>
        m.from in completed && m.from != c.identity && peerId != c.own && version >= MINIMUM_VERSION
    case NetworkData(version, networkId, _) =>
      && !c.seedMode && networkId == c.networkId && m.from in completed && m.from != c.identity
      && version >= MINIMUM_VERSION
    case Unreadable => false
  }

  function After(c: Config, s: State, m: Incoming): State {
    if !Accepts(c, s.completed, m) then s
    else
      match m.packet
      case Handshake(_, _, _, _, _) =>
        s.(table := Introduced(c.own, s.table, m),
           completed := if m.isServer then s.completed + {m.from} else s.completed)
      case PeerExchange(_, _, _, _, _) => s.(table := Introduced(c.own, s.table, m))
      case Keepalive(_, peerId) => s.(table := Touched(c.own, s.table, peerId, m.now))
      case NetworkData(_, _, _) => s.(messages := s.messages + [Queued(m.from, m.packet, m.isServer)])
  }

  /** The node answers what its server accepts, except for data. */
  predicate Answers(c: Config, completed: set<Key>, m: Incoming) {
    m.isServer && !m.packet.NetworkData? && Accepts(c, completed, m)
  }

  /** At most 250 known peers, as many as there are below that, none twice. */
  ghost predicate Advertised(table: Table, ps: seq<Peer>) {
    Listing(table, ps) && |ps| == if |table| > MAXIMUM_PEERS_EXCHANGED then MAXIMUM_PEERS_EXCHANGED else |table|
  }

  /** The answer to `m`, given the table after handling it. */
  ghost predicate IsAnswer(c: Config, table: Table, m: Incoming, r: Sent) {
    && r.Reply? && r.to == m.from
    && match m.packet
       case Handshake(_, _, _, _, _) =>
         r.packet.Handshake? && r.packet == Handshake(VERSION, c.own, c.port, c.networkId, r.packet.peers) &&
         Advertised(table, r.packet.peers)
       case PeerExchange(_, _, _, _, _) =>
         r.packet.PeerExchange? && r.packet == PeerExchange(VERSION, c.own, c.port, c.networkId, r.packet.peers) &&
         Advertised(table, r.packet.peers)
       case Keepalive(_, _) => r.packet == Keepalive(VERSION, c.own)
       case _ => false
  }

  /** What one handled message may add to what has been sent. */
  ghost predicate Sends(c: Config, s: State, m: Incoming, before: seq<Sent>, after: seq<Sent>) {
    if Answers(c, s.completed, m) then
      |after| == |before| + 1 && after[..|before|] == before && IsAnswer(c, After(c, s, m).table, m, after[|before|])
    else after == before
  }

  // ---------------------------------------------------------------- what is learnt

  /** Seen within the last day, in the unsigned arithmetic of the clock. */
  ghost predicate Recent(entry: Peer, now: uint64) {
    entry.lastSeen >= (now - 86400) % 0x1_0000_0000_0000_0000
  }

  /** Entry `i` is recent, and no later one for the same id is. */
  ghost predicate LastNamed(peers: seq<Peer>, now: uint64, i: nat) {
    && i < |peers| && Recent(peers[i], now)
    && forall j :: i < j < |peers| && peers[j].peerId == peers[i].peerId ==> !Recent(peers[j], now)
  }

  ghost predicate NotNamed(peers: seq<Peer>, now: uint64, id: Key) {
    forall i :: 0 <= i < |peers| && peers[i].peerId == id ==> !Recent(peers[i], now)
  }

  ghost predicate SameEntry(a: Table, b: Table, k: Key) {
    (k in a <==> k in b) && (k in a ==> a[k] == b[k])
  }

  /** The list adds its last recent entry for every id but ours and the sender's, and changes nothing else. */
  ghost predicate ListLearnt(own: Key, before: Table, sender: Key, peers: seq<Peer>, now: uint64, after: Table) {
    && (forall i: nat :: LastNamed(peers, now, i) && peers[i].peerId != own && peers[i].peerId != sender ==>
          peers[i].peerId in after && after[peers[i].peerId] == peers[i])
    && (forall k :: k == own || k == sender || NotNamed(peers, now, k) ==> SameEntry(before, after, k))
  }

  /**
   After an accepted introduction every recent peer it names, but for the sender and us, is known as it was
   last named; the sender is known under the address it was seen at, unless the clock is less than a day
   old; nobody else has changed.
   */
  ghost predicate Introduction(own: Key, before: Table, m: Incoming, after: Table)
    requires m.packet.Handshake? || m.packet.PeerExchange?
  {
    var sender := Peer(m.address, m.packet.peerPort, m.packet.peerId, m.packet.networkId, m.now);
    ListLearnt(own, if m.now >= 86400 then before[sender.peerId := sender] else before,
               sender.peerId, m.packet.peers, m.now, after)
  }

  lemma {:induction false} LearntFromList(own: Key, table: Table, sender: Key, peers: seq<Peer>, now: uint64)
    ensures ListLearnt(own, table, sender, peers, now, Learnt(own, table, sender, peers, now))
  {
    hide Recent;
    hide PruneTime;
    if peers != [] {
      var n := |peers| - 1;
      var front, last := peers[..n], peers[n];
      var before, after := Learnt(own, table, sender, front, now), Learnt(own, table, sender, peers, now);
      LearntFromList(own, table, sender, front, now);
      assert Recent(last, now) <==> last.lastSeen >= PruneTime(now) by { RecentIff(last, now); }
      assert forall i :: 0 <= i < n ==> front[i] == peers[i];
      forall i: nat | LastNamed(peers, now, i) && peers[i].peerId != own && peers[i].peerId != sender
        ensures peers[i].peerId in after && after[peers[i].peerId] == peers[i]
      {
        if i < n {
          assert LastNamed(front, now, i);
        }
      }
      forall k | k == own || k == sender || NotNamed(peers, now, k) ensures SameEntry(table, after, k) {
        assert NotNamed(peers, now, k) ==> NotNamed(front, now, k);
        assert SameEntry(table, before, k);
      }
    }
  }

  lemma RecentIff(entry: Peer, now: uint64)
    ensures Recent(entry, now) <==> entry.lastSeen >= PruneTime(now)
    ensures now >= PruneTime(now) <==> now >= 86400
  {
  }

  lemma IntroducedLearns(own: Key, table: Table, m: Incoming)
    requires m.packet.Handshake? || m.packet.PeerExchange?
    requires m.packet.peerId != own
    ensures Introduction(own, table, m, Introduced(own, table, m))
  {
    hide PruneTime;
    hide ListLearnt;
    hide Learnt;
    var sender := Peer(m.address, m.packet.peerPort, m.packet.peerId, m.packet.networkId, m.now);
    RecentIff(sender, m.now);
    LearntFromList(own, Added(own, table, sender, m.now), sender.peerId, m.packet.peers, m.now);
  }

  lemma {:induction false} LearntKeyed(own: Key, table: Table, sender: Key, peers: seq<Peer>, now: uint64)
    requires Keyed(own, table)
    ensures Keyed(own, Learnt(own, table, sender, peers, now))
  {
    hide PruneTime;
    if peers != [] {
      LearntKeyed(own, table, sender, peers[..|peers| - 1], now);
    }
  }

  /** Handling a message keeps every peer under its own id and us out of the table. */
  lemma StepKeepsKeyed(c: Config, s: State, m: Incoming)
    requires Keyed(c.own, s.table)
    ensures Keyed(c.own, After(c, s, m).table)
  {
    hide PruneTime;
    if m.packet.Handshake? || m.packet.PeerExchange? {
      var sender := Peer(m.address, m.packet.peerPort, m.packet.peerId, m.packet.networkId, m.now);
      LearntKeyed(c.own, Added(c.own, s.table, sender, m.now), m.packet.peerId, m.packet.peers, m.now);
    }
  }

  /** Nothing the node sends in answer names the node itself or more than 250 peers. */
  lemma AnswersAreDiscreet(c: Config, s: State, m: Incoming, r: Sent)
    requires Keyed(c.own, s.table) && IsAnswer(c, After(c, s, m).table, m, r)
    ensures r.packet.Handshake? || r.packet.PeerExchange? ==>
      |r.packet.peers| <= MAXIMUM_PEERS_EXCHANGED &&
      forall i :: 0 <= i < |r.packet.peers| ==> r.packet.peers[i].peerId != c.own
  {
    StepKeepsKeyed(c, s, m);
  }

  // ---------------------------------------------------------------- the connection target

  /** `DEFAULT_CONNECTION_COUNT - outgoing_connections()` in unsigned 64-bit arithmetic. */
  function Missing(connections: nat): nat {
    (DEFAULT_CONNECTION_COUNT - connections) % TWO_64
  }

  type ClientKey = (Address, Port) -> Key
  type Dial = (Address, Port) -> ErrorCode
  type Clients = map<Key, Client>

  /** The clients still connected. */
  function Connected(clients: Clients, connected: Key -> bool): Clients {
    map k | k in clients && connected(k) :: clients[k]
  }

  /** The clients after trying `ps` in turn: not ourselves, not a host we are connected to already. */
  function ConnectedTo(own: Key, clientKey: ClientKey, clients: Clients, ps: seq<Peer>, dial: Dial): Clients {
    if ps == [] then clients
    else
      var front, last := ConnectedTo(own, clientKey, clients, ps[..|ps| - 1], dial), ps[|ps| - 1];
      var key := clientKey(last.address, last.port);
      if last.peerId == own || key in front || dial(last.address, last.port) != SUCCESS then front
      else front[key := Client(last.address, last.port)]
  }

  /** Peer `i` is not us, is filed under `k`, and answers. */
  ghost predicate Reached(own: Key, clientKey: ClientKey, ps: seq<Peer>, dial: Dial, i: nat, k: Key) {
    && i < |ps| && ps[i].peerId != own && clientKey(ps[i].address, ps[i].port) == k
    && dial(ps[i].address, ps[i].port) == SUCCESS
  }

  /**
   Which clients there are after a round: those there were, as they were, and for every other key under
   which some offered peer was reached the first such peer.
   */
  lemma {:induction false} ConnectedToIff(own: Key, clientKey: ClientKey, clients: Clients, ps: seq<Peer>, dial: Dial,
                                          k: Key)
    ensures
      var after := ConnectedTo(own, clientKey, clients, ps, dial);
      && (k in after <==> k in clients || exists i: nat :: Reached(own, clientKey, ps, dial, i, k))
      && (k in clients ==> after[k] == clients[k])
      && (k !in clients ==> forall i: nat ::
            Reached(own, clientKey, ps, dial, i, k) &&
            (forall j: nat :: j < i ==> !Reached(own, clientKey, ps, dial, j, k)) ==>
              k in after && after[k] == Client(ps[i].address, ps[i].port))
  {
    if ps != [] {
      var n := |ps| - 1;
      ConnectedToIff(own, clientKey, clients, ps[..n], dial, k);
      forall i: nat
        ensures Reached(own, clientKey, ps, dial, i, k) <==>
          Reached(own, clientKey, ps[..n], dial, i, k) || (i == n && Reached(own, clientKey, ps, dial, n, k))
      {
      }
      if k !in clients && k in ConnectedTo(own, clientKey, clients, ps, dial) {
        if k in ConnectedTo(own, clientKey, clients, ps[..n], dial) {
          var i: nat :| Reached(own, clientKey, ps[..n], dial, i, k);
          assert Reached(own, clientKey, ps, dial, i, k);
        } else {
          assert Reached(own, clientKey, ps, dial, n, k);
        }
      }
    }
  }

  lemma {:induction false} ConnectedToSize(own: Key, clientKey: ClientKey, clients: Clients, ps: seq<Peer>, dial: Dial)
    ensures |clients| <= |ConnectedTo(own, clientKey, clients, ps, dial)| <= |clients| + |ps|
    ensures clients.Keys <= ConnectedTo(own, clientKey, clients, ps, dial).Keys
  {
    if ps != [] {
      ConnectedToSize(own, clientKey, clients, ps[..|ps| - 1], dial);
    }
  }

  /** The peers the database may hand out for a round: no more than are missing, none if none is. */
  predicate Offered(kept: Clients, ps: seq<Peer>) {
    |ps| <= Missing(|kept|)
  }

  /**
   A round respects the target for every offer of peers and every dialling result if and only if the
   connections still up respect it.
   */
  lemma TargetRespectedIff(own: Key, clientKey: ClientKey, kept: Clients)
    requires |kept| < TWO_64
    ensures |kept| <= 11 <==>
      forall ps, dial :: Offered(kept, ps) ==> |ConnectedTo(own, clientKey, kept, ps, dial)| <= 11
  {
    if |kept| <= DEFAULT_CONNECTION_COUNT {
      forall ps, dial | Offered(kept, ps)
        ensures |ConnectedTo(own, clientKey, kept, ps, dial)| <= DEFAULT_CONNECTION_COUNT
      {
        ConnectedToSize(own, clientKey, kept, ps, dial);
      }
    } else {
      assert Offered(kept, []);
      var dial: Dial := (a, q) => SUCCESS;
      assert |ConnectedTo(own, clientKey, kept, [], dial)| > DEFAULT_CONNECTION_COUNT;
    }
  }

  /** Above the target the difference wraps around, and the manager goes on opening connections. */
  lemma AboveTargetGrows(own: Key, clientKey: ClientKey, kept: Clients, p: Peer, dial: Dial)
    requires 11 < |kept| < TWO_64
    requires p.peerId != own && clientKey(p.address, p.port) !in kept && dial(p.address, p.port) == SUCCESS
    ensures Offered(kept, [p]) && |ConnectedTo(own, clientKey, kept, [p], dial)| == |kept| + 1
  {
    assert [p][..0] == [];
    assert Missing(|kept|) == DEFAULT_CONNECTION_COUNT - |kept| + TWO_64;
  }

  /** What happens between and in two rounds: who is still connected, who is offered, who answers. */
  datatype Round = Round(connected: Key -> bool, offered: seq<Peer>, dial: Dial)

  function AfterRounds(own: Key, clientKey: ClientKey, clients: Clients, rounds: seq<Round>): Clients {
    if rounds == [] then clients
    else
      var front, last := AfterRounds(own, clientKey, clients, rounds[..|rounds| - 1]), rounds[|rounds| - 1];
      ConnectedTo(own, clientKey, Connected(front, last.connected), last.offered, last.dial)
  }

  ghost predicate RoundsOffered(own: Key, clientKey: ClientKey, clients: Clients, rounds: seq<Round>) {
    rounds == [] ||
    var front, last := rounds[..|rounds| - 1], rounds[|rounds| - 1];
    && RoundsOffered(own, clientKey, clients, front)
    && Offered(Connected(AfterRounds(own, clientKey, clients, front), last.connected), last.offered)
  }

  /** Once at or below the target, always at or below it. */
  lemma {:induction false} TargetKept(own: Key, clientKey: ClientKey, clients: Clients, rounds: seq<Round>)
    requires |clients| <= 11 && RoundsOffered(own, clientKey, clients, rounds)
    ensures |AfterRounds(own, clientKey, clients, rounds)| <= 11
  {
    hide ConnectedTo;
    hide Connected;
    hide Missing;
    if rounds != [] {
      var n := |rounds| - 1;
      TargetKept(own, clientKey, clients, rounds[..n]);
      var before := AfterRounds(own, clientKey, clients, rounds[..n]);
      var kept := Connected(before, rounds[n].connected);
      KeptSize(before, rounds[n].connected);
      TargetRespectedIff(own, clientKey, kept);
      assert Offered(kept, rounds[n].offered);
      assert |ConnectedTo(own, clientKey, kept, rounds[n].offered, rounds[n].dial)| <= DEFAULT_CONNECTION_COUNT;
    }
  }

  lemma KeptSize(clients: Clients, connected: Key -> bool)
    ensures |Connected(clients, connected)| <= |clients|
  {
    var kept := Connected(clients, connected);
    SubsetSize(kept.Keys, clients.Keys);
    assert |kept.Keys| == |kept| && |clients.Keys| == |clients|;
  }

  // ---------------------------------------------------------------- the node object

  class Node {
    const identity: Key
    const port: Port
    const networkId: Key
    const seedMode: bool
    const peerDb: PeerDB
    const shuffle: seq<Peer> -> seq<Peer>
    /** The key a host and port are filed under. */
    const clientKey: ClientKey

    var completed: set<Key>
    var messages: seq<Queued>
    var clients: Clients
    var sent: seq<Sent>

    function Settings(): Config {
      Config(identity, peerDb.own, port, networkId, seedMode)
    }

    function Value(): State
      reads this, peerDb
    {
      State(peerDb.table, completed, messages)
    }

    ghost predicate Valid()
      reads this, peerDb
    {
      peerDb.Valid() && ShufflesOnly(shuffle)
    }

    /** Opens the database and prunes it once. */
    constructor (identity: Key, port: Port, networkId: Key, seedMode: bool, peerDb: PeerDB,
                 shuffle: seq<Peer> -> seq<Peer>, clientKey: ClientKey, now: uint64)
      requires peerDb.Valid() && ShufflesOnly(shuffle)
      modifies peerDb
      ensures Valid() && this.peerDb == peerDb && clients == map[] && sent == []
      ensures Value() == State(Pruned(old(peerDb.table), now), {}, [])
      ensures Settings() == Config(identity, peerDb.own, port, networkId, seedMode)
    {
      this.identity, this.port, this.networkId, this.seedMode := identity, port, networkId, seedMode;
      this.peerDb, this.shuffle, this.clientKey := peerDb, shuffle, clientKey;
      completed, messages, clients, sent := {}, [], map[], [];
      new;
      peerDb.Prune(now, shuffle);
    }

    method BuildPeerList() returns (ps: seq<Peer>)
      requires Valid()
      ensures Advertised(peerDb.table, ps)
    {
      hide Listing;
      hide Ids;
      hide ShufflesOnly;
      ps := peerDb.Peers(0, EMPTY_KEY, shuffle);
      assert Members(peerDb.table, EMPTY_KEY) == peerDb.table.Keys;
      if |ps| > MAXIMUM_PEERS_EXCHANGED {
        ListingPrefix(peerDb.table, ps, MAXIMUM_PEERS_EXCHANGED);
        ps := ps[..MAXIMUM_PEERS_EXCHANGED];
      }
    }

    /** The sender first, then the peers it names. */
    method Learn(m: Incoming)
      requires Valid() && (m.packet.Handshake? || m.packet.PeerExchange?)
      modifies peerDb
      ensures Valid() && peerDb.table == Introduced(peerDb.own, old(peerDb.table), m)
      ensures m.packet.peerId != peerDb.own ==> Introduction(peerDb.own, old(peerDb.table), m, peerDb.table)
    {
      hide Introduction;
      hide Added;
      hide ShufflesOnly;
      hide Keyed;
      if m.packet.peerId != peerDb.own {
        IntroducedLearns(peerDb.own, peerDb.table, m);
      }
      var _ := peerDb.Add(Peer(m.address, m.packet.peerPort, m.packet.peerId, m.packet.networkId, m.now), m.now);
      ghost var start := peerDb.table;
      var peers := m.packet.peers;
      for i := 0 to |peers|
        invariant Valid() && peerDb.table == Learnt(peerDb.own, start, m.packet.peerId, peers[..i], m.now)
      {
        assert peers[..i + 1][..i] == peers[..i];
        if peers[i].peerId != m.packet.peerId {
          var _ := peerDb.Add(peers[i], m.now);
        }
      }
      assert peers[..|peers|] == peers;
    }

    /** One reply with a list of known peers has been sent since. */
    ghost predicate AnsweredWithPeers(before: seq<Sent>, to: Key, answer: seq<Peer> -> Packet)
      reads this, peerDb
    {
      exists ps :: Advertised(peerDb.table, ps) && sent == before + [Reply(to, answer(ps))]
    }

    /** Dropped with nothing changed unless it passes every check; then learnt from, and answered by a server. */
    method HandleHandshake(m: Incoming)
      requires Valid() && m.packet.Handshake?
      modifies this`completed, this`sent, peerDb
      ensures Valid() && Value() == After(Settings(), old(Value()), m)
      ensures Sends(Settings(), old(Value()), m, old(sent), sent)
      ensures
        var ok := && !(m.isServer && m.from in old(completed)) && m.from != identity
                  && m.packet.peerId != peerDb.own && m.packet.version >= 1 && |m.packet.peers| <= 250;
        && (if ok then Introduction(peerDb.own, old(peerDb.table), m, peerDb.table)
            else peerDb.table == old(peerDb.table))
        && completed == old(completed) + (if ok && m.isServer then {m.from} else {})
        && if !ok || !m.isServer then sent == old(sent)
           else AnsweredWithPeers(old(sent), m.from, ps => Handshake(1, peerDb.own, port, networkId, ps))
    {
      hide Introduction;
      hide Introduced;
      hide Advertised;
      hide ShufflesOnly;
      if m.isServer && m.from in completed {
        return;
      }
      if m.from == identity || m.packet.peerId == peerDb.own {
        return;
      }
      if m.packet.version < MINIMUM_VERSION {
        return;
      }
      if |m.packet.peers| > MAXIMUM_PEERS_EXCHANGED {
        return;
      }
      Learn(m);
      if m.isServer {
        var peers := BuildPeerList();
        sent := sent + [Reply(m.from, Handshake(VERSION, peerDb.own, port, networkId, peers))];
        completed := completed + {m.from};
      }
    }

    /** The same, from those who have shaken hands with our server, or on one of our own connections. */
    method HandlePeerExchange(m: Incoming)
      requires Valid() && m.packet.PeerExchange?
      modifies this`sent, peerDb
      ensures Valid() && Value() == After(Settings(), old(Value()), m)
      ensures Sends(Settings(), old(Value()), m, old(sent), sent)
      ensures
        var ok := && (m.isServer ==> m.from in completed) && m.from != identity
                  && m.packet.peerId != peerDb.own && m.packet.version >= 1;
        && (if ok then Introduction(peerDb.own, old(peerDb.table), m, peerDb.table)
            else peerDb.table == old(peerDb.table))
        && if !ok || !m.isServer then sent == old(sent)
           else AnsweredWithPeers(old(sent), m.from, ps => PeerExchange(1, peerDb.own, port, networkId, ps))
    {
      hide Introduction;
      hide Introduced;
      hide Advertised;
      hide ShufflesOnly;
      if m.isServer && m.from !in completed {
        return;
      }
      if m.from == identity || m.packet.peerId == peerDb.own {
        return;
      }
      if m.packet.version < MINIMUM_VERSION {
        return;
      }
      Learn(m);
      if m.isServer {
        var peers := BuildPeerList();
        sent := sent + [Reply(m.from, PeerExchange(VERSION, peerDb.own, port, networkId, peers))];
      }
    }

    /** A known sender is refreshed, unless the clock is less than a day old; a server answers. */
    method HandleKeepalive(m: Incoming)
      requires Valid() && m.packet.Keepalive?
      modifies this`sent, peerDb
      ensures Valid() && Value() == After(Settings(), old(Value()), m)
      ensures Sends(Settings(), old(Value()), m, old(sent), sent)
      ensures
        var id, before := m.packet.peerId, old(peerDb.table);
        var ok := m.isServer ==>
          m.from in completed && m.from != identity && id != peerDb.own && m.packet.version >= 1;
        && (if ok && id in before && m.now >= 86400 then peerDb.table == before[id := before[id].(lastSeen := m.now)]
            else peerDb.table == before)
        && sent == old(sent) + if ok && m.isServer then [Reply(m.from, Keepalive(1, peerDb.own))] else []
    {
      hide Touched;
      hide ShufflesOnly;
      if !m.isServer {
        var _ := peerDb.Touch(m.packet.peerId, m.now);
        return;
      }
      if m.from !in completed {
        return;
      }
      if m.from == identity || m.packet.peerId == peerDb.own {
        return;
      }
      if m.packet.version < MINIMUM_VERSION {
        return;
      }
      sent := sent + [Reply(m.from, Keepalive(VERSION, peerDb.own))];
      var _ := peerDb.Touch(m.packet.peerId, m.now);
    }

    /** Queued if it is for our network and from one who has shaken hands, except in seed mode. */
    method HandleData(m: Incoming)
      requires Valid() && m.packet.NetworkData?
      modifies this`messages
      ensures Valid() && Value() == After(Settings(), old(Value()), m)
      ensures Sends(Settings(), old(Value()), m, old(sent), sent)
      ensures
        var ok := && !seedMode && m.packet.networkId == networkId && m.from in completed && m.from != identity
                  && m.packet.version >= 1;
        messages == old(messages) + if ok then [Queued(m.from, m.packet, m.isServer)] else []
    {
      if seedMode {
        return;
      }
      if m.packet.networkId != networkId {
        return;
      }
      if m.from !in completed {
        return;
      }
      if m.from == identity {
        return;
      }
      if m.packet.version < MINIMUM_VERSION {
        return;
      }
      messages := messages + [Queued(m.from, m.packet, m.isServer)];
    }

    /** Dispatch on the packet type; what cannot be read is dropped. */
    method HandleIncomingMessage(m: Incoming)
      requires Valid()
      modifies this`completed, this`messages, this`sent, peerDb
      ensures Valid() && Value() == After(Settings(), old(Value()), m)
      ensures Sends(Settings(), old(Value()), m, old(sent), sent)
    {
      hide IsAnswer;
      match m.packet
      case Handshake(_, _, _, _, _) => HandleHandshake(m);
      case PeerExchange(_, _, _, _, _) => HandlePeerExchange(m);
      case Keepalive(_, _) => HandleKeepalive(m);
      case NetworkData(_, _, _) => HandleData(m);
      case Unreadable =>
    }

    // -------------------------------------------------------------- outgoing connections

    /** Connects unless already connected; `dialled` is what the socket reports. */
    method Connect(address: Address, remotePort: Port, dialled: ErrorCode) returns (e: ErrorCode)
      requires Valid()
      modifies this`clients, this`sent
      ensures Valid()
      ensures e == if clientKey(address, remotePort) in old(clients) then P2P_DUPE_CONNECT else dialled
      ensures clients ==
        if e == SUCCESS then old(clients)[clientKey(address, remotePort) := Client(address, remotePort)]
        else old(clients)
      ensures e != SUCCESS ==> sent == old(sent)
      ensures e == SUCCESS ==> exists ps ::
        && Advertised(peerDb.table, ps)
        && sent == old(sent) + [Request(clientKey(address, remotePort), Handshake(1, peerDb.own, port, networkId, ps))]
    {
      hide Advertised;
      hide ShufflesOnly;
      var key := clientKey(address, remotePort);
      if key in clients {
        return P2P_DUPE_CONNECT;
      }
      if dialled != SUCCESS {
        return dialled;
      }
      var peers := BuildPeerList();
      sent := sent + [Request(key, Handshake(VERSION, peerDb.own, port, networkId, peers))];
      clients := clients[key := Client(address, remotePort)];
      e := SUCCESS;
    }

    method DropDisconnected(connected: Key -> bool)
      modifies this`clients
      ensures clients == Connected(old(clients), connected)
      ensures forall k :: k in clients <==> k in old(clients) && connected(k)
      ensures forall k :: k in clients ==> clients[k] == old(clients)[k]
    {
      var toDelete: set<Key> := {};
      var todo := clients.Keys;
      while todo != {}
        invariant todo <= clients.Keys && clients == old(clients)
        invariant toDelete == set k | k in clients.Keys - todo && !connected(k)
        decreases todo
      {
        var k :| k in todo;
        if !connected(k) {
          toDelete := toDelete + {k};
        }
        todo := todo - {k};
      }
      clients := clients - toDelete;
    }

    /**
     One round of the connection manager: connections that are down go, then the peers handed out for
     the missing ones are tried in turn.
     */
    method ManageConnections(connected: Key -> bool, dial: Dial)
      requires Valid() && |clients| < TWO_64
      modifies this`clients, this`sent
      ensures Valid()
      ensures
        var kept, wanted := Connected(old(clients), connected), Wanted(peerDb.table);
        exists ps ::
          && Listing(peerDb.table, ps) && Ids(ps) <= wanted && Offered(kept, ps)
          && (|ps| == Missing(|kept|) || Ids(ps) == wanted)
          && clients == ConnectedTo(peerDb.own, clientKey, kept, ps, dial)
    {
      WantedAreMembers(peerDb.table);
      hide Wanted;
      hide Advertised;
      hide ShufflesOnly;
      hide Listing;
      hide Ids;
      hide Keyed;
      hide Members;
      DropDisconnected(connected);
      ghost var kept := clients;
      var missing := Missing(|clients|);
      NoPeers(peerDb.table, Network());
      if missing > 0 {
        var peers := peerDb.Peers(missing, Network(), shuffle);
        for i := 0 to |peers|
          invariant Valid() && clients == ConnectedTo(peerDb.own, clientKey, kept, peers[..i], dial)
        {
          assert peers[..i + 1][..i] == peers[..i];
          if peers[i].peerId == peerDb.own {
            continue;
          }
          var _ := Connect(peers[i].address, peers[i].port, dial(peers[i].address, peers[i].port));
        }
        assert peers[..|peers|] == peers;
        AllIfFew(peerDb.table, Network(), peers);
      } else {
        assert ConnectedTo(peerDb.own, clientKey, kept, [], dial) == clients;
      }
    }

    /** The peers a round may be offered: in seed mode, or without a network of our own, all there are. */
    ghost function Wanted(table: Table): set<Key> {
      set k | k in table && (seedMode || networkId == EMPTY_KEY || table[k].networkId == networkId)
    }

    /** The network that peers are asked for; the empty id asks for all of them. */
    function Network(): Key {
      if seedMode then EMPTY_KEY else networkId
    }

    lemma WantedAreMembers(table: Table)
      ensures Wanted(table) == Members(table, Network())
    {
    }
  }

  lemma NoPeers(table: Table, networkId: Key)
    ensures Listing(table, []) && Ids([]) <= Members(table, networkId)
  {
  }

  lemma AllIfFew(table: Table, networkId: Key, ps: seq<Peer>)
    requires Listing(table, ps) && Ids(ps) <= Members(table, networkId)
    ensures |ps| == |Members(table, networkId)| ==> Ids(ps) == Members(table, networkId)
  {
    ListingCounted(table, ps);
    SubsetSize(Ids(ps), Members(table, networkId));
  }
}
