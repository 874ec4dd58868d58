/**
 The peer database: who is known, when they were last seen, and which of them are handed out.
 The clock and the shuffle are arguments.
 */
module PeerDatabase {
  import opened Bytes
  import opened Collections
  import opened Errors

  type Address = Data
  type Port = x: int | 0 <= x < 0x1_0000

  const PEER_PRUNE_TIME := 86400

  datatype Peer = Peer(address: Address, port: Port, peerId: Key, networkId: Key, lastSeen: uint64)

  type Table = map<Key, Peer>

  /** `time(nullptr) - PEER_PRUNE_TIME` in unsigned 64-bit arithmetic. */
  function PruneTime(now: uint64): uint64 {
    (now - PEER_PRUNE_TIME) % TWO_64
  }

  /** Every entry sits under its own peer id, and we are not among them. */
  ghost predicate Keyed(own: Key, table: Table) {
    own !in table && forall k :: k in table ==> table[k].peerId == k
  }

  // ---------------------------------------------------------------- what the operations do to the table

  predicate Admitted(own: Key, entry: Peer, now: uint64) {
    entry.peerId != own && entry.lastSeen >= PruneTime(now)
  }

  function Added(own: Key, table: Table, entry: Peer, now: uint64): Table {
    if Admitted(own, entry, now) then table[entry.peerId := entry] else table
  }

  function Touched(own: Key, table: Table, id: Key, now: uint64): Table {
    if id in table then Added(own, table, table[id].(lastSeen := now), now) else table
  }

  function Pruned(table: Table, now: uint64): Table {
    map k | k in table && table[k].lastSeen >= PruneTime(now) :: table[k]
  }

  /** The entries seen from a given moment on. */
  ghost function SeenSince(table: Table, from: int): Table {
    map k | k in table && table[k].lastSeen >= from :: table[k]
  }

  /**
   Pruning keeps exactly the peers seen during the last day, whatever the table, if and only if the
   clock is at least a day past its epoch; before that the subtraction wraps around.
   */
  lemma PruneExactIff(now: uint64)
    ensures (forall table: Table :: Pruned(table, now) == SeenSince(table, now - PEER_PRUNE_TIME)) <==>
      now >= PEER_PRUNE_TIME
  {
    if now < PEER_PRUNE_TIME {
      var lost := Peer([], 0, EMPTY_KEY, EMPTY_KEY, now);
      var table := map[EMPTY_KEY := lost];
      assert PruneTime(now) == now - PEER_PRUNE_TIME + TWO_64;
      assert EMPTY_KEY in SeenSince(table, now - PEER_PRUNE_TIME);
      assert EMPTY_KEY !in Pruned(table, now);
    }
  }

  // ---------------------------------------------------------------- runs

  datatype Event =
    | AddEvent(entry: Peer, now: uint64)
    | TouchEvent(id: Key, now: uint64)
    | DelEvent(id: Key)
    | PruneEvent(now: uint64)

  function AfterEvent(own: Key, table: Table, event: Event): Table {
    match event
    case AddEvent(entry, now) => Added(own, table, entry, now)
    case TouchEvent(id, now) => Touched(own, table, id, now)
    case DelEvent(id) => table - {id}
    case PruneEvent(now) => Pruned(table, now)
  }

  function AfterEvents(own: Key, table: Table, events: seq<Event>): Table {
    if events == [] then table
    else AfterEvent(own, AfterEvents(own, table, events[..|events| - 1]), events[|events| - 1])
  }

  /** In every run entries stay under their own ids and our own id never enters. */
  lemma {:induction false} RunsStayKeyed(own: Key, table: Table, events: seq<Event>)
    requires Keyed(own, table)
    ensures Keyed(own, AfterEvents(own, table, events))
  {
    hide PruneTime;
    if events != [] {
      RunsStayKeyed(own, table, events[..|events| - 1]);
    }
  }

  /** The last event brought the entry in, or it refreshed it, at a moment when it was recent. */
  ghost predicate Vouched(own: Key, event: Event, entry: Peer) {
    match event
    case AddEvent(e, now) => e == entry && Admitted(own, e, now)
    case TouchEvent(id, now) => entry.peerId == id && entry.lastSeen == now && now >= PruneTime(now)
    case _ => false
  }

  /** Every stored entry goes back to an event that vouched for it, and nothing removed it since. */
  lemma {:induction false} EntriesVouched(own: Key, events: seq<Event>, k: Key) returns (i: nat)
    requires k in AfterEvents(own, map[], events)
    ensures i < |events| && Vouched(own, events[i], AfterEvents(own, map[], events)[k])
    ensures forall j :: i < j < |events| ==>
      && events[j] != DelEvent(k)
      && (events[j].PruneEvent? ==> AfterEvents(own, map[], events)[k].lastSeen >= PruneTime(events[j].now))
  {
    hide PruneTime;
    var front, last := events[..|events| - 1], events[|events| - 1];
    RunsStayKeyed(own, map[], front);
    var before, after := AfterEvents(own, map[], front), AfterEvents(own, map[], events);
    if k in before && before[k] == after[k] {
      i := EntriesVouched(own, front, k);
    } else {
      i := |events| - 1;
    }
  }

  // ---------------------------------------------------------------- lists of peers

  /** Entries of the table, none twice. */
  ghost predicate Listing(table: Table, ps: seq<Peer>) {
    && (forall i :: 0 <= i < |ps| ==> ps[i].peerId in table && table[ps[i].peerId] == ps[i])
    && forall i, j :: 0 <= i < j < |ps| ==> ps[i].peerId != ps[j].peerId
  }

  predicate InNetwork(networkId: Key, peer: Peer) {
    networkId == EMPTY_KEY || peer.networkId == networkId
  }

  /** All entries of the network; the empty id stands for every network. */
  function Members(table: Table, networkId: Key): set<Key> {
    set k | k in table && InNetwork(networkId, table[k])
  }

  ghost predicate ShufflesOnly(shuffle: seq<Peer> -> seq<Peer>) {
    forall ps :: multiset(shuffle(ps)) == multiset(ps)
  }

  ghost function Ids(ps: seq<Peer>): set<Key> {
    set p | p in ps :: p.peerId
  }

  lemma IdsSnoc(ps: seq<Peer>, p: Peer)
    ensures Ids(ps + [p]) == Ids(ps) + {p.peerId}
  {
    assert p in ps + [p];
    assert forall x :: x in ps + [p] <==> x in ps || x == p;
    forall x | x in ps ensures x.peerId in Ids(ps + [p]) {
      assert x in ps + [p];
    }
  }

  lemma {:induction false} ListingCounted(table: Table, ps: seq<Peer>)
    requires Listing(table, ps)
    ensures |Ids(ps)| == |ps|
  {
    if ps != [] {
      var front, last := ps[..|ps| - 1], ps[|ps| - 1];
      ListingCounted(table, front);
      assert ps == front + [last];
      IdsSnoc(front, last);
      assert last.peerId !in Ids(front);
    }
  }

  /** Rearranging a listing lists the same entries. */
  lemma ShuffledListing(table: Table, a: seq<Peer>, b: seq<Peer>)
    requires Listing(table, a) && multiset(a) == multiset(b)
    ensures Listing(table, b) && Ids(b) == Ids(a) && |b| == |a|
  {
    PermutedDistinct(a, b);
    assert |multiset(a)| == |a| && |multiset(b)| == |b|;
    forall i | 0 <= i < |b| ensures b[i].peerId in table && table[b[i].peerId] == b[i] {
      assert b[i] in a;
    }
  }

  /** The entries of one network, in order. */
  function Filtered(all: seq<Peer>, networkId: Key): seq<Peer> {
    if all == [] then []
    else
      var front := Filtered(all[..|all| - 1], networkId);
      if all[|all| - 1].networkId == networkId then front + [all[|all| - 1]] else front
  }

  lemma {:induction false} FilteredListing(table: Table, all: seq<Peer>, networkId: Key)
    requires Listing(table, all)
    ensures Listing(table, Filtered(all, networkId))
    ensures forall k :: k in Ids(Filtered(all, networkId)) <==>
      k in Ids(all) && k in table && table[k].networkId == networkId
  {
    hide Listing;
    hide Ids;
    if all == [] {
      NoneListed(table);
    } else {
      var front, last := all[..|all| - 1], all[|all| - 1];
      LastListed(table, all);
      FilteredListing(table, front, networkId);
      assert all == front + [last];
      IdsSnoc(front, last);
      var f := Filtered(front, networkId);
      IdsSnoc(f, last);
      if last.networkId == networkId {
        ListingSnoc(table, f, last);
      }
    }
  }

  lemma NoneListed(table: Table)
    ensures Listing(table, []) && Ids([]) == {}
  {
  }

  lemma ListingSnoc(table: Table, ps: seq<Peer>, p: Peer)
    requires Listing(table, ps) && p.peerId in table && table[p.peerId] == p && p.peerId !in Ids(ps)
    ensures Listing(table, ps + [p])
  {
    forall i | 0 <= i < |ps| ensures ps[i].peerId != p.peerId {
      assert ps[i] in ps && ps[i].peerId in Ids(ps);
    }
  }

  /** Without its last entry a listing is one still, and that entry is new to it. */
  lemma LastListed(table: Table, all: seq<Peer>)
    requires all != [] && Listing(table, all)
    ensures
      var front, last := all[..|all| - 1], all[|all| - 1];
      Listing(table, front) && last.peerId in table && table[last.peerId] == last && last.peerId !in Ids(front)
  {
    var front := all[..|all| - 1];
    if all[|all| - 1].peerId in Ids(front) {
      LastIsNew(table, all, all[|all| - 1].peerId);
    }
  }

  /** The last id of a listing is not among the earlier ones. */
  lemma LastIsNew(table: Table, all: seq<Peer>, id: Key)
    requires all != [] && Listing(table, all) && id in Ids(all[..|all| - 1])
    ensures id != all[|all| - 1].peerId
  {
    var front := all[..|all| - 1];
    var x :| x in front && x.peerId == id;
    var m :| 0 <= m < |front| && front[m] == x;
    assert all[m].peerId != all[|front|].peerId;
  }

  // ---------------------------------------------------------------- the database object

  class PeerDB {
    const own: Key
    var table: Table

    ghost predicate Valid()
      reads this
    {
      Keyed(own, table)
    }

    constructor (own: Key)
      ensures Valid() && this.own == own && table == map[]
    {
      this.own, table := own, map[];
    }

    method Add(entry: Peer, now: uint64) returns (e: ErrorCode)
      requires Valid()
      modifies this
      ensures Valid() && table == Added(own, old(table), entry, now)
      ensures e == SUCCESS <==> entry.peerId != own && entry.lastSeen >= (now - 86400) % 0x1_0000_0000_0000_0000
      ensures e == SUCCESS ==> table == old(table)[entry.peerId := entry]
      ensures e != SUCCESS ==> e == PEERLIST_ADD_FAILURE && table == old(table)
    {
      if entry.peerId == own {
        return PEERLIST_ADD_FAILURE;
      }
      var pruneTime := PruneTime(now);
      if entry.lastSeen < pruneTime {
        return PEERLIST_ADD_FAILURE;
      }
      table := table[entry.peerId := entry];
      e := SUCCESS;
    }

    method Del(id: Key) returns (e: ErrorCode)
      requires Valid()
      modifies this
      ensures Valid() && table == old(table) - {id}
      ensures e == if id in old(table) then SUCCESS else LMDB_NOTFOUND
    {
      if id !in table {
        return LMDB_NOTFOUND;
      }
      table := table - {id};
      e := SUCCESS;
    }

    method Touch(id: Key, now: uint64) returns (e: ErrorCode)
      requires Valid()
      modifies this
      ensures Valid() && table == Touched(own, old(table), id, now)
      ensures e == if id !in old(table) then LMDB_NOTFOUND else if now >= 86400 then SUCCESS else PEERLIST_ADD_FAILURE
      ensures table == if e == SUCCESS then old(table)[id := old(table)[id].(lastSeen := now)] else old(table)
    {
      if id !in table {
        return LMDB_NOTFOUND;
      }
      var peer := table[id];
      peer := peer.(lastSeen := now);
      e := Add(peer, now);
    }

    /** Every entry once, in the order of the cursor, which nothing depends on. */
    method GetAll() returns (ps: seq<Peer>)
      requires Valid()
      ensures Listing(table, ps) && Ids(ps) == table.Keys
    {
      ps := [];
      var todo := table.Keys;
      while todo != {}
        invariant todo <= table.Keys
        invariant Listing(table, ps) && Ids(ps) == table.Keys - todo
        decreases todo
      {
        var k :| k in todo;
        IdsSnoc(ps, table[k]);
        forall i | 0 <= i < |ps| ensures ps[i].peerId != k {
          assert ps[i] in ps;
          assert ps[i].peerId in Ids(ps);
        }
        ps := ps + [table[k]];
        todo := todo - {k};
      }
    }

    /**
     Peers of a network in random order, at most `count` of them unless `count` is 0: entries of the
     table, none twice, and as many as there are or as were asked for.
     */
    method Peers(count: nat, networkId: Key, shuffle: seq<Peer> -> seq<Peer>) returns (ps: seq<Peer>)
      requires Valid() && ShufflesOnly(shuffle)
      ensures Listing(table, ps) && Ids(ps) <= Members(table, networkId)
      ensures |ps| ==
        if count != 0 && |Members(table, networkId)| > count then count else |Members(table, networkId)|
      ensures count == 0 ==> Ids(ps) == Members(table, networkId)
    {
      hide Filtered;
      hide Ids;
      hide Members;
      hide Listing;
      hide ShufflesOnly;
      ps := GetAll();
      NetworkListed(table, ps, networkId);
      if networkId != EMPTY_KEY {
        ps := OfNetwork(ps, networkId);
      }
      Shuffled(shuffle, ps);
      ShuffledListing(table, ps, shuffle(ps));
      ps := shuffle(ps);
      ListingCounted(table, ps);
      if count != 0 && |ps| > count {
        ListingPrefix(table, ps, count);
        ps := ps[..count];
      }
    }

    method OfNetwork(all: seq<Peer>, networkId: Key) returns (ps: seq<Peer>)
      ensures ps == Filtered(all, networkId)
    {
      ps := [];
      for i := 0 to |all|
        invariant ps == Filtered(all[..i], networkId)
      {
        assert all[..i + 1][..i] == all[..i];
        if all[i].networkId == networkId {
          ps := ps + [all[i]];
        }
      }
      assert all[..|all|] == all;
    }

    /** Deletes every entry not seen since the prune time, one by one. */
    method Prune(now: uint64, shuffle: seq<Peer> -> seq<Peer>)
      requires Valid() && ShufflesOnly(shuffle)
      modifies this
      ensures Valid() && table == Pruned(old(table), now)
    {
      hide PruneTime;
      hide Ids;
      hide Listing;
      hide ShufflesOnly;
      var all := Peers(0, EMPTY_KEY, shuffle);
      var pruneTime := PruneTime(now);
      for i := 0 to |all|
        invariant Valid() && table == WithoutOld(old(table), all[..i], pruneTime)
      {
        assert all[..i + 1][..i] == all[..i];
        if all[i].lastSeen < pruneTime {
          var _ := Del(all[i].peerId);
        }
      }
      assert all[..|all|] == all;
      WithoutOldPrunes(old(table), all, now);
    }
  }

  /** The table after the old ones among `ps` have been deleted. */
  function WithoutOld(table: Table, ps: seq<Peer>, pruneTime: uint64): Table {
    if ps == [] then table
    else
      var front := WithoutOld(table, ps[..|ps| - 1], pruneTime);
      if ps[|ps| - 1].lastSeen < pruneTime then front - {ps[|ps| - 1].peerId} else front
  }

  lemma {:induction false} WithoutOldKeys(table: Table, ps: seq<Peer>, pruneTime: uint64)
    requires Listing(table, ps)
    ensures forall k :: k in WithoutOld(table, ps, pruneTime) <==>
      k in table && !(k in Ids(ps) && table[k].lastSeen < pruneTime)
    ensures forall k :: k in WithoutOld(table, ps, pruneTime) ==> WithoutOld(table, ps, pruneTime)[k] == table[k]
  {
    if ps != [] {
      var front := ps[..|ps| - 1];
      WithoutOldKeys(table, front, pruneTime);
      assert ps == front + [ps[|ps| - 1]];
      IdsSnoc(front, ps[|ps| - 1]);
    }
  }

  lemma WithoutOldPrunes(table: Table, all: seq<Peer>, now: uint64)
    requires Listing(table, all) && Ids(all) == Members(table, EMPTY_KEY)
    ensures WithoutOld(table, all, PruneTime(now)) == Pruned(table, now)
  {
    hide Listing;
    hide PruneTime;
    hide Ids;
    WithoutOldKeys(table, all, PruneTime(now));
    assert forall k :: k in table ==> k in Members(table, EMPTY_KEY);
  }

  lemma Shuffled(shuffle: seq<Peer> -> seq<Peer>, ps: seq<Peer>)
    requires ShufflesOnly(shuffle)
    ensures multiset(shuffle(ps)) == multiset(ps)
  {
  }

  /** The filter, or its absence, yields exactly the members of the network. */
  lemma NetworkListed(table: Table, all: seq<Peer>, networkId: Key)
    requires Listing(table, all) && Ids(all) == table.Keys
    ensures networkId == EMPTY_KEY ==> Ids(all) == Members(table, networkId)
    ensures networkId != EMPTY_KEY ==>
      Listing(table, Filtered(all, networkId)) && Ids(Filtered(all, networkId)) == Members(table, networkId)
  {
    hide Listing;
    hide Ids;
    FilteredListing(table, all, networkId);
  }

  lemma ListingPrefix(table: Table, ps: seq<Peer>, n: nat)
    requires n <= |ps| && Listing(table, ps)
    ensures Listing(table, ps[..n]) && Ids(ps[..n]) <= Ids(ps)
  {
    IdsPrefix(ps, n);
  }

  lemma IdsPrefix(ps: seq<Peer>, n: nat)
    requires n <= |ps|
    ensures Ids(ps[..n]) <= Ids(ps)
  {
    forall p | p in ps[..n] ensures p in ps {
    }
  }
}
