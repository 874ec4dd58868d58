/**
 The key-value store as a value: six named tables in one environment, runs of puts and deletions, and
 the walks of a cursor.
 */
module Lmdb {
  import opened Bytes
  import opened Collections
  import opened Ordering

  datatype Table = BLOCKS | BLOCK_INDEXES | BLOCK_TIMESTAMPS | TRANSACTIONS | KEY_IMAGES | TRANSACTION_OUTPUTS
  datatype Entry = Entry(table: Table, key: Data)
  datatype Write = Write(entry: Entry, value: Data)
  type Store = map<Entry, Data>

  // ---------------------------------------------------------------- runs of puts and deletes

  function PutAll(s: Store, ws: seq<Write>): Store {
    if ws == [] then s
    else
      var last := ws[|ws| - 1];
      PutAll(s, ws[..|ws| - 1])[last.entry := last.value]
  }

  /** `None` when some entry is missing at its turn. */
  function DelAll(s: Store, es: seq<Entry>): Option<Store> {
    if es == [] then Some(s)
    else
      var s1 :- DelAll(s, es[..|es| - 1]);
      if es[|es| - 1] in s1 then Some(s1 - {es[|es| - 1]}) else None
  }

  function Entries(ws: seq<Write>): (es: seq<Entry>)
    ensures |es| == |ws| && forall i :: 0 <= i < |ws| ==> es[i] == ws[i].entry
  {
    seq(|ws|, i requires 0 <= i < |ws| => ws[i].entry)
  }

  ghost function EntrySet(es: seq<Entry>): set<Entry> {
    set e | e in es
  }

  lemma {:induction false} PutAllConcat(s: Store, a: seq<Write>, b: seq<Write>)
    ensures PutAll(s, a + b) == PutAll(PutAll(s, a), b)
  {
    if b == [] {
      assert a + b == a;
    } else {
      assert (a + b)[..|a + b| - 1] == a + b[..|b| - 1];
      PutAllConcat(s, a, b[..|b| - 1]);
    }
  }

  /** A run of puts touches the entries it names and no others. */
  lemma {:induction false} PutAllKeys(s: Store, ws: seq<Write>)
    ensures PutAll(s, ws).Keys == s.Keys + EntrySet(Entries(ws))
    ensures forall e :: e in s && e !in Entries(ws) ==> PutAll(s, ws)[e] == s[e]
  {
    if ws != [] {
      var front, last := ws[..|ws| - 1], ws[|ws| - 1];
      PutAllKeys(s, front);
      assert Entries(ws) == Entries(front) + [last.entry];
    }
  }

  /** The last put to an entry is the one that stays. */
  lemma {:induction false} PutAllLast(s: Store, ws: seq<Write>, i: nat)
    requires i < |ws|
    requires forall j :: i < j < |ws| ==> ws[j].entry != ws[i].entry
    ensures ws[i].entry in PutAll(s, ws) && PutAll(s, ws)[ws[i].entry] == ws[i].value
  {
    if i < |ws| - 1 {
      PutAllLast(s, ws[..|ws| - 1], i);
    }
  }

  /** Deleting succeeds exactly for distinct entries that are all present, and removes just them. */
  lemma {:induction false} DelAllIff(s: Store, es: seq<Entry>)
    ensures DelAll(s, es).Some? <==> Distinct(es) && forall e :: e in es ==> e in s
    ensures DelAll(s, es).Some? ==> DelAll(s, es).value == s - EntrySet(es)
  {
    if es != [] {
      var front, last := es[..|es| - 1], es[|es| - 1];
      DelAllIff(s, front);
      assert es == front + [last];
      assert EntrySet(es) == EntrySet(front) + {last};
      if Distinct(es) {
        assert last !in front;
      }
      if Distinct(front) && last !in front {
        assert Distinct(es);
      }
    }
  }

  // ---------------------------------------------------------------- cursors

  ghost function TableKeys(s: Store, t: Table): set<Data> {
    set e | e in s && e.table == t :: e.key
  }

  /** `k` is the first key of the table at or after `from` in byte order. */
  ghost predicate FirstFrom(s: Store, t: Table, from: Data, k: Data) {
    && Entry(t, k) in s
    && AtMost(from, k)
    && forall e :: e in s && e.table == t && AtMost(from, e.key) ==> AtMost(k, e.key)
  }

  ghost predicate NoneFrom(s: Store, t: Table, from: Data) {
    forall e :: e in s && e.table == t ==> !AtMost(from, e.key)
  }

  lemma FirstFromUnique(s: Store, t: Table, from: Data, k: Data, l: Data)
    requires FirstFrom(s, t, from, k) && FirstFrom(s, t, from, l)
    ensures k == l
  {
    assert AtMost(k, Entry(t, l).key) && AtMost(l, Entry(t, k).key);
    if k != l {
      LessAsymmetric(k, l);
    }
  }

  /** Positions a cursor with MDB_SET_RANGE. */
  method SetRange(s: Store, t: Table, from: Data) returns (r: Option<Data>)
    ensures r.Some? ==> FirstFrom(s, t, from, r.value)
    ensures r.None? <==> NoneFrom(s, t, from)
  {
    r := None;
    var todo := s.Keys;
    while todo != {}
      invariant todo <= s.Keys
      invariant r.Some? ==> Entry(t, r.value) in s && AtMost(from, r.value)
      invariant forall e :: e in s.Keys - todo && e.table == t && AtMost(from, e.key) ==>
        r.Some? && AtMost(r.value, e.key)
      decreases todo
    {
      var e :| e in todo;
      todo := todo - {e};
      if e.table == t && AtMost(from, e.key) && (r.None? || Less(e.key, r.value)) {
        ghost var was := r;
        r := Some(e.key);
        forall f | f in s.Keys - todo && f.table == t && AtMost(from, f.key) ensures AtMost(e.key, f.key) {
          if f != e && was.value != f.key {
            LessTransitive(e.key, was.value, f.key);
          }
        }
      } else if r.Some? {
        LessTotal(e.key, r.value);
      }
    }
  }

  ghost function KeysOf(es: set<Entry>, t: Table): set<Data> {
    set e | e in es && e.table == t :: e.key
  }

  lemma OneMoreKey(es: set<Entry>, e: Entry, t: Table)
    requires e !in es
    ensures e.table == t ==> e.key !in KeysOf(es, t) && KeysOf(es + {e}, t) == KeysOf(es, t) + {e.key}
    ensures e.table != t ==> KeysOf(es + {e}, t) == KeysOf(es, t)
  {
    forall f | f in es && f.table == t && e.table == t ensures f.key != e.key {
      assert f == Entry(t, f.key) && e == Entry(t, e.key);
    }
  }

  /** Walks a table with MDB_FIRST and MDB_NEXT. */
  method Count(s: Store, t: Table) returns (count: nat)
    ensures count == |TableKeys(s, t)|
  {
    hide KeysOf;
    count := 0;
    var todo := s.Keys;
    NoKeys(t);
    assert s.Keys - todo == {};
    while todo != {}
      invariant todo <= s.Keys
      invariant count == |KeysOf(s.Keys - todo, t)|
      decreases todo
    {
      var e :| e in todo;
      OneMoreKey(s.Keys - todo, e, t);
      assert s.Keys - (todo - {e}) == s.Keys - todo + {e};
      todo := todo - {e};
      if e.table == t {
        count := count + 1;
      }
    }
    AllKeys(s, t);
  }

  lemma NoKeys(t: Table)
    ensures KeysOf({}, t) == {}
  {
  }

  lemma AllKeys(s: Store, t: Table)
    ensures KeysOf(s.Keys, t) == TableKeys(s, t) && s.Keys - {} == s.Keys
  {
  }
}
