// The resolver's DNS cache (internal/transport/http/handlers/ssrf.go): a bounded
// map with a time to live, shared by concurrent lookups that are merged per
// host.

module DnsCache {
  import opened Bytes
  import opened Enumerations

  type Ips = seq<bytes>

  datatype Entry = Entry(ips: Ips, expiresAt: int)

  type Entries = map<string, Entry>

  predicate Live(e: Entry, now: int) {
    e.expiresAt >= now
  }

  /** What a read at this time finds. */
  function Find(entries: Entries, host: string, now: int): Option<Ips> {
    if host in entries && Live(entries[host], now) then Some(entries[host].ips) else None
  }

  // ---------------------------------------------------------------- eviction

  ghost predicate Soonest(entries: Entries, k: string) {
    k in entries && forall o :: o in entries ==> entries[k].expiresAt <= entries[o].expiresAt
  }

  /** The eviction loop over one order of the keys; "" also means that there is
      no candidate yet. */
  function Victim(entries: Entries, order: seq<string>): (v: string)
    requires forall i :: 0 <= i < |order| ==> order[i] in entries
    ensures v == "" || v in order
  {
    if order == [] then "" else
      var v, k := Victim(entries, order[..|order| - 1]), order[|order| - 1];
      if v == "" || entries[k].expiresAt < entries[v].expiresAt then k else v
  }

  /** "" is a key, it expires before every other key, and there are others. */
  ghost predicate Confused(entries: Entries) {
    && "" in entries && (exists k :: k in entries && k != "")
    && forall k :: k in entries && k != "" ==> entries[""].expiresAt < entries[k].expiresAt
  }

  /** A key of the order that expires no later than v and is not "". */
  lemma {:induction false} VictimIsLeast(entries: Entries, order: seq<string>, k: string)
    requires forall i :: 0 <= i < |order| ==> order[i] in entries
    requires k in order && k != "" && ("" in entries ==> entries[k].expiresAt <= entries[""].expiresAt)
    ensures var v := Victim(entries, order); v in order && entries[v].expiresAt <= entries[k].expiresAt && v != ""
  {
    var n := |order| - 1;
    var last := order[n];
    assert order == order[..n] + [last];
    if k in order[..n] {
      VictimIsLeast(entries, order[..n], k);
    } else {
      var v := Victim(entries, order[..n]);
      assert v == "" || v in entries;
    }
  }

  lemma {:induction false} FirstIsForgotten(entries: Entries, order: seq<string>)
    requires forall i :: 0 <= i < |order| ==> order[i] in entries
    requires |order| >= 2 && forall i :: 1 <= i < |order| ==> order[i] != ""
    ensures Victim(entries, order) != ""
  {
    var n := |order| - 1;
    if n >= 2 {
      FirstIsForgotten(entries, order[..n]);
    }
  }

  /** Every order of the keys evicts an entry that expires soonest, exactly when ""
      is not, alone, the key that does. */
  lemma SentinelIsSoundIff(entries: Entries)
    requires entries != map[]
    ensures (forall order :: Enumerates(order, entries.Keys) ==> Soonest(entries, Victim(entries, order))) <==> !Confused(entries)
  {
    hide Victim;
    if Confused(entries) {
      var rest := OrderOf(entries.Keys - {""});
      var order := [""] + rest;
      var other :| other in entries && other != "";
      assert other in rest;
      forall i | 0 <= i < |order| ensures order[i] in entries && (i > 0 ==> order[i] != "") {
        if i > 0 {
          assert order[i] == rest[i - 1] && rest[i - 1] in rest;
        }
      }
      FirstIsForgotten(entries, order);
      assert Enumerates(order, entries.Keys);
      assert !Soonest(entries, Victim(entries, order));
    } else {
      forall order | Enumerates(order, entries.Keys) ensures Soonest(entries, Victim(entries, order)) {
        SoonestWhenClear(entries, order);
      }
    }
  }

  lemma SoonestWhenClear(entries: Entries, order: seq<string>)
    requires entries != map[] && !Confused(entries) && Enumerates(order, entries.Keys)
    ensures Soonest(entries, Victim(entries, order))
  {
    if k :| k in entries && k != "" {
      var least := LeastKey(entries, k);
      VictimIsLeast(entries, order, least);
    } else {
      var any :| any in entries;
      assert any == "";
    }
  }

  /** Unless "" alone is soonest, some other key is. */
  lemma LeastKey(entries: Entries, k: string) returns (least: string)
    requires k in entries && k != "" && !Confused(entries)
    ensures Soonest(entries, least) && least != ""
  {
    assert k in entries.Keys - {""};
    least := LeastOf(entries, entries.Keys - {""});
  }

  lemma {:induction false} LeastOf(entries: Entries, keys: set<string>) returns (least: string)
    requires keys <= entries.Keys && keys != {}
    ensures least in keys && forall o :: o in keys ==> entries[least].expiresAt <= entries[o].expiresAt
  {
    var k :| k in keys;
    least := k;
    if keys != {k} {
      var other := LeastOf(entries, keys - {k});
      if entries[other].expiresAt < entries[k].expiresAt {
        least := other;
      }
    }
  }

  // ------------------------------------------------------------------- cache

  /** after is before with the answer stored; a full cache first gives up an entry
      that expires soonest. */
  ghost predicate Stored(before: Entries, after: Entries, max: nat, host: string, e: Entry) {
    if |before| < max then after == before[host := e]
    else exists v :: Soonest(before, v) && after == (before - {v})[host := e]
  }

  /** What was stored is found, until just after its time to live. */
  lemma StoredIsFound(before: Entries, after: Entries, max: nat, host: string, e: Entry, now: int)
    requires Stored(before, after, max, host, e)
    ensures Find(after, host, now) == if now <= e.expiresAt then Some(e.ips) else None
  {
  }

  class Cache {
    const ttl: nat
    const max: nat
    var entries: Entries

    constructor (ttl: nat, max: nat)
      ensures entries == map[] && this.ttl == ttl && this.max == max
    {
      this.ttl, this.max, entries := ttl, max, map[];
    }

    method Get(host: string, now: int) returns (ips: Option<Ips>)
      ensures ips.Some? <==> host in entries && now <= entries[host].expiresAt
      ensures ips.Some? ==> ips.value == entries[host].ips
      ensures ips == Find(entries, host, now)
    {
      if host !in entries || entries[host].expiresAt < now {
        return None;
      }
      ips := Some(entries[host].ips);
    }

    /** Go ranges over the entries in any order. */
    method Put(host: string, ips: Ips, now: int)
      requires max > 0
      modifies this`entries
      ensures !Confused(old(entries)) ==> Stored(old(entries), entries, max, host, Entry(ips, now + ttl))
      ensures host in entries && entries[host] == Entry(ips, now + ttl)
      ensures |old(entries)| < max ==> entries == old(entries)[host := Entry(ips, now + ttl)]
      ensures |old(entries)| >= max ==> exists order {:trigger Enumerates(order, old(entries).Keys)} ::
                Enumerates(order, old(entries).Keys) && entries == (old(entries) - {Victim(old(entries), order)})[host := Entry(ips, now + ttl)]
    {
      if |entries| >= max {
        var oldestKey := "";
        var oldestExpiry := 0;
        var todo := entries.Keys;
        ghost var order: seq<string> := [];
        while todo != {}
          invariant todo <= entries.Keys
          invariant forall k :: k in order <==> k in entries && k !in todo
          invariant forall i, j :: 0 <= i < j < |order| ==> order[i] != order[j]
          invariant oldestKey == Victim(entries, order)
          invariant oldestKey != "" ==> oldestExpiry == entries[oldestKey].expiresAt
        {
          var k :| k in todo;
          assert (order + [k])[..|order|] == order;
          if oldestKey == "" || entries[k].expiresAt < oldestExpiry {
            oldestKey, oldestExpiry := k, entries[k].expiresAt;
          }
          order := order + [k];
          todo := todo - {k};
        }
        assert Enumerates(order, entries.Keys);
        if !Confused(entries) {
          SoonestWhenClear(entries, order);
        }
        entries := entries - {oldestKey};
      }
      entries := entries[host := Entry(ips, now + ttl)];
    }
  }

  lemma SoonestIsKey(before: Entries, v: string)
    requires Soonest(before, v)
    ensures v in before
  {
  }

  lemma UpdateSize(m: Entries, host: string, e: Entry)
    ensures |m[host := e]| <= |m| + 1
  {
    var n := m[host := e];
    assert |n| == |n.Keys| && |m| == |m.Keys|;
    assert n.Keys == m.Keys + {host};
    if host in m {
      assert n.Keys == m.Keys;
    }
  }

  lemma RemovalSize(m: Entries, v: string)
    requires v in m
    ensures |m - {v}| == |m| - 1
  {
    var n := m - {v};
    assert |n| == |n.Keys| && |m| == |m.Keys|;
    assert n.Keys == m.Keys - {v};
  }

  /** Storing keeps the bound, adds this entry for the host, and changes no other
      entry except by eviction. */
  lemma StoreKeepsBound(before: Entries, after: Entries, max: nat, host: string, e: Entry)
    requires Stored(before, after, max, host, e) && |before| <= max && max > 0
    ensures |after| <= max
    ensures host in after && after[host] == e
    ensures forall k :: k in after && k != host ==> k in before && after[k] == before[k]
  {
    hide Soonest;
    if |before| < max {
      UpdateSize(before, host, e);
    } else {
      var v :| Soonest(before, v) && after == (before - {v})[host := e];
      SoonestIsKey(before, v);
      RemovalSize(before, v);
      UpdateSize(before - {v}, host, e);
    }
  }

  /** A live entry is given up only when no expired one is kept. */
  lemma EvictionPrefersExpired(before: Entries, after: Entries, max: nat, host: string, e: Entry, now: int, gone: string)
    requires Stored(before, after, max, host, e)
    requires gone in before && gone !in after && Live(before[gone], now)
    ensures forall k :: k in before && k != host ==> Live(before[k], now)
  {
    var v :| Soonest(before, v) && after == (before - {v})[host := e];
    assert gone == v;
  }
}
