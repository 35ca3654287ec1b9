// Concurrent lookups (Resolver.lookup in internal/transport/http/handlers/
// ssrf.go) as a step system: any number of callers share the cache, the clock
// and, host by host, one call in flight.

module DnsLookups {
  import opened Bytes
  import opened DnsCache

  type Id = nat

  /** The cache's time to live and size; the resolver is built with both
      positive. */
  datatype Config = Config(ttl: nat, max: nat)

  predicate ConfigOk(c: Config) {
    c.ttl > 0 && c.max > 0
  }

  /** Addresses with the time at which they were read from the cache or put
      there. */
  datatype Value = Value(ips: Ips, at: int)

  datatype Phase =
    | Arrived
    | Missed
    | Waiting(leader: Id)
    | Leading
    | Asking
    | Told(ips: Ips)
    | Leaving(outcome: Option<Value>)
    | Done(value: Value)
    | Failed

  datatype Caller = Caller(host: string, phase: Phase)

  /** The DNS said this about that host at that time; or the cache stored it. */
  datatype Fact = Fact(host: string, ips: Ips, at: int)

  datatype State = State(
    now: int,
    entries: Entries,
    flights: map<string, Id>,
    results: map<Id, Option<Value>>,
    callers: map<Id, Caller>,
    answers: set<Fact>,
    stores: set<Fact>)

  function Move(s: State, id: Id, phase: Phase): State
    requires id in s.callers
  {
    s.(callers := s.callers[id := s.callers[id].(phase := phase)])
  }

  predicate At(s: State, id: Id, phase: Phase) {
    id in s.callers && s.callers[id].phase == phase
  }

  ghost predicate Tick(s: State, t: State) {
    t == s.(now := t.now) && s.now <= t.now
  }

  /** Resolve turns an empty host away before it looks anything up. */
  ghost predicate Arrive(s: State, t: State, id: Id, host: string) {
    id !in s.callers && host != "" && t == s.(callers := s.callers[id := Caller(host, Arrived)])
  }

  ghost predicate FirstLook(s: State, t: State, id: Id) {
    && At(s, id, Arrived)
    && match Find(s.entries, s.callers[id].host, s.now)
       case Some(ips) => t == Move(s, id, Done(Value(ips, s.now)))
       case None => t == Move(s, id, Missed)
  }

  /** singleflight: the first caller leads, the others wait for it. */
  ghost predicate Join(s: State, t: State, id: Id) {
    && At(s, id, Missed)
    && var host := s.callers[id].host;
       if host in s.flights then t == Move(s, id, Waiting(s.flights[host]))
       else t == Move(s, id, Leading).(flights := s.flights[host := id])
  }

  ghost predicate SecondLook(s: State, t: State, id: Id) {
    && At(s, id, Leading)
    && match Find(s.entries, s.callers[id].host, s.now)
       case Some(ips) => t == Move(s, id, Leaving(Some(Value(ips, s.now))))
       case None => t == Move(s, id, Asking)
  }

  /** The DNS answers, or fails. */
  ghost predicate Answer(s: State, t: State, id: Id) {
    && At(s, id, Asking)
    && (|| (exists ips :: t == Move(s, id, Told(ips)).(answers := s.answers + {Fact(s.callers[id].host, ips, s.now)}))
        || t == Move(s, id, Leaving(None)))
  }

  ghost predicate Store(c: Config, s: State, t: State, id: Id) {
    && id in s.callers && s.callers[id].phase.Told?
    && var host, ips := s.callers[id].host, s.callers[id].phase.ips;
       && Stored(s.entries, t.entries, c.max, host, Entry(ips, s.now + c.ttl))
       && t == Move(s, id, Leaving(Some(Value(ips, s.now)))).(entries := t.entries, stores := s.stores + {Fact(host, ips, s.now)})
  }

  function Ended(outcome: Option<Value>): Phase {
    if outcome.Some? then Done(outcome.value) else Failed
  }

  /** The leader's call ends; its result is there for those who wait. */
  ghost predicate Leave(s: State, t: State, id: Id) {
    && id in s.callers && s.callers[id].phase.Leaving?
    && var outcome := s.callers[id].phase.outcome;
       t == Move(s, id, Ended(outcome)).(flights := s.flights - {s.callers[id].host}, results := s.results[id := outcome])
  }

  ghost predicate Release(s: State, t: State, id: Id) {
    && id in s.callers && s.callers[id].phase.Waiting?
    && s.callers[id].phase.leader in s.results
    && t == Move(s, id, Ended(s.results[s.callers[id].phase.leader]))
  }

  ghost predicate Step(c: Config, s: State, t: State, id: Id, host: string) {
    || Tick(s, t) || Arrive(s, t, id, host) || FirstLook(s, t, id) || Join(s, t, id) || SecondLook(s, t, id)
    || Answer(s, t, id) || Store(c, s, t, id) || Leave(s, t, id) || Release(s, t, id)
  }

  ghost predicate Next(c: Config, s: State, t: State) {
    exists id, host :: Step(c, s, t, id, host)
  }

  ghost predicate Initial(s: State) {
    s.entries == map[] && s.flights == map[] && s.results == map[] && s.callers == map[] && s.answers == {} && s.stores == {}
  }

  ghost predicate Run(c: Config, run: seq<State>) {
    run != [] && Initial(run[0]) && forall i :: 0 <= i < |run| - 1 ==> Consecutive(c, run, i)
  }

  ghost predicate Consecutive(c: Config, run: seq<State>, i: nat)
    requires i < |run| - 1
  {
    Next(c, run[i], run[i + 1])
  }

  // --------------------------------------------------------------- invariant

  /** The DNS gave these addresses for the host, and they went into the cache no
      longer than the time to live before v was read. */
  ghost predicate Genuine(c: Config, s: State, host: string, v: Value) {
    exists f :: f in s.stores && f.host == host && f.ips == v.ips && f.at <= v.at <= f.at + c.ttl && Backed(s, f)
  }

  /** The DNS had said so before. */
  ghost predicate Backed(s: State, f: Fact) {
    exists a :: a in s.answers && a.host == f.host && a.ips == f.ips && a.at <= f.at
  }

  ghost predicate EntryOk(c: Config, s: State, host: string)
    requires host in s.entries
  {
    exists f :: f in s.stores && f.host == host && f.ips == s.entries[host].ips && f.at + c.ttl == s.entries[host].expiresAt
             && f.at <= s.now && Backed(s, f)
  }

  predicate InFlight(p: Phase) {
    p.Leading? || p.Asking? || p.Told? || p.Leaving?
  }

  ghost predicate CallerOk(c: Config, s: State, id: Id)
    requires id in s.callers
  {
    var caller := s.callers[id];
    && caller.host != ""
    && (InFlight(caller.phase) ==> caller.host in s.flights && s.flights[caller.host] == id)
    && match caller.phase
       case Told(ips) => exists a :: a in s.answers && a.host == caller.host && a.ips == ips && a.at <= s.now
       case Leaving(o) => o.Some? ==> Genuine(c, s, caller.host, o.value)
       case Done(v) => Genuine(c, s, caller.host, v)
       case Waiting(l) => l in s.callers && s.callers[l].host == caller.host
       case _ => true
  }

  ghost predicate ResultOk(c: Config, s: State, id: Id)
    requires id in s.results
  {
    id in s.callers && (s.results[id].Some? ==> Genuine(c, s, s.callers[id].host, s.results[id].value))
  }

  ghost predicate FlightOk(s: State, host: string)
    requires host in s.flights
  {
    s.flights[host] in s.callers && s.callers[s.flights[host]].host == host
  }

  ghost predicate Inv(c: Config, s: State) {
    && |s.entries| <= c.max && "" !in s.entries
    && (forall h :: h in s.entries ==> EntryOk(c, s, h))
    && (forall h :: h in s.flights ==> FlightOk(s, h))
    && (forall id :: id in s.callers ==> CallerOk(c, s, id))
    && (forall id :: id in s.results ==> ResultOk(c, s, id))
  }

  /** Facts are never forgotten. */
  ghost predicate Grows(s: State, t: State) {
    s.answers <= t.answers && s.stores <= t.stores && s.now <= t.now
  }

  lemma GenuineStays(c: Config, s: State, t: State, host: string, v: Value)
    requires Grows(s, t) && Genuine(c, s, host, v)
    ensures Genuine(c, t, host, v)
  {
    var f :| f in s.stores && f.host == host && f.ips == v.ips && f.at <= v.at <= f.at + c.ttl && Backed(s, f);
    BackedStays(s, t, f);
  }

  lemma BackedStays(s: State, t: State, f: Fact)
    requires Grows(s, t) && Backed(s, f)
    ensures Backed(t, f)
  {
    var a :| a in s.answers && a.host == f.host && a.ips == f.ips && a.at <= f.at;
    assert a in t.answers;
  }

  lemma EntryStays(c: Config, s: State, t: State, host: string)
    requires Grows(s, t) && host in s.entries && host in t.entries && s.entries[host] == t.entries[host] && EntryOk(c, s, host)
    ensures EntryOk(c, t, host)
  {
    var f :| f in s.stores && f.host == host && f.ips == s.entries[host].ips && f.at + c.ttl == s.entries[host].expiresAt
          && f.at <= s.now && Backed(s, f);
    BackedStays(s, t, f);
  }

  /** A caller that does not move stays as it was, if its flight does. */
  lemma CallerStays(c: Config, s: State, t: State, id: Id)
    requires Grows(s, t) && id in s.callers && id in t.callers && s.callers[id] == t.callers[id] && CallerOk(c, s, id)
    requires InFlight(s.callers[id].phase) ==> s.callers[id].host in t.flights && t.flights[s.callers[id].host] == id
    requires forall l :: l in s.callers ==> l in t.callers && t.callers[l].host == s.callers[l].host
    ensures CallerOk(c, t, id)
  {
    hide Genuine;
    var caller := s.callers[id];
    match caller.phase
    case Told(ips) =>
      var a :| a in s.answers && a.host == caller.host && a.ips == ips && a.at <= s.now;
      assert a in t.answers;
    case Leaving(o) => if o.Some? { GenuineStays(c, s, t, caller.host, o.value); }
    case Done(v) => GenuineStays(c, s, t, caller.host, v);
    case _ =>
  }

  /** What every step but a store does to everything except the caller that
      moves. */
  lemma OthersStay(c: Config, s: State, t: State, id: Id)
    requires Inv(c, s) && Grows(s, t)
    requires s.callers.Keys <= t.callers.Keys <= s.callers.Keys + {id}
    requires forall l :: l in s.callers && l != id ==> t.callers[l] == s.callers[l]
    requires id in s.callers ==> t.callers[id].host == s.callers[id].host
    requires forall h :: h in s.flights && s.flights[h] != id ==> h in t.flights && t.flights[h] == s.flights[h]
    ensures forall l :: l in s.callers && l != id ==> CallerOk(c, t, l)
    ensures forall l :: l in s.results && l in t.results && s.results[l] == t.results[l] ==> ResultOk(c, t, l)
    ensures forall h :: h in s.entries && h in t.entries && s.entries[h] == t.entries[h] ==> EntryOk(c, t, h)
  {
    hide EntryOk, CallerOk, Genuine, InFlight;
    forall l | l in s.callers && l != id ensures CallerOk(c, t, l) {
      InFlightIsListed(c, s, l);
      CallerStays(c, s, t, l);
    }
    forall l | l in s.results && l in t.results && s.results[l] == t.results[l] ensures ResultOk(c, t, l) {
      assert ResultOk(c, s, l);
      if s.results[l].Some? {
        GenuineStays(c, s, t, s.callers[l].host, s.results[l].value);
      }
    }
    forall h | h in s.entries && h in t.entries && s.entries[h] == t.entries[h] ensures EntryOk(c, t, h) {
      EntryStays(c, s, t, h);
    }
  }

  lemma InFlightIsListed(c: Config, s: State, id: Id)
    requires Inv(c, s) && id in s.callers
    ensures InFlight(s.callers[id].phase) ==> s.callers[id].host in s.flights && s.flights[s.callers[id].host] == id
  {
    assert CallerOk(c, s, id);
  }

  lemma FoundIsGenuine(c: Config, s: State, host: string)
    requires Inv(c, s)
    ensures var found := Find(s.entries, host, s.now); found.Some? ==> Genuine(c, s, host, Value(found.value, s.now))
  {
    if Find(s.entries, host, s.now).Some? {
      assert EntryOk(c, s, host);
    }
  }

  // --------------------------------------------------- every step keeps it true

  lemma SameFlightsStep(c: Config, s: State, t: State, id: Id, phase: Phase)
    requires Inv(c, s) && Grows(s, t) && id in s.callers
    requires t.entries == s.entries && t.flights == s.flights && t.results == s.results
    requires t.callers == s.callers[id := s.callers[id].(phase := phase)]
    requires CallerOk(c, t, id)
    ensures Inv(c, t)
  {
    hide EntryOk, CallerOk, ResultOk;
    OthersStay(c, s, t, id);
  }

  lemma FirstLookKeeps(c: Config, s: State, t: State, id: Id)
    requires Inv(c, s) && FirstLook(s, t, id)
    ensures Inv(c, t)
  {
    hide Genuine, EntryOk, ResultOk;
    assert CallerOk(c, s, id);
    FoundIsGenuine(c, s, s.callers[id].host);
    var found := Find(s.entries, s.callers[id].host, s.now);
    if found.Some? {
      GenuineStays(c, s, t, s.callers[id].host, Value(found.value, s.now));
    }
    SameFlightsStep(c, s, t, id, t.callers[id].phase);
  }

  lemma SecondLookKeeps(c: Config, s: State, t: State, id: Id)
    requires Inv(c, s) && SecondLook(s, t, id)
    ensures Inv(c, t)
  {
    hide Genuine, EntryOk, ResultOk;
    assert CallerOk(c, s, id);
    FoundIsGenuine(c, s, s.callers[id].host);
    var found := Find(s.entries, s.callers[id].host, s.now);
    if found.Some? {
      GenuineStays(c, s, t, s.callers[id].host, Value(found.value, s.now));
    }
    SameFlightsStep(c, s, t, id, t.callers[id].phase);
  }

  lemma LeaderIsOk(c: Config, s: State, t: State, id: Id)
    requires Inv(c, s) && Join(s, t, id) && s.callers[id].host !in s.flights
    ensures CallerOk(c, t, id)
  {
    hide Genuine, EntryOk, ResultOk, FlightOk;
    assert CallerOk(c, s, id);
  }

  lemma FollowerIsOk(c: Config, s: State, t: State, id: Id)
    requires Inv(c, s) && Join(s, t, id) && s.callers[id].host in s.flights
    ensures CallerOk(c, t, id)
  {
    hide Genuine, EntryOk, ResultOk;
    assert CallerOk(c, s, id);
    assert FlightOk(s, s.callers[id].host);
  }

  lemma JoinKeeps(c: Config, s: State, t: State, id: Id)
    requires Inv(c, s) && Join(s, t, id)
    ensures Inv(c, t)
  {
    hide Genuine, EntryOk, ResultOk, CallerOk;
    var host := s.callers[id].host;
    if host in s.flights {
      FollowerIsOk(c, s, t, id);
      SameFlightsStep(c, s, t, id, Waiting(s.flights[host]));
    } else {
      LeaderIsOk(c, s, t, id);
      OthersStay(c, s, t, id);
      forall h | h in t.flights ensures FlightOk(t, h) {
        assert h in s.flights ==> FlightOk(s, h);
      }
    }
  }

  lemma AnswerKeeps(c: Config, s: State, t: State, id: Id)
    requires Inv(c, s) && Answer(s, t, id)
    ensures Inv(c, t)
  {
    hide Genuine, EntryOk, ResultOk;
    assert CallerOk(c, s, id);
    if ips :| t == Move(s, id, Told(ips)).(answers := s.answers + {Fact(s.callers[id].host, ips, s.now)}) {
      var a := Fact(s.callers[id].host, ips, s.now);
      assert a in t.answers && a.host == t.callers[id].host;
    }
    SameFlightsStep(c, s, t, id, t.callers[id].phase);
  }

  lemma StoreKeeps(c: Config, s: State, t: State, id: Id)
    requires ConfigOk(c) && Inv(c, s) && Store(c, s, t, id)
    ensures Inv(c, t)
  {
    hide EntryOk, ResultOk, Stored;
    assert CallerOk(c, s, id);
    var host, ips := s.callers[id].host, s.callers[id].phase.ips;
    var f := Fact(host, ips, s.now);
    StoreKeepsBound(s.entries, t.entries, c.max, host, Entry(ips, s.now + c.ttl));
    assert Backed(t, f);
    assert f in t.stores && f.at <= s.now <= f.at + c.ttl;
    assert Genuine(c, t, host, Value(ips, s.now));
    StoredIsOk(c, t, f);
    hide Genuine, Backed;
    assert CallerOk(c, t, id);
    hide CallerOk;
    OthersStay(c, s, t, id);
  }

  lemma StoredIsOk(c: Config, t: State, f: Fact)
    requires f in t.stores && Backed(t, f) && f.at <= t.now && f.host in t.entries && t.entries[f.host] == Entry(f.ips, f.at + c.ttl)
    ensures EntryOk(c, t, f.host)
  {
    hide Backed;
  }

  lemma EndedIsOk(c: Config, t: State, id: Id, outcome: Option<Value>)
    requires At(t, id, Ended(outcome)) && t.callers[id].host != ""
    requires outcome.Some? ==> Genuine(c, t, t.callers[id].host, outcome.value)
    ensures CallerOk(c, t, id)
  {
    hide Genuine;
  }

  lemma LeaverIsOk(c: Config, s: State, t: State, id: Id)
    requires Inv(c, s) && Leave(s, t, id)
    ensures CallerOk(c, t, id) && ResultOk(c, t, id)
    ensures s.callers[id].host in s.flights && s.flights[s.callers[id].host] == id
  {
    hide Genuine, EntryOk, FlightOk;
    var host, outcome := s.callers[id].host, s.callers[id].phase.outcome;
    assert CallerOk(c, s, id);
    if outcome.Some? {
      GenuineStays(c, s, t, host, outcome.value);
    }
    EndedIsOk(c, t, id, outcome);
  }

  lemma LeaveKeeps(c: Config, s: State, t: State, id: Id)
    requires Inv(c, s) && Leave(s, t, id)
    ensures Inv(c, t)
  {
    hide Genuine, EntryOk, CallerOk, ResultOk, Ended;
    LeaverIsOk(c, s, t, id);
    OthersStay(c, s, t, id);
    forall h | h in t.flights ensures FlightOk(t, h) {
      assert FlightOk(s, h);
    }
  }

  lemma ReleaseKeeps(c: Config, s: State, t: State, id: Id)
    requires Inv(c, s) && Release(s, t, id)
    ensures Inv(c, t)
  {
    hide Genuine, EntryOk;
    assert CallerOk(c, s, id);
    var leader := s.callers[id].phase.leader;
    assert ResultOk(c, s, leader);
    if s.results[leader].Some? {
      GenuineStays(c, s, t, s.callers[id].host, s.results[leader].value);
    }
    hide ResultOk;
    SameFlightsStep(c, s, t, id, t.callers[id].phase);
  }

  lemma TickKeeps(c: Config, s: State, t: State)
    requires Inv(c, s) && Tick(s, t)
    ensures Inv(c, t)
  {
    hide Genuine, EntryOk, ResultOk, CallerOk;
    var unused := FreshId(s.callers.Keys);
    OthersStay(c, s, t, unused);
    assert forall h :: h in t.flights ==> FlightOk(s, h);
  }

  lemma ArriveKeeps(c: Config, s: State, t: State, id: Id, host: string)
    requires Inv(c, s) && Arrive(s, t, id, host)
    ensures Inv(c, t)
  {
    hide Genuine, EntryOk, ResultOk, CallerOk;
    ArrivedIsOk(c, t, id);
    OthersStay(c, s, t, id);
    assert forall h :: h in t.flights ==> FlightOk(s, h);
  }

  lemma ArrivedIsOk(c: Config, t: State, id: Id)
    requires At(t, id, Arrived) && t.callers[id].host != ""
    ensures CallerOk(c, t, id)
  {
  }

  lemma {:induction false} FreshId(ids: set<Id>) returns (id: Id)
    ensures forall i :: i in ids ==> i < id
  {
    if ids == {} {
      id := 0;
    } else {
      var i :| i in ids;
      var j := FreshId(ids - {i});
      id := if i < j then j else i + 1;
      assert forall k :: k in ids ==> k == i || k in ids - {i};
    }
  }

  lemma StepKeeps(c: Config, s: State, t: State)
    requires ConfigOk(c) && Inv(c, s) && Next(c, s, t)
    ensures Inv(c, t)
  {
    hide Inv, Tick, Arrive, FirstLook, Join, SecondLook, Answer, Store, Leave, Release;
    var id, host :| Step(c, s, t, id, host);
    if Tick(s, t) {
      TickKeeps(c, s, t);
    } else if Arrive(s, t, id, host) {
      ArriveKeeps(c, s, t, id, host);
    } else if FirstLook(s, t, id) {
      FirstLookKeeps(c, s, t, id);
    } else if Join(s, t, id) {
      JoinKeeps(c, s, t, id);
    } else if SecondLook(s, t, id) {
      SecondLookKeeps(c, s, t, id);
    } else if Answer(s, t, id) {
      AnswerKeeps(c, s, t, id);
    } else if Store(c, s, t, id) {
      StoreKeeps(c, s, t, id);
    } else if Leave(s, t, id) {
      LeaveKeeps(c, s, t, id);
    } else {
      ReleaseKeeps(c, s, t, id);
    }
  }

  lemma {:induction false} RunKeeps(c: Config, run: seq<State>, i: nat)
    requires ConfigOk(c) && Run(c, run) && i < |run|
    ensures Inv(c, run[i])
  {
    hide Next;
    if i > 0 {
      RunKeeps(c, run, i - 1);
      assert Consecutive(c, run, i - 1);
      hide Inv;
      StepKeeps(c, run[i - 1], run[i]);
    }
  }

  // ------------------------------------------------------------ the main results

  /** Along every run, addresses that a lookup returns are an answer that the DNS
      gave for that very host, stored no longer than the time to live before the
      cache was read; the cache is within its bound and never holds "". */
  lemma LookupsAreGenuine(c: Config, run: seq<State>, i: nat)
    requires ConfigOk(c) && Run(c, run) && i < |run|
    ensures |run[i].entries| <= c.max && !Confused(run[i].entries)
    ensures forall id :: id in run[i].callers && run[i].callers[id].phase.Done? ==>
              exists a, f :: a in run[i].answers && f in run[i].stores && a.host == f.host == run[i].callers[id].host
                && a.ips == f.ips == run[i].callers[id].phase.value.ips
                && a.at <= f.at <= run[i].callers[id].phase.value.at <= f.at + c.ttl
  {
    var s := run[i];
    RunKeeps(c, run, i);
    forall id | id in s.callers && s.callers[id].phase.Done?
      ensures exists a, f :: a in s.answers && f in s.stores && a.host == f.host == s.callers[id].host
                && a.ips == f.ips == s.callers[id].phase.value.ips
                && a.at <= f.at <= s.callers[id].phase.value.at <= f.at + c.ttl
    {
      hide EntryOk, ResultOk;
      assert CallerOk(c, s, id);
      var v := s.callers[id].phase.value;
      var f :| f in s.stores && f.host == s.callers[id].host && f.ips == v.ips && f.at <= v.at <= f.at + c.ttl && Backed(s, f);
      var a :| a in s.answers && a.host == f.host && a.ips == f.ips && a.at <= f.at;
    }
  }

  /** At most one caller at a time asks the DNS about a host. */
  lemma OneQuestionPerHost(c: Config, run: seq<State>, i: nat, a: Id, b: Id)
    requires ConfigOk(c) && Run(c, run) && i < |run|
    requires a in run[i].callers && b in run[i].callers && run[i].callers[a].host == run[i].callers[b].host
    requires run[i].callers[a].phase.Asking? && run[i].callers[b].phase.Asking?
    ensures a == b
  {
    RunKeeps(c, run, i);
    hide EntryOk, ResultOk;
    assert CallerOk(c, run[i], a) && CallerOk(c, run[i], b);
  }
}
