// Idempotent submission over every interleaving: with no Redis error on the
// idempotency commands and no expiry of an idempotency record, everybody who
// submits under one caller fingerprint and Idempotency-Key is answered with
// the token of the one who won the SETNX.

module TaskAgreement {
  import opened Bytes
  import opened Tasks

  /** No failure of ResolveIdempotent or RecordIdempotent, no expiry of their
      records; every other failure and expiry may happen. */
  predicate Clean(a: Action) {
    match a
    case Sub(_, Lookup(ok)) => ok
    case Sub(_, Reserve(ok)) => ok
    case Sub(_, ReadWinner(ok)) => ok
    case Expire(e) => !e.ExpireIdem?
    case _ => true
  }

  // ---------------------------------------------------------- the event log

  /** Some SETNX for k succeeded among the first n events. */
  ghost predicate ReservedBefore(log: seq<Event>, k: IdemKey, n: nat)
    requires n <= |log|
  {
    exists y :: 0 <= y < n && log[y].Reserved? && log[y].key == k
  }

  /** The GET of submission i for k found nothing, among the first n events. */
  ghost predicate MissedBefore(log: seq<Event>, i: Id, k: IdemKey, n: nat)
    requires n <= |log|
  {
    exists y :: 0 <= y < n && log[y] == Got(i, k, false)
  }

  /** GETs see exactly the reservations made before them. */
  ghost predicate GetsOk(c: Config, s: State) {
    forall x :: 0 <= x < |s.h.log| && s.h.log[x].Got? ==>
      var e := s.h.log[x];
      && e.sub in s.subs && s.subs[e.sub].idem != "" && !s.subs[e.sub].phase.Arrived?
      && e.key == KeyOf(c, s.subs[e.sub])
      && (e.found <==> ReservedBefore(s.h.log, e.key, x))
  }

  ghost predicate OneGetEach(log: seq<Event>) {
    forall x, y :: 0 <= x < y < |log| && log[x].Got? && log[y].Got? ==> log[x].sub != log[y].sub
  }

  /** Enqueueing under an Idempotency-Key follows a GET that found nothing. */
  ghost predicate EnqueuesOk(c: Config, s: State) {
    forall x :: 0 <= x < |s.h.log| && s.h.log[x].Enqueued? ==>
      var i := s.h.log[x].sub;
      i in s.subs && (s.subs[i].idem != "" ==> MissedBefore(s.h.log, i, KeyOf(c, s.subs[i]), x))
  }

  /** The idempotency records are the successful SETNX commands. */
  ghost predicate ReservesOk(s: State) {
    && (forall x :: 0 <= x < |s.h.log| && s.h.log[x].Reserved? ==>
         s.h.log[x].key in s.redis.idems && s.redis.idems[s.h.log[x].key] == s.h.log[x].token)
    && (forall k :: k in s.redis.idems ==> ReservedBefore(s.h.log, k, |s.h.log|) && s.redis.idems[k] in s.h.bound)
  }

  ghost predicate OneReserveEach(log: seq<Event>) {
    forall x, y :: 0 <= x < y < |log| && log[x].Reserved? && log[y].Reserved? ==> log[x].key != log[y].key
  }

  /** What each phase of a submission says about the records. */
  ghost predicate PhaseOk(c: Config, s: State, i: Id)
    requires i in s.subs
  {
    var sub := s.subs[i];
    var k := KeyOf(c, sub);
    && (sub.idem != "" && (sub.phase.Storing? || sub.phase.Pushed? || sub.phase.Bound? || sub.phase.Mapped? || sub.phase.LostRace?) ==>
         MissedBefore(s.h.log, i, k, |s.h.log|))
    && (sub.phase.Bound? || sub.phase.Mapped? || sub.phase.LostRace? || sub.phase.Answered? ==> sub.phase.token in s.h.bound)
    && (sub.idem != "" && sub.phase.LostRace? ==> k in s.redis.idems)
    && (sub.idem != "" && sub.phase.Answered? ==> k in s.redis.idems && s.redis.idems[k] == sub.phase.token)
  }

  ghost predicate PhasesOk(c: Config, s: State) {
    forall i :: i in s.subs ==> PhaseOk(c, s, i)
  }

  ghost predicate Agreed(c: Config, s: State) {
    GetsOk(c, s) && OneGetEach(s.h.log) && EnqueuesOk(c, s) && ReservesOk(s) && OneReserveEach(s.h.log) && PhasesOk(c, s)
  }

  // ------------------------------------------------------------- preservation

  /** Requests are kept, and no submission returns to its arrival. */
  ghost predicate SameRequests(s: State, s': State) {
    forall i :: i in s.subs ==>
      && i in s'.subs && s'.subs[i].apiKey == s.subs[i].apiKey && s'.subs[i].idem == s.subs[i].idem
      && (s'.subs[i].phase.Arrived? ==> s.subs[i].phase.Arrived?)
  }

  /** A step that logs nothing keeps the log's properties. */
  lemma QuietStep(c: Config, s: State, s': State)
    requires Agreed(c, s) && SameRequests(s, s') && s'.h.log == s.h.log && s'.redis.idems == s.redis.idems
    requires forall t :: t in s.h.bound ==> t in s'.h.bound
    requires PhasesOk(c, s')
    ensures Agreed(c, s')
  {
    hide PhasesOk;
  }

  /** A phase that is still the same is still in order. */
  lemma PhaseStays(c: Config, s: State, s': State, i: Id)
    requires PhasesOk(c, s) && i in s.subs && i in s'.subs && s'.subs[i] == s.subs[i]
    requires s.h.log <= s'.h.log && forall t :: t in s.h.bound ==> t in s'.h.bound
    requires forall k :: k in s.redis.idems ==> k in s'.redis.idems && s'.redis.idems[k] == s.redis.idems[k]
    ensures PhaseOk(c, s', i)
  {
    assert PhaseOk(c, s, i);
    var k := KeyOf(c, s.subs[i]);
    if MissedBefore(s.h.log, i, k, |s.h.log|) {
      var y :| 0 <= y < |s.h.log| && s.h.log[y] == Got(i, k, false);
      assert s'.h.log[y] == Got(i, k, false);
    }
  }

  lemma AllPhases(c: Config, s: State, s': State, i: Id)
    requires PhasesOk(c, s) && i in s'.subs && PhaseOk(c, s', i)
    requires forall j :: j in s'.subs && j != i ==> j in s.subs && s'.subs[j] == s.subs[j]
    requires s.h.log <= s'.h.log && forall t :: t in s.h.bound ==> t in s'.h.bound
    requires forall k :: k in s.redis.idems ==> k in s'.redis.idems && s'.redis.idems[k] == s.redis.idems[k]
    ensures PhasesOk(c, s')
  {
    hide PhaseOk, PhasesOk;
    forall j | j in s'.subs ensures PhaseOk(c, s', j) {
      if j != i { PhaseStays(c, s, s', j); }
    }
    AllOk(c, s');
  }

  lemma AllOk(c: Config, s: State)
    requires forall j :: j in s.subs ==> PhaseOk(c, s, j)
    ensures PhasesOk(c, s)
  {
  }

  /** Earlier events look the same after one more is logged. */
  lemma Appended(log: seq<Event>, e: Event, k: IdemKey, i: Id, n: nat)
    requires n <= |log|
    ensures ReservedBefore(log + [e], k, n) <==> ReservedBefore(log, k, n)
    ensures MissedBefore(log + [e], i, k, n) <==> MissedBefore(log, i, k, n)
  {
    if ReservedBefore(log, k, n) {
      var y :| 0 <= y < n && log[y].Reserved? && log[y].key == k;
      assert (log + [e])[y] == log[y];
    }
    if MissedBefore(log, i, k, n) {
      var y :| 0 <= y < n && log[y] == Got(i, k, false);
      assert (log + [e])[y] == log[y];
    }
    if ReservedBefore(log + [e], k, n) {
      var y :| 0 <= y < n && (log + [e])[y].Reserved? && (log + [e])[y].key == k;
      assert log[y] == (log + [e])[y];
    }
    if MissedBefore(log + [e], i, k, n) {
      var y :| 0 <= y < n && (log + [e])[y] == Got(i, k, false);
      assert log[y] == (log + [e])[y];
    }
  }

  lemma GetsStay(c: Config, s: State, s': State, e: Event)
    requires GetsOk(c, s) && SameRequests(s, s') && s'.h.log == s.h.log + [e]
    requires e.Got? ==>
               && e.sub in s'.subs && s'.subs[e.sub].idem != "" && !s'.subs[e.sub].phase.Arrived?
               && e.key == KeyOf(c, s'.subs[e.sub]) && (e.found <==> ReservedBefore(s.h.log, e.key, |s.h.log|))
    ensures GetsOk(c, s')
  {
    hide ReservedBefore;
    var log := s'.h.log;
    forall x | 0 <= x < |log| && log[x].Got?
      ensures && log[x].sub in s'.subs && s'.subs[log[x].sub].idem != "" && !s'.subs[log[x].sub].phase.Arrived?
              && log[x].key == KeyOf(c, s'.subs[log[x].sub]) && (log[x].found <==> ReservedBefore(log, log[x].key, x))
    {
      Appended(s.h.log, e, log[x].key, 0, x);
      if x < |s.h.log| {
        assert log[x] == s.h.log[x];
      }
    }
  }

  lemma EnqueuesStay(c: Config, s: State, s': State, e: Event)
    requires EnqueuesOk(c, s) && SameRequests(s, s') && s'.h.log == s.h.log + [e]
    requires e.Enqueued? ==>
               e.sub in s'.subs && (s'.subs[e.sub].idem != "" ==> MissedBefore(s.h.log, e.sub, KeyOf(c, s'.subs[e.sub]), |s.h.log|))
    ensures EnqueuesOk(c, s')
  {
    hide MissedBefore;
    var log := s'.h.log;
    forall x | 0 <= x < |log| && log[x].Enqueued?
      ensures var i := log[x].sub; i in s'.subs && (s'.subs[i].idem != "" ==> MissedBefore(log, i, KeyOf(c, s'.subs[i]), x))
    {
      if x < |s.h.log| {
        assert log[x] == s.h.log[x];
      }
      var i := log[x].sub;
      if i in s'.subs {
        Appended(s.h.log, e, KeyOf(c, s'.subs[i]), i, x);
      }
    }
  }

  /** One more event that is not a reservation. */
  lemma ReservesStay(s: State, s': State, e: Event)
    requires ReservesOk(s) && OneReserveEach(s.h.log) && s'.h.log == s.h.log + [e] && !e.Reserved?
    requires s'.redis.idems == s.redis.idems && forall t :: t in s.h.bound ==> t in s'.h.bound
    ensures ReservesOk(s') && OneReserveEach(s'.h.log)
  {
    forall k | k in s'.redis.idems ensures ReservedBefore(s'.h.log, k, |s'.h.log|) {
      var y :| 0 <= y < |s.h.log| && s.h.log[y].Reserved? && s.h.log[y].key == k;
      assert s'.h.log[y] == s.h.log[y];
    }
  }

  /** A key has a record exactly when some SETNX for it has succeeded. */
  lemma RecordedIffReserved(s: State, k: IdemKey)
    requires ReservesOk(s)
    ensures k in s.redis.idems <==> ReservedBefore(s.h.log, k, |s.h.log|)
  {
  }

  lemma GotLogged(c: Config, s: State, s': State, i: Id, found: bool)
    requires Agreed(c, s) && SameRequests(s, s') && i in s.subs && s.subs[i].phase.Arrived? && s.subs[i].idem != ""
    requires s'.h.log == s.h.log + [Got(i, KeyOf(c, s.subs[i]), found)] && s'.redis.idems == s.redis.idems && s'.h.bound == s.h.bound
    requires !s'.subs[i].phase.Arrived? && (found <==> KeyOf(c, s.subs[i]) in s.redis.idems) && PhasesOk(c, s')
    ensures Agreed(c, s')
  {
    hide ReservedBefore, MissedBefore, PhasesOk;
    var e := Got(i, KeyOf(c, s.subs[i]), found);
    RecordedIffReserved(s, e.key);
    GetsStay(c, s, s', e);
    EnqueuesStay(c, s, s', e);
    ReservesStay(s, s', e);
  }

  lemma EnqueueLogged(c: Config, s: State, s': State, i: Id, task: Id)
    requires Agreed(c, s) && SameRequests(s, s') && i in s.subs && s.subs[i].phase.Storing?
    requires s'.h.log == s.h.log + [Enqueued(i, task)] && s'.redis.idems == s.redis.idems && s'.h.bound == s.h.bound
    requires PhasesOk(c, s')
    ensures Agreed(c, s')
  {
    hide ReservedBefore, MissedBefore;
    assert PhaseOk(c, s, i);
    hide PhasesOk;
    var e := Enqueued(i, task);
    GetsStay(c, s, s', e);
    EnqueuesStay(c, s, s', e);
    ReservesStay(s, s', e);
  }

  lemma ReserveLogged(c: Config, s: State, s': State, i: Id, k: IdemKey, token: Id)
    requires Agreed(c, s) && SameRequests(s, s') && k !in s.redis.idems && token in s.h.bound
    requires s'.h.log == s.h.log + [Reserved(i, k, token)] && s'.redis.idems == s.redis.idems[k := token] && s'.h.bound == s.h.bound
    requires PhasesOk(c, s')
    ensures Agreed(c, s')
  {
    hide PhasesOk, MissedBefore;
    var e := Reserved(i, k, token);
    GetsStay(c, s, s', e);
    EnqueuesStay(c, s, s', e);
    forall k' | k' in s'.redis.idems ensures ReservedBefore(s'.h.log, k', |s'.h.log|) {
      if k' == k {
        assert s'.h.log[|s.h.log|] == e;
      } else {
        var y :| 0 <= y < |s.h.log| && s.h.log[y].Reserved? && s.h.log[y].key == k';
        assert s'.h.log[y] == s.h.log[y];
      }
    }
  }

  // ------------------------------------------------------------------- steps

  lemma LookupAgrees(c: Config, s: State, i: Id)
    requires Agreed(c, s) && SubEnabled(s, i, Lookup(true))
    ensures Agreed(c, LookupStep(c, s, i, true))
  {
    hide Agreed, WithinLimits, KeyOf, PhasesOk;
    var s' := LookupStep(c, s, i, true);
    var k := KeyOf(c, s.subs[i]);
    SplitAgreed(c, s);
    LookupPhaseOk(c, s, i);
    hide PhaseOk, EnqueuePhase;
    AllPhases(c, s, s', i);
    if s.subs[i].idem == "" {
      QuietStep(c, s, s');
    } else {
      GotLogged(c, s, s', i, k in s.redis.idems);
    }
  }

  lemma LookupPhaseOk(c: Config, s: State, i: Id)
    requires ReservesOk(s) && SubEnabled(s, i, Lookup(true))
    ensures PhaseOk(c, LookupStep(c, s, i, true), i)
  {
    hide WithinLimits, KeyOf, ReservesOk;
    var s' := LookupStep(c, s, i, true);
    var k := KeyOf(c, s.subs[i]);
    SameKey(c, s.subs[i], s'.subs[i]);
    if s.subs[i].idem != "" {
      assert s'.h.log[|s.h.log|] == Got(i, k, k in s.redis.idems);
      RecordBound(s, k);
    }
  }

  lemma SameKey(c: Config, a: Submission, b: Submission)
    requires a.apiKey == b.apiKey && a.idem == b.idem
    ensures KeyOf(c, a) == KeyOf(c, b)
  {
  }

  lemma RecordBound(s: State, k: IdemKey)
    requires ReservesOk(s)
    ensures k in s.redis.idems ==> s.redis.idems[k] in s.h.bound
  {
  }

  lemma SplitAgreed(c: Config, s: State)
    requires Agreed(c, s)
    ensures PhasesOk(c, s) && ReservesOk(s)
  {
  }

  lemma PhaseAt(c: Config, s: State, i: Id)
    requires Agreed(c, s) && i in s.subs
    ensures PhaseOk(c, s, i)
  {
  }

  lemma PushAgrees(c: Config, s: State, i: Id, task: Id)
    requires Agreed(c, s) && SubEnabled(s, i, Push(task))
    ensures Agreed(c, PushStep(s, i, task))
  {
    hide Agreed, PhasesOk;
    var s' := PushStep(s, i, task);
    SplitAgreed(c, s);
    PhaseAt(c, s, i);
    Appended(s.h.log, Enqueued(i, task), KeyOf(c, s.subs[i]), i, |s.h.log|);
    MissedStays(s.h.log, Enqueued(i, task), i, KeyOf(c, s.subs[i]));
    hide MissedBefore;
    assert PhaseOk(c, s', i);
    AllPhases(c, s, s', i);
    EnqueueLogged(c, s, s', i, task);
  }

  lemma MissedStays(log: seq<Event>, e: Event, i: Id, k: IdemKey)
    ensures MissedBefore(log, i, k, |log|) ==> MissedBefore(log + [e], i, k, |log + [e]|)
  {
    if MissedBefore(log, i, k, |log|) {
      var y :| 0 <= y < |log| && log[y] == Got(i, k, false);
      assert (log + [e])[y] == Got(i, k, false);
    }
  }

  lemma ReserveAgrees(c: Config, s: State, i: Id)
    requires Agreed(c, s) && SubEnabled(s, i, Reserve(true))
    ensures Agreed(c, ReserveStep(c, s, i, true))
  {
    hide Agreed, KeyOf, PhasesOk;
    var s' := ReserveStep(c, s, i, true);
    var sub := s.subs[i];
    var k := KeyOf(c, sub);
    SplitAgreed(c, s);
    PhaseAt(c, s, i);
    SameKey(c, sub, s'.subs[i]);
    hide MissedBefore;
    assert PhaseOk(c, s', i);
    AllPhases(c, s, s', i);
    if sub.idem == "" || k in s.redis.idems {
      QuietStep(c, s, s');
    } else {
      ReserveLogged(c, s, s', i, k, sub.phase.token);
    }
  }

  /** Steps that log nothing: the submission's own phase must be in order. */
  lemma QuietSubStep(c: Config, s: State, s': State, i: Id)
    requires Agreed(c, s) && i in s'.subs && PhaseOk(c, s', i)
    requires s'.subs.Keys == s.subs.Keys + {i} && s'.redis.idems == s.redis.idems && s'.h.log == s.h.log
    requires forall j :: j in s.subs && j != i ==> s'.subs[j] == s.subs[j]
    requires i in s.subs ==> s'.subs[i] == s.subs[i].(phase := s'.subs[i].phase) && !s'.subs[i].phase.Arrived?
    requires forall t :: t in s.h.bound ==> t in s'.h.bound
    ensures Agreed(c, s')
  {
    hide Agreed, PhasesOk, PhaseOk;
    SplitAgreed(c, s);
    AllPhases(c, s, s', i);
    QuietStep(c, s, s');
  }

  lemma WinnerAgrees(c: Config, s: State, i: Id)
    requires Agreed(c, s) && SubEnabled(s, i, ReadWinner(true))
    ensures Agreed(c, WinnerStep(c, s, i, true))
  {
    hide Agreed, KeyOf, MissedBefore, ReservedBefore;
    var s' := WinnerStep(c, s, i, true);
    PhaseAt(c, s, i);
    SplitAgreed(c, s);
    RecordBound(s, KeyOf(c, s.subs[i]));
    SameKey(c, s.subs[i], s'.subs[i]);
    QuietSubStep(c, s, s', i);
  }

  lemma BindAgrees(c: Config, s: State, i: Id, token: Id)
    requires Agreed(c, s) && SubEnabled(s, i, Bind(token))
    ensures Agreed(c, BindStep(c, s, i, token))
  {
    hide Agreed, KeyOf, MissedBefore;
    var s' := BindStep(c, s, i, token);
    PhaseAt(c, s, i);
    SameKey(c, s.subs[i], s'.subs[i]);
    QuietSubStep(c, s, s', i);
  }

  lemma StoreAgrees(c: Config, s: State, i: Id, key: Id)
    requires Agreed(c, s) && SubEnabled(s, i, StoreBlob(key))
    ensures Agreed(c, StoreStep(s, i, key))
  {
    hide Agreed, KeyOf, MissedBefore;
    var s' := StoreStep(s, i, key);
    PhaseAt(c, s, i);
    SameKey(c, s.subs[i], s'.subs[i]);
    QuietSubStep(c, s, s', i);
  }

  lemma SetPhaseAgrees(c: Config, s: State, i: Id, p: Phase)
    requires Agreed(c, s) && i in s.subs
    requires p == Failed || (s.subs[i].phase.Bound? && p == Mapped(s.subs[i].phase.token))
    ensures Agreed(c, SetPhase(s, i, p))
  {
    hide Agreed, KeyOf, MissedBefore;
    var s' := SetPhase(s, i, p);
    PhaseAt(c, s, i);
    SameKey(c, s.subs[i], s'.subs[i]);
    QuietSubStep(c, s, s', i);
  }

  lemma SubmitAgrees(c: Config, s: State, i: Id, sub: Submission)
    requires Agreed(c, s) && i !in s.subs && sub.phase == Arrived
    ensures Agreed(c, s.(subs := s.subs[i := sub]))
  {
    hide Agreed, KeyOf, MissedBefore;
    QuietSubStep(c, s, s.(subs := s.subs[i := sub]), i);
  }

  lemma SubStepAgrees(c: Config, s: State, i: Id, a: SubAction)
    requires Agreed(c, s) && SubEnabled(s, i, a) && Clean(Sub(i, a))
    ensures Agreed(c, SubStep(c, s, i, a))
  {
    hide Agreed, StoreStep, PushStep, BindStep, LookupStep, ReserveStep, WinnerStep, SetPhase;
    match a
    case Submit(apiKey, idem, uploads) => SubmitAgrees(c, s, i, Submission(apiKey, idem, uploads, Arrived));
    case Lookup(ok) => LookupAgrees(c, s, i);
    case StoreBlob(key) => StoreAgrees(c, s, i, key);
    case Push(task) => PushAgrees(c, s, i, task);
    case Bind(token) => BindAgrees(c, s, i, token);
    case MapQueue => SetPhaseAgrees(c, s, i, Mapped(s.subs[i].phase.token));
    case Reserve(ok) => ReserveAgrees(c, s, i);
    case ReadWinner(ok) => WinnerAgrees(c, s, i);
    case RedisError => SetPhaseAgrees(c, s, i, Failed);
  }

  /** Workers, readers and the other expiries do not touch what is agreed. */
  lemma OtherStepAgrees(c: Config, s: State, s': State)
    requires Agreed(c, s) && Untouched(s, s')
    ensures Agreed(c, s')
  {
    hide MissedBefore, ReservedBefore;
  }

  ghost predicate Untouched(s: State, s': State) {
    s'.subs == s.subs && s'.redis.idems == s.redis.idems && s'.h.log == s.h.log && s'.h.bound == s.h.bound
  }

  lemma WorkIsQuiet(s: State, w: Id, a: WorkAction)
    requires WorkEnabled(s, w, a)
    ensures Untouched(s, WorkStep(s, w, a))
  {
  }

  lemma ReadIsQuiet(c: Config, s: State, r: Id, a: ReadAction)
    requires ReadEnabled(s, r, a)
    ensures Untouched(s, ReadStep(c, s, r, a))
  {
  }

  lemma ExpiryIsQuiet(s: State, e: Expiry)
    requires !e.ExpireIdem?
    ensures Untouched(s, ExpireStep(s, e))
  {
  }

  lemma StepAgrees(c: Config, s: State, a: Action)
    requires Agreed(c, s) && Enabled(s, a) && Clean(a)
    ensures Agreed(c, Step(c, s, a))
  {
    hide Agreed, Untouched, SubStep, SubEnabled, WorkStep, ReadStep, ExpireStep, WorkEnabled, ReadEnabled;
    match a
    case Sub(i, x) => SubStepAgrees(c, s, i, x);
    case Work(w, x) =>
      WorkIsQuiet(s, w, x);
      OtherStepAgrees(c, s, WorkStep(s, w, x));
    case Read(r, x) =>
      ReadIsQuiet(c, s, r, x);
      OtherStepAgrees(c, s, ReadStep(c, s, r, x));
    case Expire(e) =>
      ExpiryIsQuiet(s, e);
      OtherStepAgrees(c, s, ExpireStep(s, e));
  }

  ghost predicate AllClean(actions: seq<Action>) {
    forall i :: 0 <= i < |actions| ==> Clean(actions[i])
  }

  lemma {:induction false} RunAgrees(c: Config, actions: seq<Action>)
    requires Run(c, actions).Some? && AllClean(actions)
    ensures Agreed(c, Run(c, actions).value)
    decreases |actions|
  {
    if actions != [] {
      hide Agreed;
      var n := |actions| - 1;
      RunAgrees(c, actions[..n]);
      StepAgrees(c, Run(c, actions[..n]).value, actions[n]);
    }
  }

  // ------------------------------------------------------------ main theorems

  /** Agreement: whoever is answered under one fingerprint and Idempotency-Key
      is answered with the same token; it is the token of a successful SETNX,
      the only one for that key, and it has a binding. */
  lemma Agreement(c: Config, actions: seq<Action>, i: Id, j: Id)
    requires Run(c, actions).Some? && AllClean(actions)
    requires var s := Run(c, actions).value;
             && i in s.subs && j in s.subs && s.subs[i].phase.Answered? && s.subs[j].phase.Answered?
             && s.subs[i].idem != "" && s.subs[j].idem != ""
             && c.fingerprint(s.subs[i].apiKey) == c.fingerprint(s.subs[j].apiKey) && c.hash(s.subs[i].idem) == c.hash(s.subs[j].idem)
    ensures var s := Run(c, actions).value;
            var token := s.subs[i].phase.token;
            var k := IdemKey(c.fingerprint(s.subs[i].apiKey), c.hash(s.subs[i].idem));
            && s.subs[j].phase.token == token && token in s.h.bound
            && (exists x :: 0 <= x < |s.h.log| && s.h.log[x].Reserved? && s.h.log[x].key == k && s.h.log[x].token == token)
            && (forall x :: 0 <= x < |s.h.log| && s.h.log[x].Reserved? && s.h.log[x].key == k ==> s.h.log[x].token == token)
  {
    RunAgrees(c, actions);
    var s := Run(c, actions).value;
    var k := KeyOf(c, s.subs[i]);
    assert KeyOf(c, s.subs[j]) == k == IdemKey(c.fingerprint(s.subs[i].apiKey), c.hash(s.subs[i].idem));
    hide KeyOf, Run;
    PhaseAt(c, s, i);
    PhaseAt(c, s, j);
    RecordedIffReserved(s, k);
    var x :| 0 <= x < |s.h.log| && s.h.log[x].Reserved? && s.h.log[x].key == k;
  }

  /** Who enqueues: a submission under an Idempotency-Key enqueues work only if
      its GET came before every successful SETNX for the key; if its GET came
      after one, it found the record and never enqueues. */
  lemma EnqueuesOnlyBeforeReservation(c: Config, actions: seq<Action>, g: nat)
    requires Run(c, actions).Some? && AllClean(actions)
    requires g < |Run(c, actions).value.h.log| && Run(c, actions).value.h.log[g].Got?
    ensures var s := Run(c, actions).value;
            var e := s.h.log[g];
            && e.sub in s.subs && e.key == IdemKey(c.fingerprint(s.subs[e.sub].apiKey), c.hash(s.subs[e.sub].idem))
            && (e.found <==> ReservedBefore(s.h.log, e.key, g))
            && (ReservedBefore(s.h.log, e.key, g) ==> forall x :: 0 <= x < |s.h.log| ==> !(s.h.log[x].Enqueued? && s.h.log[x].sub == e.sub))
  {
    hide ReservedBefore;
    RunAgrees(c, actions);
    var s := Run(c, actions).value;
    var e := s.h.log[g];
    if e.found {
      forall x | 0 <= x < |s.h.log| ensures !(s.h.log[x].Enqueued? && s.h.log[x].sub == e.sub) {
        assert MissedBefore(s.h.log, e.sub, KeyOf(c, s.subs[e.sub]), x) ==> false by { OnlyGet(s.h.log, g, e.sub, KeyOf(c, s.subs[e.sub]), x); }
      }
    }
  }

  lemma OnlyGet(log: seq<Event>, g: nat, i: Id, k: IdemKey, n: nat)
    requires OneGetEach(log) && g < |log| && n <= |log| && log[g].Got? && log[g].sub == i && log[g].found
    ensures !MissedBefore(log, i, k, n)
  {
  }

  // ------------------------------------------------------------ who enqueues

  ghost predicate EnqueuedBy(log: seq<Event>, i: Id) {
    exists x :: 0 <= x < |log| && log[x].Enqueued? && log[x].sub == i
  }

  ghost predicate FoundBy(log: seq<Event>, i: Id) {
    exists x :: 0 <= x < |log| && log[x].Got? && log[x].sub == i && log[x].found
  }

  /** A submission that got past the queue is in the log as having enqueued; an
      answered one is there as that or as having found a record. */
  ghost predicate ProgressAt(s: State, i: Id)
    requires i in s.subs
  {
    var p := s.subs[i].phase;
    && (p.Pushed? || p.Bound? || p.Mapped? || p.LostRace? ==> EnqueuedBy(s.h.log, i))
    && (p.Answered? ==> EnqueuedBy(s.h.log, i) || FoundBy(s.h.log, i))
  }

  ghost predicate Progress(s: State) {
    forall i :: i in s.subs ==> ProgressAt(s, i)
  }

  lemma LogStays(log: seq<Event>, log': seq<Event>, i: Id)
    requires log <= log'
    ensures EnqueuedBy(log, i) ==> EnqueuedBy(log', i)
    ensures FoundBy(log, i) ==> FoundBy(log', i)
  {
    if x :| 0 <= x < |log| && log[x].Enqueued? && log[x].sub == i {
      assert log'[x] == log[x];
    }
    if x :| 0 <= x < |log| && log[x].Got? && log[x].sub == i && log[x].found {
      assert log'[x] == log[x];
    }
  }

  lemma OthersProgress(s: State, s': State, i: Id)
    requires Progress(s) && s.h.log <= s'.h.log && i in s'.subs && ProgressAt(s', i)
    requires forall j :: j in s'.subs && j != i ==> j in s.subs && s'.subs[j] == s.subs[j]
    ensures Progress(s')
  {
    hide EnqueuedBy, FoundBy;
    forall j | j in s'.subs ensures ProgressAt(s', j) {
      if j != i {
        assert ProgressAt(s, j);
        LogStays(s.h.log, s'.h.log, j);
      }
    }
  }

  lemma SubLeavesOthers(c: Config, s: State, i: Id, a: SubAction)
    requires SubEnabled(s, i, a)
    ensures var s' := SubStep(c, s, i, a);
            && s.h.log <= s'.h.log && i in s'.subs
            && (forall j :: j in s'.subs && j != i ==> j in s.subs && s'.subs[j] == s.subs[j])
  {
    hide KeyOf, WithinLimits;
  }

  lemma LookupProgressAt(c: Config, s: State, i: Id, ok: bool)
    requires SubEnabled(s, i, Lookup(ok))
    ensures ProgressAt(LookupStep(c, s, i, ok), i)
  {
    hide KeyOf, WithinLimits, EnqueuedBy, FoundBy;
    var log, log' := s.h.log, LookupStep(c, s, i, ok).h.log;
    if |log'| > |log| && log'[|log|].found { IsFound(log', |log|, i); }
  }

  lemma PushProgressAt(s: State, i: Id, task: Id)
    requires SubEnabled(s, i, Push(task))
    ensures ProgressAt(PushStep(s, i, task), i)
  {
    hide EnqueuedBy, FoundBy;
    IsEnqueued(PushStep(s, i, task).h.log, |s.h.log|, i);
  }

  /** Later steps rest on what was logged by the time they begin. */
  lemma LaterProgressAt(c: Config, s: State, i: Id, a: SubAction)
    requires SubEnabled(s, i, a) && !a.Submit? && !a.Lookup? && !a.Push? && ProgressAt(s, i)
    ensures ProgressAt(SubStep(c, s, i, a), i)
  {
    hide KeyOf, WithinLimits, EnqueuedBy, FoundBy;
    LogStays(s.h.log, SubStep(c, s, i, a).h.log, i);
  }

  lemma SubProgressAt(c: Config, s: State, i: Id, a: SubAction)
    requires Progress(s) && SubEnabled(s, i, a) && i in SubStep(c, s, i, a).subs
    ensures ProgressAt(SubStep(c, s, i, a), i)
  {
    hide ProgressAt, LookupStep, PushStep, StoreStep, BindStep, ReserveStep, WinnerStep;
    match a
    case Submit(_, _, _) => Arrives(c, s, i, a);
    case Lookup(ok) => LookupProgressAt(c, s, i, ok);
    case Push(task) => PushProgressAt(s, i, task);
    case _ => LaterProgressAt(c, s, i, a);
  }

  lemma Arrives(c: Config, s: State, i: Id, a: SubAction)
    requires SubEnabled(s, i, a) && a.Submit?
    ensures ProgressAt(SubStep(c, s, i, a), i)
  {
  }

  lemma IsFound(log: seq<Event>, x: nat, i: Id)
    requires x < |log| && log[x].Got? && log[x].sub == i && log[x].found
    ensures FoundBy(log, i)
  {
  }

  lemma IsEnqueued(log: seq<Event>, x: nat, i: Id)
    requires x < |log| && log[x].Enqueued? && log[x].sub == i
    ensures EnqueuedBy(log, i)
  {
  }

  lemma SubProgress(c: Config, s: State, i: Id, a: SubAction)
    requires Progress(s) && SubEnabled(s, i, a)
    ensures Progress(SubStep(c, s, i, a))
  {
    hide SubStep, SubEnabled, ProgressAt;
    SubLeavesOthers(c, s, i, a);
    SubProgressAt(c, s, i, a);
    OthersProgress(s, SubStep(c, s, i, a), i);
  }

  lemma StepProgress(c: Config, s: State, a: Action)
    requires Progress(s) && Enabled(s, a)
    ensures Progress(Step(c, s, a))
  {
    hide SubStep, SubEnabled, WorkStep, ReadStep, WorkEnabled, ReadEnabled, EnqueuedBy, FoundBy;
    match a
    case Sub(i, x) => SubProgress(c, s, i, x);
    case Work(w, x) =>
      WorkIsQuiet(s, w, x);
      QuietProgress(s, WorkStep(s, w, x));
    case Read(r, x) =>
      ReadIsQuiet(c, s, r, x);
      QuietProgress(s, ReadStep(c, s, r, x));
    case Expire(e) => QuietProgress(s, ExpireStep(s, e));
  }

  lemma QuietProgress(s: State, s': State)
    requires Progress(s) && s'.subs == s.subs && s'.h.log == s.h.log
    ensures Progress(s')
  {
    forall i | i in s'.subs ensures ProgressAt(s', i) {
      assert ProgressAt(s, i);
    }
  }

  lemma {:induction false} RunProgress(c: Config, actions: seq<Action>)
    requires Run(c, actions).Some?
    ensures Progress(Run(c, actions).value)
    decreases |actions|
  {
    if actions != [] {
      hide Progress;
      var n := |actions| - 1;
      RunProgress(c, actions[..n]);
      StepProgress(c, Run(c, actions[..n]).value, actions[n]);
    }
  }

  /** Work runs exactly for those whose GET came too early: a submission answered
      under an Idempotency-Key made one GET, and it enqueued exactly when that GET
      came before every successful SETNX for its key. */
  lemma EnqueuedIffBeforeReservation(c: Config, actions: seq<Action>, i: Id)
    requires Run(c, actions).Some? && AllClean(actions)
    requires i in Run(c, actions).value.subs && Run(c, actions).value.subs[i].phase.Answered? && Run(c, actions).value.subs[i].idem != ""
    ensures var log := Run(c, actions).value.h.log;
            var sub := Run(c, actions).value.subs[i];
            var k := IdemKey(c.fingerprint(sub.apiKey), c.hash(sub.idem));
            exists g :: 0 <= g < |log| && IsTheGet(log, i, k, g) && (EnqueuedBy(log, i) <==> !ReservedBefore(log, k, g))
  {
    hide Run, ReservedBefore;
    RunAgrees(c, actions);
    RunProgress(c, actions);
    var s := Run(c, actions).value;
    var log, k := s.h.log, KeyOf(c, s.subs[i]);
    assert k == IdemKey(c.fingerprint(s.subs[i].apiKey), c.hash(s.subs[i].idem));
    hide KeyOf;
    assert ProgressAt(s, i);
    if x :| 0 <= x < |log| && log[x].Enqueued? && log[x].sub == i {
      assert MissedBefore(log, i, k, x);
      var g :| 0 <= g < x && log[g] == Got(i, k, false);
      OnlyOneGet(log, i, k, g);
    } else {
      var g :| 0 <= g < |log| && log[g].Got? && log[g].sub == i && log[g].found;
      OnlyOneGet(log, i, k, g);
    }
  }

  /** Event g is the GET of submission i, for this key, and its only one. */
  ghost predicate IsTheGet(log: seq<Event>, i: Id, k: IdemKey, g: nat)
    requires g < |log|
  {
    log[g].Got? && log[g].sub == i && log[g].key == k && forall x :: 0 <= x < |log| && x != g && log[x].Got? ==> log[x].sub != i
  }

  lemma OnlyOneGet(log: seq<Event>, i: Id, k: IdemKey, g: nat)
    requires OneGetEach(log) && g < |log| && log[g].Got? && log[g].sub == i && log[g].key == k
    ensures IsTheGet(log, i, k, g)
  {
  }

  // ---------------------------------------------------------- counterexample

  /** Submissions 0 and 1 arrive with the same key; both look it up before
      either has reserved it, and both enqueue. */
  const ARRIVALS: seq<Action> := [Sub(0, Submit("k", "idem", [])), Sub(1, Submit("k", "idem", []))]
  const LOOKUPS: seq<Action> := [Sub(0, Lookup(true)), Sub(1, Lookup(true))]
  const PUSHES: seq<Action> := [Sub(0, Push(0)), Sub(1, Push(1))]

  lemma Arrive(c: Config)
    ensures var end := From(c, INITIAL, ARRIVALS);
            end == Some(INITIAL.(subs := map[0 := Submission("k", "idem", [], Arrived), 1 := Submission("k", "idem", [], Arrived)]))
  {
    hide From;
    OneStep(c, INITIAL, ARRIVALS);
    var s1 := Step(c, INITIAL, ARRIVALS[0]);
    OneStep(c, s1, ARRIVALS[1..]);
    assert ARRIVALS[1..][1..] == [];
    FromNothing(c, Step(c, s1, ARRIVALS[1]));
  }

  lemma BothMiss(c: Config, s: State, a: Submission, b: Submission)
    requires 0 in s.subs && 1 in s.subs && s.subs[0] == a && s.subs[1] == b && a.phase.Arrived? && b.phase.Arrived?
    requires a.uploads == b.uploads == [] && a.idem != "" && b.idem != "" && s.redis.idems == map[] && s.h.owner == map[]
    ensures var end := From(c, s, LOOKUPS);
            && end.Some? && end.value.h.owner == map[] && end.value.subs == s.subs[0 := a.(phase := Storing([]))][1 := b.(phase := Storing([]))]
  {
    hide From, KeyOf;
    OneStep(c, s, LOOKUPS);
    var s1 := Step(c, s, LOOKUPS[0]);
    OneStep(c, s1, LOOKUPS[1..]);
    assert LOOKUPS[1..][1..] == [];
    FromNothing(c, Step(c, s1, LOOKUPS[1]));
  }

  lemma BothPush(c: Config, s: State)
    requires 0 in s.subs && 1 in s.subs && s.subs[0].phase == Storing([]) && s.subs[1].phase == Storing([])
    requires s.subs[0].uploads == s.subs[1].uploads == [] && s.h.owner == map[]
    ensures var end := From(c, s, PUSHES);
            && end.Some? && end.value.h.log == s.h.log + [Enqueued(0, 0), Enqueued(1, 1)]
            && 0 in end.value.redis.queue && 1 in end.value.redis.queue
            && end.value.subs == s.subs[0 := s.subs[0].(phase := Pushed(0))][1 := s.subs[1].(phase := Pushed(1))]
  {
    hide From;
    OneStep(c, s, PUSHES);
    var s1 := Step(c, s, PUSHES[0]);
    OneStep(c, s1, PUSHES[1..]);
    assert PUSHES[1..][1..] == [];
    FromNothing(c, Step(c, s1, PUSHES[1]));
  }

  lemma RaceIsClean()
    ensures AllClean(ARRIVALS + LOOKUPS + PUSHES)
  {
    assert forall i :: 0 <= i < 2 ==> Clean(ARRIVALS[i]) && Clean(LOOKUPS[i]) && Clean(PUSHES[i]);
  }

  /** Three runs one after the other. */
  lemma RunThrice(c: Config, x: seq<Action>, y: seq<Action>, z: seq<Action>, s1: State, s2: State, s3: State)
    requires From(c, INITIAL, x) == Some(s1) && From(c, s1, y) == Some(s2) && From(c, s2, z) == Some(s3)
    ensures Run(c, x + y + z) == Some(s3)
  {
    hide From;
    assert Run(c, []) == Some(INITIAL);
    assert [] + x == x;
    hide Run;
    RunThenFrom(c, [], x);
    RunThenFrom(c, x, y);
    RunThenFrom(c, x + y, z);
  }

  /** One task per key is not promised: two submissions under one key can both
      enqueue work, although all the commands succeed and nothing expires. */
  lemma BothCanEnqueue(c: Config)
    ensures var race := ARRIVALS + LOOKUPS + PUSHES;
            && AllClean(race) && Run(c, race).Some?
            && var s := Run(c, race).value;
               && 0 in s.subs && 1 in s.subs && s.subs[0].idem == s.subs[1].idem != "" && s.subs[0].apiKey == s.subs[1].apiKey
               && Enqueued(0, 0) in s.h.log && Enqueued(1, 1) in s.h.log && 0 in s.redis.queue && 1 in s.redis.queue
  {
    hide From, Run, AllClean;
    RaceIsClean();
    Arrive(c);
    var s1 := From(c, INITIAL, ARRIVALS).value;
    BothMiss(c, s1, s1.subs[0], s1.subs[1]);
    var s2 := From(c, s1, LOOKUPS).value;
    BothPush(c, s2);
    var s3 := From(c, s2, PUSHES).value;
    RunThrice(c, ARRIVALS, LOOKUPS, PUSHES, s1, s2, s3);
    var n := |s2.h.log|;
    assert s3.h.log[n] == Enqueued(0, 0) && s3.h.log[n + 1] == Enqueued(1, 1);
  }
}
