// Tenants: whose token a submission is answered with, in every run, with failing
// commands and expiry.

module TaskTenants {
  import opened Bytes
  import opened Tasks
  import TaskSafety

  // -------------------------------------------------------------- invariants

  /** The token has a binding to a task of a submission. */
  ghost predicate Known(s: State, token: Id) {
    token in s.h.bound && s.h.bound[token].task in s.h.owner && s.h.owner[s.h.bound[token].task] in s.subs
  }

  /** The submission that minted a token. */
  function Minter(s: State, token: Id): Id
    requires Known(s, token)
  {
    s.h.owner[s.h.bound[token].task]
  }

  /** Two submissions under one caller's fingerprint and one Idempotency-Key. */
  predicate SameRequest(c: Config, a: Submission, b: Submission) {
    && a.idem != "" && b.idem != ""
    && c.fingerprint(a.apiKey) == c.fingerprint(b.apiKey) && c.hash(a.idem) == c.hash(b.idem)
  }

  ghost predicate BindingsOk(c: Config, s: State) {
    forall t :: t in s.h.bound ==> Known(s, t) && s.h.bound[t].fp == c.fingerprint(s.subs[Minter(s, t)].apiKey)
  }

  /** A record of an Idempotency-Key points to a token minted under that key, by a
      submission of that caller. */
  ghost predicate RecordOk(c: Config, s: State, k: IdemKey, token: Id) {
    && Known(s, token) && s.subs[Minter(s, token)].idem != ""
    && k.fp == c.fingerprint(s.subs[Minter(s, token)].apiKey) && k.hash == c.hash(s.subs[Minter(s, token)].idem)
  }

  ghost predicate RecordsOk(c: Config, s: State) {
    forall k :: k in s.redis.idems ==> RecordOk(c, s, k, s.redis.idems[k])
  }

  /** A submission holds its own task and token, until it is answered. */
  ghost predicate PhaseOk(c: Config, s: State, i: Id)
    requires i in s.subs
  {
    match s.subs[i].phase
    case Pushed(task) => task in s.h.owner && s.h.owner[task] == i
    case Bound(token) => Known(s, token) && Minter(s, token) == i
    case Mapped(token) => Known(s, token) && Minter(s, token) == i
    case LostRace(token) => s.subs[i].idem != "" && Known(s, token) && Minter(s, token) == i
    case Answered(token) => Known(s, token) && (Minter(s, token) == i || SameRequest(c, s.subs[Minter(s, token)], s.subs[i]))
    case _ => true
  }

  ghost predicate PhasesOk(c: Config, s: State) {
    forall i :: i in s.subs ==> PhaseOk(c, s, i)
  }

  ghost predicate Inv(c: Config, s: State) {
    BindingsOk(c, s) && RecordsOk(c, s) && PhasesOk(c, s)
  }

  // ------------------------------------------------------------- preservation

  /** Bindings and owners are only added, and requests are kept. */
  ghost predicate Grows(s: State, s': State) {
    && (forall t :: t in s.h.bound ==> t in s'.h.bound && s'.h.bound[t] == s.h.bound[t])
    && (forall t :: t in s.h.owner ==> t in s'.h.owner && s'.h.owner[t] == s.h.owner[t])
    && (forall i :: i in s.subs ==> i in s'.subs && s'.subs[i].apiKey == s.subs[i].apiKey && s'.subs[i].idem == s.subs[i].idem)
  }

  lemma KnownStays(s: State, s': State, token: Id)
    requires Grows(s, s') && Known(s, token)
    ensures Known(s', token) && Minter(s', token) == Minter(s, token)
  {
  }

  lemma PhaseStays(c: Config, s: State, s': State, j: Id)
    requires Grows(s, s') && j in s.subs && PhaseOk(c, s, j) && s'.subs[j].phase == s.subs[j].phase
    ensures PhaseOk(c, s', j)
  {
    var p := s.subs[j].phase;
    if p.Bound? || p.Mapped? || p.LostRace? || p.Answered? {
      KnownStays(s, s', p.token);
    }
  }

  lemma RecordStays(c: Config, s: State, s': State, k: IdemKey, token: Id)
    requires Grows(s, s') && RecordOk(c, s, k, token)
    ensures RecordOk(c, s', k, token)
  {
    KnownStays(s, s', token);
  }

  /** No record is added. */
  ghost predicate NoNewRecord(s: State, s': State) {
    forall k :: k in s'.redis.idems ==> k in s.redis.idems && s'.redis.idems[k] == s.redis.idems[k]
  }

  lemma RecordsStay(c: Config, s: State, s': State)
    requires RecordsOk(c, s) && Grows(s, s') && NoNewRecord(s, s')
    ensures RecordsOk(c, s')
  {
    hide RecordOk, Grows;
    forall k | k in s'.redis.idems ensures RecordOk(c, s', k, s'.redis.idems[k]) {
      RecordStays(c, s, s', k, s'.redis.idems[k]);
    }
  }

  lemma BindingsStay(c: Config, s: State, s': State)
    requires BindingsOk(c, s) && Grows(s, s') && s'.h.bound == s.h.bound
    ensures BindingsOk(c, s')
  {
    forall t | t in s'.h.bound ensures Known(s', t) && s'.h.bound[t].fp == c.fingerprint(s'.subs[Minter(s', t)].apiKey) {
      KnownStays(s, s', t);
    }
  }

  /** Only submission i's phase changes, or i arrives. */
  ghost predicate OnlySub(s: State, s': State, i: Id) {
    && i in s'.subs
    && forall j :: j in s'.subs && j != i ==> j in s.subs && s'.subs[j].phase == s.subs[j].phase
  }

  lemma PhasesStay(c: Config, s: State, s': State, i: Id)
    requires PhasesOk(c, s) && Grows(s, s') && OnlySub(s, s', i) && PhaseOk(c, s', i)
    ensures PhasesOk(c, s')
  {
    hide PhaseOk, Grows;
    forall j | j in s'.subs ensures PhaseOk(c, s', j) {
      if j != i {
        PhaseStays(c, s, s', j);
      }
    }
  }

  // ------------------------------------------------------------------- steps

  lemma QuietSub(c: Config, s: State, s': State, i: Id)
    requires Inv(c, s) && Grows(s, s') && OnlySub(s, s', i) && PhaseOk(c, s', i)
    requires s'.h.bound == s.h.bound && NoNewRecord(s, s')
    ensures Inv(c, s')
  {
    hide Grows, PhaseOk, OnlySub, PhasesOk, RecordsOk, BindingsOk, NoNewRecord;
    BindingsStay(c, s, s');
    RecordsStay(c, s, s');
    PhasesStay(c, s, s', i);
  }

  lemma BindInv(c: Config, s: State, i: Id, token: Id)
    requires Inv(c, s) && SubEnabled(s, i, Bind(token))
    ensures Inv(c, BindStep(c, s, i, token))
  {
    var s' := BindStep(c, s, i, token);
    assert PhaseOk(c, s, i);
    assert Grows(s, s') && OnlySub(s, s', i) && NoNewRecord(s, s');
    assert Known(s', token) && Minter(s', token) == i;
    assert PhaseOk(c, s', i);
    forall t | t in s'.h.bound ensures Known(s', t) && s'.h.bound[t].fp == c.fingerprint(s'.subs[Minter(s', t)].apiKey) {
      if t != token {
        KnownStays(s, s', t);
      }
    }
    hide Grows, PhaseOk, OnlySub, NoNewRecord;
    RecordsStay(c, s, s');
    PhasesStay(c, s, s', i);
  }

  /** A record found under the submission's own key points to a token of that key. */
  lemma FoundIsOwn(c: Config, s: State, i: Id, k: IdemKey)
    requires RecordsOk(c, s) && i in s.subs && s.subs[i].idem != "" && k in s.redis.idems
    requires k.fp == c.fingerprint(s.subs[i].apiKey) && k.hash == c.hash(s.subs[i].idem)
    ensures Known(s, s.redis.idems[k])
    ensures SameRequest(c, s.subs[Minter(s, s.redis.idems[k])], s.subs[i])
  {
    assert RecordOk(c, s, k, s.redis.idems[k]);
  }

  /** One phase changes, and no more than the log besides. */
  ghost predicate OnlyPhase(s: State, s': State, i: Id) {
    && i in s.subs && i in s'.subs && s'.subs == s.subs[i := s.subs[i].(phase := s'.subs[i].phase)]
    && s'.h.bound == s.h.bound && s'.h.owner == s.h.owner && s'.redis == s.redis
  }

  lemma OwnPhaseInv(c: Config, s: State, s': State, i: Id)
    requires Inv(c, s) && i in s'.subs && OnlyPhase(s, s', i)
    requires match s'.subs[i].phase
             case Storing(_) => true
             case Rejected => true
             case Failed => true
             case Mapped(token) => Known(s, token) && Minter(s, token) == i
             case LostRace(token) => s.subs[i].idem != "" && Known(s, token) && Minter(s, token) == i
             case Answered(token) => Known(s, token) && (Minter(s, token) == i || SameRequest(c, s.subs[Minter(s, token)], s.subs[i]))
             case _ => false
    ensures Inv(c, s')
  {
    assert Grows(s, s') && OnlySub(s, s', i) && NoNewRecord(s, s');
    assert PhaseOk(c, s', i);
    hide Inv, Grows, PhaseOk, OnlySub, NoNewRecord;
    QuietSub(c, s, s', i);
  }

  lemma LookupInv(c: Config, s: State, i: Id, ok: bool)
    requires Inv(c, s) && SubEnabled(s, i, Lookup(ok))
    ensures Inv(c, LookupStep(c, s, i, ok))
  {
    hide WithinLimits, PhasesOk, BindingsOk, RecordsOk, Known;
    var s', k := LookupStep(c, s, i, ok), KeyOf(c, s.subs[i]);
    assert OnlyPhase(s, s', i);
    if s'.subs[i].phase.Answered? {
      FoundIsOwn(c, s, i, k);
    }
    hide Inv, OnlyPhase;
    OwnPhaseInv(c, s, s', i);
  }

  lemma MappedIsOwn(c: Config, s: State, i: Id)
    requires PhasesOk(c, s) && i in s.subs && (s.subs[i].phase.Bound? || s.subs[i].phase.Mapped? || s.subs[i].phase.LostRace?)
    ensures Known(s, s.subs[i].phase.token) && Minter(s, s.subs[i].phase.token) == i
    ensures s.subs[i].phase.LostRace? ==> s.subs[i].idem != ""
  {
    assert PhaseOk(c, s, i);
  }

  lemma ReserveInv(c: Config, s: State, i: Id, ok: bool)
    requires Inv(c, s) && SubEnabled(s, i, Reserve(ok))
    ensures Inv(c, ReserveStep(c, s, i, ok))
  {
    hide PhasesOk, BindingsOk, RecordsOk, Known, KeyOf;
    var s', k, token := ReserveStep(c, s, i, ok), KeyOf(c, s.subs[i]), s.subs[i].phase.token;
    MappedIsOwn(c, s, i);
    if s.subs[i].idem == "" || !ok || k in s.redis.idems {
      assert OnlyPhase(s, s', i);
      hide Inv, OnlyPhase;
      OwnPhaseInv(c, s, s', i);
    } else {
      var t := SetPhase(s, i, Answered(token));
      assert OnlyPhase(s, t, i);
      OwnPhaseInv(c, s, t, i);
      AddRecord(c, s, t, s', i, k);
    }
  }

  /** The SETNX of a submission's own token under its own key. */
  lemma AddRecord(c: Config, s: State, t: State, s': State, i: Id, k: IdemKey)
    requires i in s.subs && s.subs[i].phase.Mapped? && s.subs[i].idem != "" && k == KeyOf(c, s.subs[i])
    requires Known(s, s.subs[i].phase.token) && Minter(s, s.subs[i].phase.token) == i
    requires t == SetPhase(s, i, Answered(s.subs[i].phase.token)) && Inv(c, t)
    requires s'.subs == t.subs && s'.h.bound == t.h.bound && s'.h.owner == t.h.owner
    requires s'.redis.idems == t.redis.idems[k := s.subs[i].phase.token]
    ensures Inv(c, s')
  {
    assert Grows(t, s');
    BindingsStay(c, t, s');
    forall j | j in s'.subs ensures PhaseOk(c, s', j) {
      PhaseStays(c, t, s', j);
    }
    forall q | q in s'.redis.idems ensures RecordOk(c, s', q, s'.redis.idems[q]) {
      if q != k {
        RecordStays(c, t, s', q, t.redis.idems[q]);
      } else {
        OwnRecord(c, s', i, s.subs[i].phase.token, k);
      }
    }
  }

  lemma OwnRecord(c: Config, s: State, i: Id, token: Id, k: IdemKey)
    requires Known(s, token) && Minter(s, token) == i && s.subs[i].idem != ""
    requires k.fp == c.fingerprint(s.subs[i].apiKey) && k.hash == c.hash(s.subs[i].idem)
    ensures RecordOk(c, s, k, token)
  {
  }

  lemma WinnerInv(c: Config, s: State, i: Id, ok: bool)
    requires Inv(c, s) && SubEnabled(s, i, ReadWinner(ok))
    ensures Inv(c, WinnerStep(c, s, i, ok))
  {
    hide PhasesOk, BindingsOk, RecordsOk, Known;
    var s', k := WinnerStep(c, s, i, ok), KeyOf(c, s.subs[i]);
    MappedIsOwn(c, s, i);
    if ok && k in s.redis.idems {
      FoundIsOwn(c, s, i, k);
    }
    assert OnlyPhase(s, s', i);
    hide Inv, OnlyPhase;
    OwnPhaseInv(c, s, s', i);
  }

  lemma PushInv(c: Config, s: State, i: Id, task: Id)
    requires Inv(c, s) && SubEnabled(s, i, Push(task))
    ensures Inv(c, PushStep(s, i, task))
  {
    var s' := PushStep(s, i, task);
    assert Grows(s, s') && OnlySub(s, s', i) && NoNewRecord(s, s') && PhaseOk(c, s', i);
    hide Inv, Grows, PhaseOk, OnlySub, NoNewRecord;
    QuietSub(c, s, s', i);
  }

  lemma StoreInv(c: Config, s: State, i: Id, key: Id)
    requires Inv(c, s) && SubEnabled(s, i, StoreBlob(key))
    ensures Inv(c, StoreStep(s, i, key))
  {
    var s' := StoreStep(s, i, key);
    assert Grows(s, s') && OnlySub(s, s', i) && NoNewRecord(s, s') && PhaseOk(c, s', i);
    hide Inv, Grows, PhaseOk, OnlySub, NoNewRecord;
    QuietSub(c, s, s', i);
  }

  lemma SubmitInv(c: Config, s: State, i: Id, sub: Submission)
    requires Inv(c, s) && i !in s.subs && sub.phase == Arrived
    ensures Inv(c, s.(subs := s.subs[i := sub]))
  {
    var s' := s.(subs := s.subs[i := sub]);
    assert Grows(s, s') && OnlySub(s, s', i) && NoNewRecord(s, s') && PhaseOk(c, s', i);
    hide Inv, Grows, PhaseOk, OnlySub, NoNewRecord;
    QuietSub(c, s, s', i);
  }

  /** The queue mapping, and the failure of a command. */
  lemma SetPhaseInv(c: Config, s: State, i: Id, p: Phase)
    requires Inv(c, s) && i in s.subs && (p == Failed || (s.subs[i].phase.Bound? && p == Mapped(s.subs[i].phase.token)))
    ensures Inv(c, SetPhase(s, i, p))
  {
    hide PhasesOk, BindingsOk, RecordsOk, Known;
    if p.Mapped? {
      MappedIsOwn(c, s, i);
    }
    assert OnlyPhase(s, SetPhase(s, i, p), i);
    hide Inv, OnlyPhase;
    OwnPhaseInv(c, s, SetPhase(s, i, p), i);
  }

  lemma SubInv(c: Config, s: State, i: Id, a: SubAction)
    requires Inv(c, s) && SubEnabled(s, i, a)
    ensures Inv(c, SubStep(c, s, i, a))
  {
    hide Inv, StoreStep, PushStep, BindStep, LookupStep, ReserveStep, WinnerStep, SetPhase;
    match a
    case Submit(apiKey, idem, uploads) => SubmitInv(c, s, i, Submission(apiKey, idem, uploads, Arrived));
    case Lookup(ok) => LookupInv(c, s, i, ok);
    case StoreBlob(key) => StoreInv(c, s, i, key);
    case Push(task) => PushInv(c, s, i, task);
    case Bind(token) => BindInv(c, s, i, token);
    case MapQueue => SetPhaseInv(c, s, i, Mapped(s.subs[i].phase.token));
    case Reserve(ok) => ReserveInv(c, s, i, ok);
    case ReadWinner(ok) => WinnerInv(c, s, i, ok);
    case RedisError => SetPhaseInv(c, s, i, Failed);
  }

  /** Workers, readers and expiry add no record and no binding. */
  ghost predicate Unmoved(s: State, s': State) {
    s'.subs == s.subs && s'.h.bound == s.h.bound && s'.h.owner == s.h.owner && NoNewRecord(s, s')
  }

  lemma OtherInv(c: Config, s: State, s': State)
    requires Inv(c, s) && Unmoved(s, s')
    ensures Inv(c, s')
  {
    assert Grows(s, s');
    BindingsStay(c, s, s');
    RecordsStay(c, s, s');
    forall i | i in s'.subs ensures PhaseOk(c, s', i) {
      PhaseStays(c, s, s', i);
    }
  }

  lemma WorkIsUnmoved(s: State, w: Id, a: WorkAction)
    requires WorkEnabled(s, w, a)
    ensures Unmoved(s, WorkStep(s, w, a))
  {
  }

  lemma ReadIsUnmoved(c: Config, s: State, r: Id, a: ReadAction)
    requires ReadEnabled(s, r, a)
    ensures Unmoved(s, ReadStep(c, s, r, a))
  {
  }

  lemma ExpiryIsUnmoved(s: State, e: Expiry)
    ensures Unmoved(s, ExpireStep(s, e))
  {
  }

  lemma StepInv(c: Config, s: State, a: Action)
    requires Inv(c, s) && Enabled(s, a)
    ensures Inv(c, Step(c, s, a))
  {
    hide Inv, Unmoved, SubStep, SubEnabled, WorkStep, ReadStep, ExpireStep, WorkEnabled, ReadEnabled;
    match a
    case Sub(i, x) => SubInv(c, s, i, x);
    case Work(w, x) =>
      WorkIsUnmoved(s, w, x);
      OtherInv(c, s, WorkStep(s, w, x));
    case Read(r, x) =>
      ReadIsUnmoved(c, s, r, x);
      OtherInv(c, s, ReadStep(c, s, r, x));
    case Expire(e) =>
      ExpiryIsUnmoved(s, e);
      OtherInv(c, s, ExpireStep(s, e));
  }

  lemma {:induction false} RunInv(c: Config, actions: seq<Action>)
    requires Run(c, actions).Some?
    ensures Inv(c, Run(c, actions).value)
    decreases |actions|
  {
    if actions != [] {
      hide Inv, Step, Enabled;
      var n := |actions| - 1;
      RunInv(c, actions[..n]);
      StepInv(c, Run(c, actions[..n]).value, actions[n]);
    }
  }

  // ------------------------------------------------------------ main theorems

  lemma AnswerAt(c: Config, actions: seq<Action>, i: Id)
    requires Run(c, actions).Some? && i in Run(c, actions).value.subs && Run(c, actions).value.subs[i].phase.Answered?
    ensures var s := Run(c, actions).value; BindingsOk(c, s) && PhaseOk(c, s, i)
  {
    hide Run, PhaseOk, BindingsOk;
    RunInv(c, actions);
  }

  /** A caller is answered with a token that is bound to its own fingerprint, so it can
      read the result that it was promised. */
  lemma AnsweredUnderOwnKey(c: Config, actions: seq<Action>, i: Id)
    requires Run(c, actions).Some? && i in Run(c, actions).value.subs && Run(c, actions).value.subs[i].phase.Answered?
    ensures var s := Run(c, actions).value;
            var token := s.subs[i].phase.token;
            token in s.h.bound && s.h.bound[token].fp == c.fingerprint(s.subs[i].apiKey)
  {
    hide Run;
    AnswerAt(c, actions, i);
  }

  /** Tenants never collide: two submissions are answered with one token only when both
      gave an Idempotency-Key and these hash alike, and the callers have one
      fingerprint. */
  lemma TenantsStayApart(c: Config, actions: seq<Action>, i: Id, j: Id)
    requires Run(c, actions).Some? && i in Run(c, actions).value.subs && j in Run(c, actions).value.subs
    requires Run(c, actions).value.subs[i].phase.Answered? && Run(c, actions).value.subs[j].phase.Answered?
    requires Run(c, actions).value.subs[i].phase.token == Run(c, actions).value.subs[j].phase.token
    ensures var a, b := Run(c, actions).value.subs[i], Run(c, actions).value.subs[j];
            i == j || (&& a.idem != "" && b.idem != ""
                       && c.fingerprint(a.apiKey) == c.fingerprint(b.apiKey) && c.hash(a.idem) == c.hash(b.idem))
  {
    hide Run;
    AnswerAt(c, actions, i);
    AnswerAt(c, actions, j);
  }

  /** While its binding lives, the token of an answer opens the result of the task bound
      to it to exactly the callers with the submitter's fingerprint, or to everyone when
      that is empty. */
  lemma SubmitterMayRead(c: Config, actions: seq<Action>, i: Id, r: Id)
    requires Run(c, actions).Some? && i in Run(c, actions).value.subs && Run(c, actions).value.subs[i].phase.Answered?
    requires r in Run(c, actions).value.readers && Run(c, actions).value.readers[r].phase.Asked?
    requires Run(c, actions).value.readers[r].token == Run(c, actions).value.subs[i].phase.token
    requires Run(c, actions).value.subs[i].phase.token in Run(c, actions).value.redis.tokens
    ensures var s := Run(c, actions).value;
            && ReadEnabled(s, r, Resolve) && s.subs[i].phase.token in s.h.bound && r in ReadStep(c, s, r, Resolve).readers
            && var p := ReadStep(c, s, r, Resolve).readers[r].phase;
               var submitter := c.fingerprint(s.subs[i].apiKey);
               if submitter == "" || submitter == c.fingerprint(s.readers[r].apiKey)
               then p == Resolved(s.h.bound[s.subs[i].phase.token].task) else p == NotFound
  {
    hide Run;
    AnsweredUnderOwnKey(c, actions, i);
    TaskSafety.RunSafe(c, actions);
    hide TaskSafety.TasksOwned, TaskSafety.TokensBound, TaskSafety.SubsOk, TaskSafety.WorkersOk, TaskSafety.ReadersOk;
    assert TaskSafety.StoreFaithful(Run(c, actions).value);
  }
}
