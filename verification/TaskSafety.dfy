// Safety of the task protocol over whole runs, with expiry, failures and
// retries: whose result a token yields, and which files an engine is handed.

module TaskSafety {
  import opened Bytes
  import opened Tasks

  // -------------------------------------------------------------- invariants

  /** These references are the first uploads, each stored under its key. */
  ghost predicate RefsMatch(refs: seq<BlobRef>, uploads: seq<Upload>, stored: map<Id, bytes>) {
    && |refs| <= |uploads|
    && forall i :: 0 <= i < |refs| ==>
         && refs[i].key in stored && stored[refs[i].key] == uploads[i].data
         && refs[i].filename == uploads[i].filename && refs[i].contentType == uploads[i].contentType
         && refs[i].size == |uploads[i].data|
  }

  /** What an engine should be handed for an upload. */
  function FileOf(u: Upload): FileBlob {
    FileBlob(u.filename, u.contentType, |u.data|, u.data)
  }

  /** These files are the first uploads, in order. */
  ghost predicate FilesMatch(files: seq<FileBlob>, uploads: seq<Upload>) {
    |files| <= |uploads| && forall i :: 0 <= i < |files| ==> files[i] == FileOf(uploads[i])
  }

  /** Nothing in Redis differs from what was written there. */
  ghost predicate StoreFaithful(s: State) {
    && (forall k :: k in s.redis.blobs ==> k in s.h.stored && s.redis.blobs[k] == s.h.stored[k])
    && (forall t :: t in s.redis.tokens ==> t in s.h.bound && s.redis.tokens[t] == s.h.bound[t])
    && (forall t :: t in s.redis.queue ==> t in s.h.payloads && s.redis.queue[t] == s.h.payloads[t])
    && (forall t :: t in s.redis.results ==> exists w :: Save(w, t, s.redis.results[t]) in s.h.saves)
  }

  /** Every task belongs to the submission that enqueued it, with all of its
      files. */
  ghost predicate TasksOwned(s: State) {
    && s.h.payloads.Keys == s.h.owner.Keys
    && (forall t :: t in s.h.owner ==>
         && s.h.owner[t] in s.subs
         && |s.h.payloads[t]| == |s.subs[s.h.owner[t]].uploads|
         && RefsMatch(s.h.payloads[t], s.subs[s.h.owner[t]].uploads, s.h.stored))
  }

  /** Every token was bound to a task of the submission that minted it, under
      that submission's fingerprint. */
  ghost predicate TokensBound(c: Config, s: State) {
    forall t :: t in s.h.bound ==>
      && s.h.bound[t].task in s.h.owner
      && s.h.owner[s.h.bound[t].task] in s.subs
      && s.h.bound[t].fp == c.fingerprint(s.subs[s.h.owner[s.h.bound[t].task]].apiKey)
  }

  ghost predicate SubsOk(s: State) {
    forall i :: i in s.subs ==>
      match s.subs[i].phase
      case Storing(refs) => RefsMatch(refs, s.subs[i].uploads, s.h.stored)
      case Pushed(task) => task in s.h.owner && s.h.owner[task] == i
      case _ => true
  }

  /** An attempt works on a known task and has loaded a prefix of its files. */
  ghost predicate AttemptOk(s: State, t: Attempt) {
    && t.task in s.h.payloads && t.refs == s.h.payloads[t.task]
    && t.task in s.h.owner && s.h.owner[t.task] in s.subs
    && (t.phase.Loading? ==> |t.phase.files| <= |t.refs| && FilesMatch(t.phase.files, s.subs[s.h.owner[t.task]].uploads))
  }

  /** An engine call on behalf of a task hands over exactly the task's files. */
  ghost predicate CallOk(s: State, call: Call) {
    && call.task in s.h.owner && s.h.owner[call.task] in s.subs
    && call.files == FilesOf(s.subs[s.h.owner[call.task]].uploads)
  }

  function FilesOf(uploads: seq<Upload>): (r: seq<FileBlob>)
    ensures |r| == |uploads|
  {
    seq(|uploads|, i requires 0 <= i < |uploads| => FileOf(uploads[i]))
  }

  ghost predicate WorkersOk(s: State) {
    && (forall w :: w in s.workers ==> AttemptOk(s, s.workers[w]))
    && (forall call :: call in s.h.calls ==> CallOk(s, call))
  }

  /** The reader may see this task: its token is bound to it, and unbound to any
      caller or bound to this caller's fingerprint. */
  ghost predicate MayRead(c: Config, s: State, q: Reader, task: Id) {
    && q.token in s.h.bound && s.h.bound[q.token].task == task
    && (s.h.bound[q.token].fp == "" || s.h.bound[q.token].fp == c.fingerprint(q.apiKey))
  }

  ghost predicate ReaderOk(c: Config, s: State, q: Reader) {
    match q.phase
    case Resolved(task) => MayRead(c, s, q, task)
    case Holding(task, body, _) => MayRead(c, s, q, task) && exists w :: Save(w, task, body) in s.h.saves
    case Body(task, body, _, _, _, _) => MayRead(c, s, q, task) && exists w :: Save(w, task, body) in s.h.saves
    case _ => true
  }

  ghost predicate ReadersOk(c: Config, s: State) {
    forall r :: r in s.readers ==> ReaderOk(c, s, s.readers[r])
  }

  ghost predicate Safe(c: Config, s: State) {
    StoreFaithful(s) && TasksOwned(s) && TokensBound(c, s) && SubsOk(s) && WorkersOk(s) && ReadersOk(c, s)
  }

  // ------------------------------------------------------------- preservation

  /** History only grows, and submissions keep their request. */
  ghost predicate Extends(s: State, s': State) {
    && (forall k :: k in s.h.stored ==> k in s'.h.stored && s'.h.stored[k] == s.h.stored[k])
    && (forall t :: t in s.h.bound ==> t in s'.h.bound && s'.h.bound[t] == s.h.bound[t])
    && (forall t :: t in s.h.owner ==> t in s'.h.owner && s'.h.owner[t] == s.h.owner[t])
    && (forall t :: t in s.h.payloads ==> t in s'.h.payloads && s'.h.payloads[t] == s.h.payloads[t])
    && s.h.saves <= s'.h.saves
    && (forall i :: i in s.subs ==>
         i in s'.subs && s'.subs[i].uploads == s.subs[i].uploads && s'.subs[i].apiKey == s.subs[i].apiKey)
  }

  lemma ReadersStay(c: Config, s: State, s': State)
    requires Extends(s, s') && ReadersOk(c, s) && s'.readers == s.readers
    ensures ReadersOk(c, s')
  {
    forall r | r in s'.readers ensures ReaderOk(c, s', s'.readers[r]) {
      var q := s.readers[r];
      assert ReaderOk(c, s, q);
      if q.phase.Body? || q.phase.Holding? {
        var w :| Save(w, q.phase.task, q.phase.body) in s.h.saves;
        assert Save(w, q.phase.task, q.phase.body) in s'.h.saves;
      }
    }
  }

  lemma WorkersStay(s: State, s': State)
    requires Extends(s, s') && WorkersOk(s) && s'.workers == s.workers && s'.h.calls == s.h.calls
    ensures WorkersOk(s')
  {
    forall w | w in s'.workers ensures AttemptOk(s', s'.workers[w]) {
      assert AttemptOk(s, s.workers[w]);
    }
    forall call | call in s'.h.calls ensures CallOk(s', call) {
      assert CallOk(s, call);
    }
  }

  /** The parts of Safe that attempts and readers have no share in. */
  ghost predicate CoreSafe(c: Config, s: State) {
    StoreFaithful(s) && TasksOwned(s) && TokensBound(c, s) && SubsOk(s)
  }

  lemma CoreStep(c: Config, s: State, s': State)
    requires Safe(c, s) && CoreSafe(c, s') && Extends(s, s')
    requires s'.workers == s.workers && s'.h.calls == s.h.calls && s'.readers == s.readers
    ensures Safe(c, s')
  {
    hide WorkersOk, ReadersOk, Extends, StoreFaithful, TasksOwned, TokensBound, SubsOk;
    WorkersStay(s, s');
    ReadersStay(c, s, s');
  }

  /** Steps that change no more than one submission's phase, the idempotency
      records and the log. */
  ghost predicate OnlyPhase(s: State, s': State, i: Id) {
    && i in s.subs && s'.subs.Keys == s.subs.Keys
    && s'.redis == s.redis.(idems := s'.redis.idems) && s'.h == s.h.(log := s'.h.log)
    && s'.workers == s.workers && s'.readers == s.readers
    && s'.subs[i] == s.subs[i].(phase := s'.subs[i].phase)
    && (forall j :: j in s.subs && j != i ==> s'.subs[j] == s.subs[j])
    && !s'.subs[i].phase.Pushed? && (s'.subs[i].phase.Storing? ==> s'.subs[i].phase.refs == [])
  }

  lemma PhaseCore(c: Config, s: State, s': State, i: Id)
    requires CoreSafe(c, s) && OnlyPhase(s, s', i)
    ensures StoreFaithful(s') && TasksOwned(s') && TokensBound(c, s')
  {
    hide SubsOk, RefsMatch;
  }

  lemma PhaseRest(c: Config, s: State, s': State, i: Id)
    requires CoreSafe(c, s) && OnlyPhase(s, s', i)
    ensures SubsOk(s') && Extends(s, s')
  {
    hide StoreFaithful, TasksOwned, TokensBound;
    EmptyRefs();
    hide RefsMatch;
  }

  lemma PhaseStepSafe(c: Config, s: State, s': State, i: Id)
    requires Safe(c, s) && OnlyPhase(s, s', i)
    ensures Safe(c, s')
  {
    hide WorkersOk, ReadersOk, Extends, StoreFaithful, TasksOwned, TokensBound, SubsOk;
    PhaseCore(c, s, s', i);
    PhaseRest(c, s, s', i);
    CoreStep(c, s, s');
  }

  lemma EmptyRefs()
    ensures forall uploads, stored :: RefsMatch([], uploads, stored)
  {
  }

  lemma StoreCore(c: Config, s: State, i: Id, key: Id)
    requires CoreSafe(c, s) && SubEnabled(s, i, StoreBlob(key))
    ensures TasksOwned(StoreStep(s, i, key)) && TokensBound(c, StoreStep(s, i, key))
    ensures Extends(s, StoreStep(s, i, key))
  {
    hide StoreFaithful, SubsOk;
    var s' := StoreStep(s, i, key);
    assert Extends(s, s');
    RefsStay(s, s');
    hide RefsMatch;
  }

  lemma StoreRest(c: Config, s: State, i: Id, key: Id)
    requires CoreSafe(c, s) && SubEnabled(s, i, StoreBlob(key))
    ensures StoreFaithful(StoreStep(s, i, key)) && SubsOk(StoreStep(s, i, key))
  {
    hide TasksOwned, TokensBound;
    var s' := StoreStep(s, i, key);
    assert Extends(s, s');
    RefsStay(s, s');
    hide RefsMatch;
    RefsExtend(s, i, key);
  }

  lemma StoreStepSafe(c: Config, s: State, i: Id, key: Id)
    requires Safe(c, s) && SubEnabled(s, i, StoreBlob(key))
    ensures Safe(c, StoreStep(s, i, key))
  {
    hide WorkersOk, ReadersOk, Extends, StoreFaithful, TasksOwned, TokensBound, SubsOk;
    StoreCore(c, s, i, key);
    StoreRest(c, s, i, key);
    CoreStep(c, s, StoreStep(s, i, key));
  }

  lemma RefsStay(s: State, s': State)
    requires Extends(s, s')
    ensures forall refs, uploads :: RefsMatch(refs, uploads, s.h.stored) ==> RefsMatch(refs, uploads, s'.h.stored)
  {
  }

  lemma RefsExtend(s: State, i: Id, key: Id)
    requires SubEnabled(s, i, StoreBlob(key)) && RefsMatch(s.subs[i].phase.refs, s.subs[i].uploads, s.h.stored)
    ensures var s' := StoreStep(s, i, key); RefsMatch(s'.subs[i].phase.refs, s.subs[i].uploads, s'.h.stored)
  {
  }

  lemma PushCore(c: Config, s: State, i: Id, task: Id)
    requires CoreSafe(c, s) && SubEnabled(s, i, Push(task))
    ensures TasksOwned(PushStep(s, i, task))
    ensures TokensBound(c, PushStep(s, i, task))
  {
    hide StoreFaithful, RefsMatch;
  }

  lemma PushFaith(c: Config, s: State, i: Id, task: Id)
    requires CoreSafe(c, s) && SubEnabled(s, i, Push(task))
    ensures StoreFaithful(PushStep(s, i, task))
  {
    hide TokensBound, RefsMatch, SubsOk;
  }

  lemma PushExtends(c: Config, s: State, i: Id, task: Id)
    requires CoreSafe(c, s) && SubEnabled(s, i, Push(task))
    ensures Extends(s, PushStep(s, i, task))
  {
    hide TokensBound, RefsMatch, SubsOk;
  }

  lemma PushSubs(c: Config, s: State, i: Id, task: Id)
    requires CoreSafe(c, s) && SubEnabled(s, i, Push(task))
    ensures SubsOk(PushStep(s, i, task))
  {
    hide TokensBound, RefsMatch, StoreFaithful, TasksOwned;
  }

  lemma PushStepSafe(c: Config, s: State, i: Id, task: Id)
    requires Safe(c, s) && SubEnabled(s, i, Push(task))
    ensures Safe(c, PushStep(s, i, task))
  {
    hide WorkersOk, ReadersOk, Extends, StoreFaithful, TasksOwned, TokensBound, SubsOk;
    PushCore(c, s, i, task);
    PushFaith(c, s, i, task);
    PushExtends(c, s, i, task);
    PushSubs(c, s, i, task);
    CoreStep(c, s, PushStep(s, i, task));
  }

  lemma BindCore(c: Config, s: State, i: Id, token: Id)
    requires CoreSafe(c, s) && SubEnabled(s, i, Bind(token))
    ensures TasksOwned(BindStep(c, s, i, token))
    ensures TokensBound(c, BindStep(c, s, i, token))
  {
    hide StoreFaithful, RefsMatch;
  }

  lemma BindRest(c: Config, s: State, i: Id, token: Id)
    requires CoreSafe(c, s) && SubEnabled(s, i, Bind(token))
    ensures StoreFaithful(BindStep(c, s, i, token)) && SubsOk(BindStep(c, s, i, token))
    ensures Extends(s, BindStep(c, s, i, token))
  {
    hide TasksOwned, TokensBound, RefsMatch;
  }

  lemma BindStepSafe(c: Config, s: State, i: Id, token: Id)
    requires Safe(c, s) && SubEnabled(s, i, Bind(token))
    ensures Safe(c, BindStep(c, s, i, token))
  {
    hide WorkersOk, ReadersOk, Extends, StoreFaithful, TasksOwned, TokensBound, SubsOk;
    BindCore(c, s, i, token);
    BindRest(c, s, i, token);
    CoreStep(c, s, BindStep(c, s, i, token));
  }

  lemma SubmitCore(c: Config, s: State, i: Id, sub: Submission)
    requires CoreSafe(c, s) && i !in s.subs && sub.phase == Arrived
    ensures var s' := s.(subs := s.subs[i := sub]); CoreSafe(c, s') && Extends(s, s')
  {
    hide RefsMatch;
  }

  lemma SubmitSafe(c: Config, s: State, i: Id, sub: Submission)
    requires Safe(c, s) && i !in s.subs && sub.phase == Arrived
    ensures Safe(c, s.(subs := s.subs[i := sub]))
  {
    hide WorkersOk, ReadersOk, Extends, StoreFaithful, TasksOwned, TokensBound, SubsOk;
    SubmitCore(c, s, i, sub);
    CoreStep(c, s, s.(subs := s.subs[i := sub]));
  }

  lemma LookupIsPhase(c: Config, s: State, i: Id, ok: bool)
    requires SubEnabled(s, i, Lookup(ok))
    ensures OnlyPhase(s, LookupStep(c, s, i, ok), i)
  {
    hide WithinLimits, KeyOf;
  }

  lemma ReserveIsPhase(c: Config, s: State, i: Id, ok: bool)
    requires SubEnabled(s, i, Reserve(ok))
    ensures OnlyPhase(s, ReserveStep(c, s, i, ok), i)
  {
    hide KeyOf;
  }

  lemma WinnerIsPhase(c: Config, s: State, i: Id, ok: bool)
    requires SubEnabled(s, i, ReadWinner(ok))
    ensures OnlyPhase(s, WinnerStep(c, s, i, ok), i)
  {
    hide KeyOf;
  }

  lemma SetIsPhase(s: State, i: Id, p: Phase)
    requires i in s.subs && !p.Storing? && !p.Pushed?
    ensures OnlyPhase(s, SetPhase(s, i, p), i)
  {
  }

  lemma SubStepSafe(c: Config, s: State, i: Id, a: SubAction)
    requires Safe(c, s) && SubEnabled(s, i, a)
    ensures Safe(c, SubStep(c, s, i, a))
  {
    hide Safe, StoreStep, PushStep, BindStep, LookupStep, ReserveStep, WinnerStep, SetPhase, OnlyPhase;
    match a
    case Submit(apiKey, idem, uploads) => SubmitSafe(c, s, i, Submission(apiKey, idem, uploads, Arrived));
    case Lookup(ok) =>
      LookupIsPhase(c, s, i, ok);
      PhaseStepSafe(c, s, LookupStep(c, s, i, ok), i);
    case StoreBlob(key) => StoreStepSafe(c, s, i, key);
    case Push(task) => PushStepSafe(c, s, i, task);
    case Bind(token) => BindStepSafe(c, s, i, token);
    case MapQueue =>
      SetIsPhase(s, i, Mapped(s.subs[i].phase.token));
      PhaseStepSafe(c, s, SetPhase(s, i, Mapped(s.subs[i].phase.token)), i);
    case Reserve(ok) =>
      ReserveIsPhase(c, s, i, ok);
      PhaseStepSafe(c, s, ReserveStep(c, s, i, ok), i);
    case ReadWinner(ok) =>
      WinnerIsPhase(c, s, i, ok);
      PhaseStepSafe(c, s, WinnerStep(c, s, i, ok), i);
    case RedisError =>
      SetIsPhase(s, i, Failed);
      PhaseStepSafe(c, s, SetPhase(s, i, Failed), i);
  }

  // ----------------------------------------------------------------- workers

  /** One attempt changes, and the results, the types, and what records them. */
  ghost predicate OnlyAttempt(s: State, s': State, w: Id) {
    && s'.subs == s.subs && s'.readers == s.readers
    && s'.redis == s.redis.(results := s'.redis.results, types := s'.redis.types)
    && s'.h == s.h.(calls := s'.h.calls, saves := s'.h.saves, made := s'.h.made, trace := s'.h.trace) && s.h.saves <= s'.h.saves
    && w in s'.workers && forall v :: v in s'.workers && v != w ==> v in s.workers && s'.workers[v] == s.workers[v]
  }

  ghost predicate ResultsSaved(s: State) {
    forall t :: t in s.redis.results ==> exists v :: Save(v, t, s.redis.results[t]) in s.h.saves
  }

  lemma AttemptCore(c: Config, s: State, s': State, w: Id)
    requires CoreSafe(c, s) && OnlyAttempt(s, s', w) && ResultsSaved(s')
    ensures CoreSafe(c, s') && Extends(s, s')
  {
    hide RefsMatch;
  }

  lemma AttemptStepSafe(c: Config, s: State, s': State, w: Id)
    requires Safe(c, s) && OnlyAttempt(s, s', w) && ResultsSaved(s')
    requires AttemptOk(s', s'.workers[w])
    requires forall call :: call in s'.h.calls - s.h.calls ==> CallOk(s', call)
    ensures Safe(c, s')
  {
    hide ReadersOk, StoreFaithful, TasksOwned, TokensBound, SubsOk, ResultsSaved;
    AttemptCore(c, s, s', w);
    ReadersStay(c, s, s');
    hide FilesMatch;
    forall v | v in s'.workers ensures AttemptOk(s', s'.workers[v]) {
      assert v != w ==> AttemptOk(s, s.workers[v]);
    }
    forall call | call in s'.h.calls ensures CallOk(s', call) {
      assert call in s.h.calls ==> CallOk(s, call);
    }
  }

  lemma AttemptAt(c: Config, s: State, w: Id)
    requires Safe(c, s) && w in s.workers
    ensures AttemptOk(s, s.workers[w])
    ensures RefsMatch(s.workers[w].refs, s.subs[s.h.owner[s.workers[w].task]].uploads, s.h.stored)
    ensures |s.workers[w].refs| == |s.subs[s.h.owner[s.workers[w].task]].uploads|
    ensures ResultsSaved(s)
  {
    hide RefsMatch, FilesMatch;
  }

  lemma TakeSafe(c: Config, s: State, w: Id, task: Id)
    requires Safe(c, s) && WorkEnabled(s, w, Take(task))
    ensures Safe(c, WorkStep(s, w, Take(task)))
  {
    var s' := WorkStep(s, w, Take(task));
    assert AttemptOk(s', s'.workers[w]) by { hide WorkersOk, ReadersOk, RefsMatch; }
    hide WorkersOk, ReadersOk, TasksOwned, AttemptOk;
    AttemptStepSafe(c, s, s', w);
  }

  /** A loaded blob is the upload's data, if it is still there. */
  lemma LoadSafe(c: Config, s: State, w: Id)
    requires Safe(c, s) && WorkEnabled(s, w, Load)
    ensures Safe(c, WorkStep(s, w, Load))
  {
    var s' := WorkStep(s, w, Load);
    AttemptAt(c, s, w);
    assert AttemptOk(s', s'.workers[w]) by { hide WorkersOk, ReadersOk, TasksOwned; }
    hide Safe, AttemptOk, RefsMatch;
    AttemptStepSafe(c, s, s', w);
  }

  lemma ConvertSafe(c: Config, s: State, w: Id, body: bytes, contentType: string)
    requires Safe(c, s) && WorkEnabled(s, w, Convert(body, contentType))
    ensures Safe(c, WorkStep(s, w, Convert(body, contentType)))
  {
    var s' := WorkStep(s, w, Convert(body, contentType));
    AttemptAt(c, s, w);
    hide Safe, RefsMatch;
    var t := s.workers[w];
    var uploads := s.subs[s.h.owner[t.task]].uploads;
    assert t.phase.files == FilesOf(uploads);
    assert CallOk(s', Call(w, t.task, t.phase.files));
    AttemptStepSafe(c, s, s', w);
  }

  lemma SaveSafe(c: Config, s: State, w: Id)
    requires Safe(c, s) && WorkEnabled(s, w, SaveBody)
    ensures Safe(c, WorkStep(s, w, SaveBody))
  {
    var s' := WorkStep(s, w, SaveBody);
    AttemptAt(c, s, w);
    hide Safe, RefsMatch, FilesMatch;
    forall t | t in s'.redis.results ensures exists v :: Save(v, t, s'.redis.results[t]) in s'.h.saves {
      if t == s.workers[w].task {
        assert Save(w, t, s'.redis.results[t]) in s'.h.saves;
      } else {
        var v :| Save(v, t, s.redis.results[t]) in s.h.saves;
        assert Save(v, t, s'.redis.results[t]) in s'.h.saves;
      }
    }
    AttemptStepSafe(c, s, s', w);
  }

  /** The attempt gives up, or sets the content type and is done. */
  lemma EndSafe(c: Config, s: State, w: Id, a: WorkAction)
    requires Safe(c, s) && WorkEnabled(s, w, a) && (a.GiveUp? || a.SaveType?)
    ensures Safe(c, WorkStep(s, w, a))
  {
    AttemptAt(c, s, w);
    hide Safe, RefsMatch, FilesMatch;
    AttemptStepSafe(c, s, WorkStep(s, w, a), w);
  }

  lemma WorkStepSafe(c: Config, s: State, w: Id, a: WorkAction)
    requires Safe(c, s) && WorkEnabled(s, w, a)
    ensures Safe(c, WorkStep(s, w, a))
  {
    hide Safe, WorkEnabled, WorkStep;
    match a
    case Take(task) => TakeSafe(c, s, w, task);
    case Load => LoadSafe(c, s, w);
    case Convert(body, contentType) => ConvertSafe(c, s, w, body, contentType);
    case SaveBody => SaveSafe(c, s, w);
    case _ => EndSafe(c, s, w, a);
  }

  // ----------------------------------------------------- readers and expiry

  lemma ReaderStepOk(c: Config, s: State, r: Id, a: ReadAction)
    requires StoreFaithful(s) && ReadEnabled(s, r, a) && (r in s.readers ==> ReaderOk(c, s, s.readers[r]))
    ensures ReaderOk(c, s, ReadStep(c, s, r, a).readers[r])
  {
  }

  lemma ReadStepSafe(c: Config, s: State, r: Id, a: ReadAction)
    requires Safe(c, s) && ReadEnabled(s, r, a)
    ensures Safe(c, ReadStep(c, s, r, a))
  {
    hide StoreFaithful, TasksOwned, TokensBound, SubsOk, WorkersOk, ReaderOk;
    var s' := ReadStep(c, s, r, a);
    assert s' == s.(readers := s'.readers);
    assert forall k :: k in s'.readers && k != r ==> k in s.readers && s'.readers[k] == s.readers[k];
    ReaderStepOk(c, s, r, a);
    hide ReadStep;
    NewReaders(c, s, s');
  }

  lemma NewReaders(c: Config, s: State, s': State)
    requires Safe(c, s) && s' == s.(readers := s'.readers)
    requires forall k :: k in s'.readers ==> ReaderOk(c, s, s'.readers[k])
    ensures Safe(c, s')
  {
    hide RefsMatch, FilesMatch;
    assert CoreSafe(c, s') by { SameHistory(c, s, s'); }
    WorkersStay(s, s');
    forall k | k in s'.readers ensures ReaderOk(c, s', s'.readers[k]) {
      assert ReaderOk(c, s, s'.readers[k]);
    }
  }

  lemma ExpireKeepsFaith(s: State, e: Expiry)
    requires StoreFaithful(s)
    ensures StoreFaithful(ExpireStep(s, e))
  {
  }

  lemma SameHistory(c: Config, s: State, s': State)
    requires CoreSafe(c, s) && s'.h == s.h && s'.subs == s.subs && StoreFaithful(s')
    ensures CoreSafe(c, s') && Extends(s, s')
  {
    hide StoreFaithful, RefsMatch;
  }

  lemma ExpireCore(c: Config, s: State, e: Expiry)
    requires CoreSafe(c, s)
    ensures CoreSafe(c, ExpireStep(s, e)) && Extends(s, ExpireStep(s, e))
  {
    hide StoreFaithful, TasksOwned, TokensBound, SubsOk, Extends;
    ExpireKeepsFaith(s, e);
    SameHistory(c, s, ExpireStep(s, e));
  }

  lemma ExpireStepSafe(c: Config, s: State, e: Expiry)
    requires Safe(c, s)
    ensures Safe(c, ExpireStep(s, e))
  {
    hide WorkersOk, ReadersOk, Extends, StoreFaithful, TasksOwned, TokensBound, SubsOk;
    ExpireCore(c, s, e);
    CoreStep(c, s, ExpireStep(s, e));
  }

  lemma StepSafe(c: Config, s: State, a: Action)
    requires Safe(c, s) && Enabled(s, a)
    ensures Safe(c, Step(c, s, a))
  {
    hide Safe;
    match a
    case Sub(i, x) => SubStepSafe(c, s, i, x);
    case Work(w, x) => WorkStepSafe(c, s, w, x);
    case Read(r, x) => ReadStepSafe(c, s, r, x);
    case Expire(e) => ExpireStepSafe(c, s, e);
  }

  lemma {:induction false} RunSafe(c: Config, actions: seq<Action>)
    requires Run(c, actions).Some?
    ensures Safe(c, Run(c, actions).value)
    decreases |actions|
  {
    if actions != [] {
      hide Safe;
      var n := |actions| - 1;
      RunSafe(c, actions[..n]);
      StepSafe(c, Run(c, actions[..n]).value, actions[n]);
    }
  }

  // ------------------------------------------------------------ main theorems

  /** The submission whose task the token was bound to. */
  function SubmissionOf(s: State, token: Id): Id
    requires token in s.h.bound && s.h.bound[token].task in s.h.owner
  {
    s.h.owner[s.h.bound[token].task]
  }

  /** Attribution: in every reachable state, whatever has expired, failed or
      been retried, a body read through a token was saved by some attempt of
      exactly the task that the token's submission enqueued, and the caller's
      key has the fingerprint of the key that submission was made with, unless
      that was empty. */
  lemma Attribution(c: Config, actions: seq<Action>, r: Id)
    requires Run(c, actions).Some? && r in Run(c, actions).value.readers
    requires Run(c, actions).value.readers[r].phase.Body?
    ensures var s := Run(c, actions).value;
            var q := s.readers[r];
            && q.token in s.h.bound && s.h.bound[q.token].task in s.h.owner
            && SubmissionOf(s, q.token) in s.subs
            && (exists w :: Save(w, s.h.bound[q.token].task, q.phase.body) in s.h.saves)
            && var made := c.fingerprint(s.subs[SubmissionOf(s, q.token)].apiKey);
               made == "" || made == c.fingerprint(q.apiKey)
  {
    RunSafe(c, actions);
    var s := Run(c, actions).value;
    var q := s.readers[r];
    assert ReaderOk(c, s, q);
    var w :| Save(w, q.phase.task, q.phase.body) in s.h.saves;
  }

  /** Blob round trip: every engine call, on any attempt of any task, is handed
      the files that the task's submission uploaded, in order, each with its
      name, its resolved type, its length and its bytes. */
  lemma EngineSeesUploads(c: Config, actions: seq<Action>, call: Call)
    requires Run(c, actions).Some? && call in Run(c, actions).value.h.calls
    ensures var s := Run(c, actions).value;
            && call.task in s.h.owner && s.h.owner[call.task] in s.subs
            && call.files == FilesOf(s.subs[s.h.owner[call.task]].uploads)
  {
    RunSafe(c, actions);
    var s := Run(c, actions).value;
    assert CallOk(s, call);
  }
}
