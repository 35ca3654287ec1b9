// The asynchronous task protocol (internal/tasks, and the submit handlers of
// internal/transport/http/handlers/async.go) as a step system: any number of
// submissions, worker attempts and result readers share one Redis, one Redis
// command per step. Keys may expire and commands may fail at any time.

module Tasks {
  import opened Bytes

  // -------------------------------------------------------------------- data

  type Id = nat

  /** keyFromAPIKey, the hash of idempotency keys, and the blob caps (0: none). */
  datatype Config = Config(fingerprint: string -> string, hash: string -> string, maxBlob: nat, maxTotal: nat)

  datatype Upload = Upload(filename: string, contentType: string, data: bytes)

  datatype BlobRef = BlobRef(key: Id, filename: string, contentType: string, size: nat)

  datatype FileBlob = FileBlob(filename: string, contentType: string, size: nat, body: bytes)

  datatype Binding = Binding(task: Id, fp: string)

  datatype IdemKey = IdemKey(fp: string, hash: string)

  /** Where a submission stands between its Redis commands. */
  datatype Phase =
    | Arrived
    | Storing(refs: seq<BlobRef>)
    | Pushed(task: Id)
    | Bound(token: Id)
    | Mapped(token: Id)
    | LostRace(token: Id)
    | Answered(token: Id)
    | Rejected
    | Failed

  datatype Submission = Submission(apiKey: string, idem: string, uploads: seq<Upload>, phase: Phase)

  datatype AttemptPhase =
    | Loading(files: seq<FileBlob>)
    | Converted(body: bytes, contentType: string)
    | BodySaved(contentType: string)
    | Finished
    | GivenUp

  datatype Attempt = Attempt(task: Id, refs: seq<BlobRef>, phase: AttemptPhase)

  /** at and till count what had been written when the body and the type were
      read; typed says whether there was a type to read. */
  datatype ReadPhase =
    | Asked
    | Resolved(task: Id)
    | Holding(task: Id, body: bytes, at: nat)
    | Body(task: Id, body: bytes, contentType: string, typed: bool, at: nat, till: nat)
    | NotFound

  datatype Reader = Reader(token: Id, apiKey: string, phase: ReadPhase)

  /** What happened, for stating properties of whole runs. */
  datatype Event =
    | Got(sub: Id, key: IdemKey, found: bool)
    | Enqueued(sub: Id, task: Id)
    | Reserved(sub: Id, key: IdemKey, token: Id)

  datatype Call = Call(worker: Id, task: Id, files: seq<FileBlob>)

  datatype Save = Save(worker: Id, task: Id, body: bytes)

  /** What an attempt's engine call gave. */
  datatype Made = Made(task: Id, body: bytes, contentType: string)

  /** An attempt wrote its body, or its type. */
  datatype Write = WroteBody(worker: Id, task: Id) | WroteType(worker: Id, task: Id)

  datatype Redis = Redis(
    blobs: map<Id, bytes>,
    tokens: map<Id, Binding>,
    idems: map<IdemKey, Id>,
    results: map<Id, bytes>,
    types: map<Id, string>,
    queue: map<Id, seq<BlobRef>>)

  /** Everything that was ever written, whether or not it has expired. */
  datatype History = History(
    stored: map<Id, bytes>,
    bound: map<Id, Binding>,
    owner: map<Id, Id>,
    payloads: map<Id, seq<BlobRef>>,
    calls: set<Call>,
    saves: set<Save>,
    made: map<Id, Made>,
    trace: seq<Write>,
    log: seq<Event>)

  datatype State = State(redis: Redis, subs: map<Id, Submission>, workers: map<Id, Attempt>, readers: map<Id, Reader>, h: History)

  const INITIAL: State := State(
    Redis(map[], map[], map[], map[], map[], map[]), map[], map[], map[],
    History(map[], map[], map[], map[], {}, {}, map[], [], []))

  // ------------------------------------------------------------- blob limits

  function TotalSize(uploads: seq<Upload>): nat {
    if uploads == [] then 0 else TotalSize(uploads[..|uploads| - 1]) + |uploads[|uploads| - 1].data|
  }

  /** validateBlobLimits accepts: every blob and their sum is within its cap. */
  predicate WithinLimits(c: Config, uploads: seq<Upload>) {
    && (c.maxBlob > 0 ==> forall i :: 0 <= i < |uploads| ==> |uploads[i].data| <= c.maxBlob)
    && (c.maxTotal > 0 ==> TotalSize(uploads) <= c.maxTotal)
  }

  lemma {:induction false} TotalGrows(uploads: seq<Upload>, i: nat)
    requires i <= |uploads|
    ensures TotalSize(uploads[..i]) <= TotalSize(uploads)
    decreases |uploads| - i
  {
    if i == |uploads| {
      assert uploads[..i] == uploads;
    } else {
      assert uploads[..i + 1][..i] == uploads[..i];
      TotalGrows(uploads, i + 1);
    }
  }

  /** validateBlobLimits: a running total, refusing at the first excess. */
  method ValidateBlobLimits(c: Config, uploads: seq<Upload>) returns (ok: bool)
    ensures ok <==> WithinLimits(c, uploads)
  {
    var total := 0;
    for i := 0 to |uploads|
      invariant total == TotalSize(uploads[..i])
      invariant c.maxBlob > 0 ==> forall k :: 0 <= k < i ==> |uploads[k].data| <= c.maxBlob
      invariant c.maxTotal > 0 ==> total <= c.maxTotal
    {
      var size := |uploads[i].data|;
      if c.maxBlob > 0 && size > c.maxBlob {
        return false;
      }
      assert uploads[..i + 1][..i] == uploads[..i];
      total := total + size;
      if c.maxTotal > 0 && total > c.maxTotal {
        TotalGrows(uploads, i + 1);
        return false;
      }
    }
    assert uploads[..|uploads|] == uploads;
    ok := true;
  }

  // ------------------------------------------------------------- submissions

  datatype SubAction =
    | Submit(apiKey: string, idem: string, uploads: seq<Upload>)
    | Lookup(ok: bool)
    | StoreBlob(key: Id)
    | Push(task: Id)
    | Bind(token: Id)
    | MapQueue
    | Reserve(ok: bool)
    | ReadWinner(ok: bool)
    | RedisError

  function KeyOf(c: Config, sub: Submission): IdemKey {
    IdemKey(c.fingerprint(sub.apiKey), c.hash(sub.idem))
  }

  function EnqueuePhase(c: Config, uploads: seq<Upload>): Phase {
    if WithinLimits(c, uploads) then Storing([]) else Rejected
  }

  function SetPhase(s: State, i: Id, p: Phase): State
    requires i in s.subs
  {
    s.(subs := s.subs[i := s.subs[i].(phase := p)])
  }

  function Log(s: State, e: Event): State {
    s.(h := s.h.(log := s.h.log + [e]))
  }

  /** ResolveIdempotent and the branch of submit that follows it. */
  function LookupStep(c: Config, s: State, i: Id, ok: bool): State
    requires i in s.subs
  {
    var sub := s.subs[i];
    var k := KeyOf(c, sub);
    if sub.idem == "" || !ok then SetPhase(s, i, EnqueuePhase(c, sub.uploads))
    else if k in s.redis.idems then Log(SetPhase(s, i, Answered(s.redis.idems[k])), Got(i, k, true))
    else Log(SetPhase(s, i, EnqueuePhase(c, sub.uploads)), Got(i, k, false))
  }

  /** One SET of Enqueue's blob pipeline, under a fresh key. */
  function StoreStep(s: State, i: Id, key: Id): State
    requires i in s.subs && s.subs[i].phase.Storing? && |s.subs[i].phase.refs| < |s.subs[i].uploads|
  {
    var refs := s.subs[i].phase.refs;
    var u := s.subs[i].uploads[|refs|];
    var s' := SetPhase(s, i, Storing(refs + [BlobRef(key, u.filename, u.contentType, |u.data|)]));
    s'.(redis := s.redis.(blobs := s.redis.blobs[key := u.data]), h := s.h.(stored := s.h.stored[key := u.data]))
  }

  /** The asynq enqueue. */
  function PushStep(s: State, i: Id, task: Id): State
    requires i in s.subs && s.subs[i].phase.Storing?
  {
    var refs := s.subs[i].phase.refs;
    var s' := SetPhase(s, i, Pushed(task));
    s'.(redis := s.redis.(queue := s.redis.queue[task := refs]),
        h := s.h.(owner := s.h.owner[task := i], payloads := s.h.payloads[task := refs], log := s.h.log + [Enqueued(i, task)]))
  }

  /** The SET of the token binding. */
  function BindStep(c: Config, s: State, i: Id, token: Id): State
    requires i in s.subs && s.subs[i].phase.Pushed?
  {
    var b := Binding(s.subs[i].phase.task, c.fingerprint(s.subs[i].apiKey));
    var s' := SetPhase(s, i, Bound(token));
    s'.(redis := s.redis.(tokens := s.redis.tokens[token := b]), h := s.h.(bound := s.h.bound[token := b]))
  }

  /** RecordIdempotent up to and including SETNX. */
  function ReserveStep(c: Config, s: State, i: Id, ok: bool): State
    requires i in s.subs && s.subs[i].phase.Mapped?
  {
    var sub := s.subs[i];
    var token, k := sub.phase.token, KeyOf(c, sub);
    if sub.idem == "" || !ok then SetPhase(s, i, Answered(token))
    else if k in s.redis.idems then SetPhase(s, i, LostRace(token))
    else Log(SetPhase(s, i, Answered(token)).(redis := s.redis.(idems := s.redis.idems[k := token])), Reserved(i, k, token))
  }

  /** The GET of the winner after a lost SETNX; when it fails or finds nothing
      the handler keeps its own token. */
  function WinnerStep(c: Config, s: State, i: Id, ok: bool): State
    requires i in s.subs && s.subs[i].phase.LostRace?
  {
    var sub := s.subs[i];
    var k := KeyOf(c, sub);
    SetPhase(s, i, Answered(if ok && k in s.redis.idems then s.redis.idems[k] else sub.phase.token))
  }

  predicate SubEnabled(s: State, i: Id, a: SubAction) {
    if a.Submit? then i !in s.subs
    else if i !in s.subs then false
    else
      var p := s.subs[i].phase;
      match a
      case Submit(_, _, _) => false
      case Lookup(_) => p.Arrived?
      case StoreBlob(key) => p.Storing? && |p.refs| < |s.subs[i].uploads| && key !in s.h.stored
      case Push(task) => p.Storing? && |p.refs| == |s.subs[i].uploads| && task !in s.h.owner
      case Bind(token) => p.Pushed? && token !in s.h.bound
      case MapQueue => p.Bound?
      case Reserve(_) => p.Mapped?
      case ReadWinner(_) => p.LostRace?
      case RedisError => p.Storing? || p.Pushed? || p.Bound?
  }

  function SubStep(c: Config, s: State, i: Id, a: SubAction): State
    requires SubEnabled(s, i, a)
  {
    match a
    case Submit(apiKey, idem, uploads) => s.(subs := s.subs[i := Submission(apiKey, idem, uploads, Arrived)])
    case Lookup(ok) => LookupStep(c, s, i, ok)
    case StoreBlob(key) => StoreStep(s, i, key)
    case Push(task) => PushStep(s, i, task)
    case Bind(token) => BindStep(c, s, i, token)
    case MapQueue => SetPhase(s, i, Mapped(s.subs[i].phase.token))
    case Reserve(ok) => ReserveStep(c, s, i, ok)
    case ReadWinner(ok) => WinnerStep(c, s, i, ok)
    case RedisError => SetPhase(s, i, Failed)
  }

  // ----------------------------------------------------------------- workers

  datatype WorkAction =
    | Take(task: Id)
    | Load
    | GiveUp
    | Convert(body: bytes, contentType: string)
    | SaveBody
    | SaveType

  predicate WorkEnabled(s: State, w: Id, a: WorkAction) {
    if a.Take? then w !in s.workers && a.task in s.redis.queue
    else if w !in s.workers then false
    else
      var t := s.workers[w];
      match a
      case Take(_) => false
      case Load => t.phase.Loading? && |t.phase.files| < |t.refs|
      case GiveUp => !t.phase.Finished?
      case Convert(_, _) => t.phase.Loading? && |t.phase.files| == |t.refs|
      case SaveBody => t.phase.Converted?
      case SaveType => t.phase.BodySaved?
  }

  function SetAttempt(s: State, w: Id, p: AttemptPhase): State
    requires w in s.workers
  {
    s.(workers := s.workers[w := s.workers[w].(phase := p)])
  }

  /** handleConvert, one Redis command or engine call at a time. */
  function WorkStep(s: State, w: Id, a: WorkAction): State
    requires WorkEnabled(s, w, a)
  {
    match a
    case Take(task) => s.(workers := s.workers[w := Attempt(task, s.redis.queue[task], Loading([]))])
    case Load =>
      var t := s.workers[w];
      var ref := t.refs[|t.phase.files|];
      if ref.key in s.redis.blobs then
        SetAttempt(s, w, Loading(t.phase.files + [FileBlob(ref.filename, ref.contentType, ref.size, s.redis.blobs[ref.key])]))
      else SetAttempt(s, w, GivenUp)
    case GiveUp => SetAttempt(s, w, GivenUp)
    case Convert(body, contentType) =>
      var t := s.workers[w];
      var s' := SetAttempt(s, w, Converted(body, contentType));
      s'.(h := s.h.(calls := s.h.calls + {Call(w, t.task, t.phase.files)}, made := s.h.made[w := Made(t.task, body, contentType)]))
    case SaveBody =>
      var t := s.workers[w];
      var s' := SetAttempt(s, w, BodySaved(t.phase.contentType));
      s'.(redis := s.redis.(results := s.redis.results[t.task := t.phase.body]),
          h := s.h.(saves := s.h.saves + {Save(w, t.task, t.phase.body)}, trace := s.h.trace + [WroteBody(w, t.task)]))
    case SaveType =>
      var t := s.workers[w];
      SetAttempt(s, w, Finished).(
        redis := s.redis.(types := s.redis.types[t.task := t.phase.contentType]),
        h := s.h.(trace := s.h.trace + [WroteType(w, t.task)]))
  }

  // ----------------------------------------------------------------- readers

  datatype ReadAction = Ask(token: Id, apiKey: string) | Resolve | Fetch | FetchType(ok: bool) | ReadError

  predicate ReadEnabled(s: State, r: Id, a: ReadAction) {
    if a.Ask? then r !in s.readers
    else if r !in s.readers then false
    else
      match a
      case Ask(_, _) => false
      case Resolve => s.readers[r].phase.Asked?
      case Fetch => s.readers[r].phase.Resolved?
      case FetchType(_) => s.readers[r].phase.Holding?
      case ReadError => s.readers[r].phase.Asked? || s.readers[r].phase.Resolved?
  }

  /** Result: resolveToken, the GET of the body, and the GET of its type, whose
      failure or absence leaves the type empty. */
  function ReadStep(c: Config, s: State, r: Id, a: ReadAction): State
    requires ReadEnabled(s, r, a)
  {
    match a
    case Ask(token, apiKey) => s.(readers := s.readers[r := Reader(token, apiKey, Asked)])
    case Resolve =>
      var q := s.readers[r];
      var p :=
        if q.token !in s.redis.tokens then NotFound
        else
          var b := s.redis.tokens[q.token];
          if b.fp != "" && c.fingerprint(q.apiKey) != b.fp then NotFound else Resolved(b.task);
      s.(readers := s.readers[r := q.(phase := p)])
    case Fetch =>
      var q := s.readers[r];
      var task := q.phase.task;
      var p := if task in s.redis.results then Holding(task, s.redis.results[task], |s.h.trace|) else NotFound;
      s.(readers := s.readers[r := q.(phase := p)])
    case FetchType(ok) =>
      var q := s.readers[r];
      var h := q.phase;
      var p :=
        if ok && h.task in s.redis.types then Body(h.task, h.body, s.redis.types[h.task], true, h.at, |s.h.trace|)
        else Body(h.task, h.body, "", false, h.at, |s.h.trace|);
      s.(readers := s.readers[r := q.(phase := p)])
    case ReadError => s.(readers := s.readers[r := s.readers[r].(phase := NotFound)])
  }

  // ------------------------------------------------------------------ expiry

  datatype Expiry =
    | ExpireBlob(key: Id)
    | ExpireToken(token: Id)
    | ExpireIdem(idem: IdemKey)
    | ExpireResult(task: Id)
    | ExpireType(task: Id)
    | DropTask(task: Id)

  function ExpireStep(s: State, e: Expiry): State {
    var r := s.redis;
    s.(redis := match e
       case ExpireBlob(k) => r.(blobs := r.blobs - {k})
       case ExpireToken(t) => r.(tokens := r.tokens - {t})
       case ExpireIdem(k) => r.(idems := r.idems - {k})
       case ExpireResult(t) => r.(results := r.results - {t})
       case ExpireType(t) => r.(types := r.types - {t})
       case DropTask(t) => r.(queue := r.queue - {t}))
  }

  // -------------------------------------------------------------------- runs

  datatype Action =
    | Sub(id: Id, sub: SubAction)
    | Work(id: Id, work: WorkAction)
    | Read(id: Id, read: ReadAction)
    | Expire(expiry: Expiry)

  predicate Enabled(s: State, a: Action) {
    match a
    case Sub(i, x) => SubEnabled(s, i, x)
    case Work(w, x) => WorkEnabled(s, w, x)
    case Read(r, x) => ReadEnabled(s, r, x)
    case Expire(_) => true
  }

  function Step(c: Config, s: State, a: Action): State
    requires Enabled(s, a)
  {
    match a
    case Sub(i, x) => SubStep(c, s, i, x)
    case Work(w, x) => WorkStep(s, w, x)
    case Read(r, x) => ReadStep(c, s, r, x)
    case Expire(e) => ExpireStep(s, e)
  }

  /** The state after these actions, in this order, from the empty system; None
      when one of them is not possible at its turn. */
  function Run(c: Config, actions: seq<Action>): Option<State> {
    if actions == [] then Some(INITIAL)
    else
      var s :- Run(c, actions[..|actions| - 1]);
      var a := actions[|actions| - 1];
      if Enabled(s, a) then Some(Step(c, s, a)) else None
  }

  /** The state after these actions from s, if each is possible at its turn. */
  function From(c: Config, s: State, actions: seq<Action>): Option<State>
    decreases |actions|
  {
    if actions == [] then Some(s)
    else if Enabled(s, actions[0]) then From(c, Step(c, s, actions[0]), actions[1..])
    else None
  }

  lemma {:induction false} RunThenFrom(c: Config, before: seq<Action>, actions: seq<Action>)
    requires Run(c, before).Some?
    ensures From(c, Run(c, before).value, actions).Some? ==> Run(c, before + actions) == From(c, Run(c, before).value, actions)
    decreases |actions|
  {
    hide Enabled, Step;
    var s := Run(c, before).value;
    if actions == [] {
      assert before + actions == before;
    } else if Enabled(s, actions[0]) {
      var more := before + [actions[0]];
      assert more[..|more| - 1] == before;
      assert Run(c, more) == Some(Step(c, s, actions[0]));
      RunThenFrom(c, more, actions[1..]);
      assert more + actions[1..] == before + actions;
    }
  }

  lemma OneStep(c: Config, s: State, actions: seq<Action>)
    requires actions != [] && Enabled(s, actions[0])
    ensures From(c, s, actions) == From(c, Step(c, s, actions[0]), actions[1..])
  {
  }

  lemma FromNothing(c: Config, s: State)
    ensures From(c, s, []) == Some(s)
  {
  }
}
