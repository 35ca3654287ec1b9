// The body and the Content-Type of a result: two keys, written and read one after
// the other. Which attempts the two halves of an answer come from, over whole runs,
// and exactly when they come from one.

module TaskPairing {
  import opened Bytes
  import opened Tasks

  /** The attempt that wrote the task's body last. */
  function LastBody(trace: seq<Write>, task: Id): Option<Id> {
    if trace == [] then None
    else
      var last := trace[|trace| - 1];
      if last.WroteBody? && last.task == task then Some(last.worker) else LastBody(trace[..|trace| - 1], task)
  }

  /** The attempt that wrote the task's type last. */
  function LastType(trace: seq<Write>, task: Id): Option<Id> {
    if trace == [] then None
    else
      var last := trace[|trace| - 1];
      if last.WroteType? && last.task == task then Some(last.worker) else LastType(trace[..|trace| - 1], task)
  }

  // --------------------------------------------------------------- invariant

  /** w, if it is an attempt, made this body for the task. */
  ghost predicate MadeBody(s: State, w: Option<Id>, task: Id, body: bytes) {
    w.Some? && w.value in s.h.made && s.h.made[w.value].task == task && s.h.made[w.value].body == body
  }

  ghost predicate MadeType(s: State, w: Option<Id>, task: Id, contentType: string) {
    w.Some? && w.value in s.h.made && s.h.made[w.value].task == task && s.h.made[w.value].contentType == contentType
  }

  ghost predicate AttemptMade(s: State, w: Id)
    requires w in s.workers
  {
    var t := s.workers[w];
    && (t.phase.Loading? ==> w !in s.h.made)
    && (t.phase.Converted? ==> w in s.h.made && s.h.made[w] == Made(t.task, t.phase.body, t.phase.contentType))
    && (t.phase.BodySaved? ==> MadeType(s, Some(w), t.task, t.phase.contentType))
  }

  ghost predicate ReaderHas(s: State, q: Reader) {
    match q.phase
    case Holding(task, body, at) => at <= |s.h.trace| && MadeBody(s, LastBody(s.h.trace[..at], task), task, body)
    case Body(task, body, contentType, typed, at, till) =>
      && at <= till <= |s.h.trace| && MadeBody(s, LastBody(s.h.trace[..at], task), task, body)
      && if typed then MadeType(s, LastType(s.h.trace[..till], task), task, contentType) else contentType == ""
    case _ => true
  }

  ghost predicate StoresLast(s: State) {
    && (forall t :: t in s.redis.results ==> MadeBody(s, LastBody(s.h.trace, t), t, s.redis.results[t]))
    && (forall t :: t in s.redis.types ==> MadeType(s, LastType(s.h.trace, t), t, s.redis.types[t]))
  }

  ghost predicate Known(s: State) {
    && (forall w :: w in s.h.made ==> w in s.workers)
    && (forall w :: w in s.workers ==> AttemptMade(s, w))
    && StoresLast(s)
    && (forall r :: r in s.readers ==> ReaderHas(s, s.readers[r]))
  }

  /** Nothing that attempts made or wrote is forgotten. */
  ghost predicate Remembers(s: State, s': State) {
    && (forall w :: w in s.h.made ==> w in s'.h.made && s'.h.made[w] == s.h.made[w])
    && s.h.trace <= s'.h.trace
  }

  lemma ReaderStays(s: State, s': State, q: Reader)
    requires Remembers(s, s') && ReaderHas(s, q)
    ensures ReaderHas(s', q)
  {
    hide LastBody, LastType;
    if q.phase.Holding? {
      assert s'.h.trace[..q.phase.at] == s.h.trace[..q.phase.at];
    } else if q.phase.Body? {
      assert s'.h.trace[..q.phase.at] == s.h.trace[..q.phase.at];
      assert s'.h.trace[..q.phase.till] == s.h.trace[..q.phase.till];
    }
  }

  /** Steps that change no attempt, and nothing that attempts made or wrote. */
  lemma QuietKnown(s: State, s': State)
    requires Known(s) && s'.workers == s.workers && s'.h.made == s.h.made && s'.h.trace == s.h.trace
    requires s'.redis.results.Keys <= s.redis.results.Keys && s'.redis.types.Keys <= s.redis.types.Keys
    requires forall t :: t in s'.redis.results ==> s'.redis.results[t] == s.redis.results[t]
    requires forall t :: t in s'.redis.types ==> s'.redis.types[t] == s.redis.types[t]
    requires forall r :: r in s'.readers ==> ReaderHas(s', s'.readers[r])
    ensures Known(s')
  {
    hide LastBody, LastType, ReaderHas;
    forall w | w in s'.workers ensures AttemptMade(s', w) {
      assert AttemptMade(s, w);
    }
  }

  lemma ReadersKnown(s: State, s': State)
    requires Known(s) && Remembers(s, s') && s'.readers == s.readers
    ensures forall r :: r in s'.readers ==> ReaderHas(s', s'.readers[r])
  {
    forall r | r in s'.readers ensures ReaderHas(s', s'.readers[r]) {
      ReaderStays(s, s', s.readers[r]);
    }
  }

  // ------------------------------------------------------------------- steps

  /** One attempt moves; the others stay. */
  lemma AttemptsStay(s: State, s': State, w: Id)
    requires Known(s) && Remembers(s, s') && w in s'.workers && AttemptMade(s', w)
    requires forall v :: v in s'.workers && v != w ==> v in s.workers && s'.workers[v] == s.workers[v]
    requires forall v :: v in s'.h.made && v != w ==> v in s.h.made
    ensures forall v :: v in s'.workers ==> AttemptMade(s', v)
  {
    forall v | v in s'.workers ensures AttemptMade(s', v) {
      assert v != w ==> AttemptMade(s, v);
    }
  }

  lemma StoresStay(s: State, s': State)
    requires StoresLast(s) && Remembers(s, s') && s'.h.trace == s.h.trace && s'.redis == s.redis
    ensures StoresLast(s')
  {
    hide LastBody, LastType;
  }

  /** Take, Load, GiveUp and Convert write nothing. */
  lemma MoveKnown(s: State, w: Id, a: WorkAction)
    requires Known(s) && WorkEnabled(s, w, a) && !a.SaveBody? && !a.SaveType?
    ensures Known(WorkStep(s, w, a))
  {
    hide LastBody, LastType, ReaderHas, StoresLast;
    var s' := WorkStep(s, w, a);
    assert w in s.workers ==> AttemptMade(s, w);
    assert Remembers(s, s');
    assert AttemptMade(s', w);
    AttemptsStay(s, s', w);
    StoresStay(s, s');
    ReadersKnown(s, s');
  }

  lemma LastAfter(trace: seq<Write>, e: Write, task: Id)
    ensures LastBody(trace + [e], task) == if e.WroteBody? && e.task == task then Some(e.worker) else LastBody(trace, task)
    ensures LastType(trace + [e], task) == if e.WroteType? && e.task == task then Some(e.worker) else LastType(trace, task)
  {
    assert (trace + [e])[..|trace|] == trace;
  }

  lemma SaveBodyStores(s: State, w: Id)
    requires Known(s) && WorkEnabled(s, w, SaveBody)
    ensures StoresLast(WorkStep(s, w, SaveBody))
  {
    hide LastBody, LastType, ReaderHas;
    var s' := WorkStep(s, w, SaveBody);
    var task := s.workers[w].task;
    assert AttemptMade(s, w);
    forall t ensures LastBody(s'.h.trace, t) == if t == task then Some(w) else LastBody(s.h.trace, t) {
      LastAfter(s.h.trace, WroteBody(w, task), t);
    }
    forall t ensures LastType(s'.h.trace, t) == LastType(s.h.trace, t) {
      LastAfter(s.h.trace, WroteBody(w, task), t);
    }
  }

  lemma SaveTypeStores(s: State, w: Id)
    requires Known(s) && WorkEnabled(s, w, SaveType)
    ensures StoresLast(WorkStep(s, w, SaveType))
  {
    hide LastBody, LastType, ReaderHas;
    var s' := WorkStep(s, w, SaveType);
    var task := s.workers[w].task;
    assert AttemptMade(s, w);
    forall t ensures LastType(s'.h.trace, t) == if t == task then Some(w) else LastType(s.h.trace, t) {
      LastAfter(s.h.trace, WroteType(w, task), t);
    }
    forall t ensures LastBody(s'.h.trace, t) == LastBody(s.h.trace, t) {
      LastAfter(s.h.trace, WroteType(w, task), t);
    }
  }

  lemma WriteKnown(s: State, w: Id, a: WorkAction)
    requires Known(s) && WorkEnabled(s, w, a) && (a.SaveBody? || a.SaveType?)
    ensures Known(WorkStep(s, w, a))
  {
    hide LastBody, LastType, ReaderHas;
    if a.SaveBody? {
      SaveBodyStores(s, w);
    } else {
      SaveTypeStores(s, w);
    }
    hide StoresLast;
    var s' := WorkStep(s, w, a);
    assert AttemptMade(s, w);
    AttemptsStay(s, s', w);
    ReadersKnown(s, s');
  }

  lemma ReadKnown(c: Config, s: State, r: Id, a: ReadAction)
    requires Known(s) && ReadEnabled(s, r, a)
    ensures Known(ReadStep(c, s, r, a))
  {
    hide LastBody, LastType, MadeBody, MadeType;
    var s' := ReadStep(c, s, r, a);
    assert s.h.trace[..|s.h.trace|] == s.h.trace;
    assert ReaderHas(s', s'.readers[r]) by {
      ReaderMoves(c, s, r, a);
    }
    forall q | q in s'.readers ensures ReaderHas(s', s'.readers[q]) {
      if q != r {
        ReaderStays(s, s', s.readers[q]);
      }
    }
    QuietKnown(s, s');
  }

  lemma ReaderMoves(c: Config, s: State, r: Id, a: ReadAction)
    requires Known(s) && ReadEnabled(s, r, a)
    ensures ReaderHas(ReadStep(c, s, r, a), ReadStep(c, s, r, a).readers[r])
  {
    hide LastBody, LastType, AttemptMade;
    assert s.h.trace[..|s.h.trace|] == s.h.trace;
    assert r in s.readers ==> ReaderHas(s, s.readers[r]);
  }

  lemma SubIsQuiet(c: Config, s: State, i: Id, a: SubAction)
    requires SubEnabled(s, i, a)
    ensures var s' := SubStep(c, s, i, a);
            && s'.workers == s.workers && s'.readers == s.readers && s'.h.made == s.h.made && s'.h.trace == s.h.trace
            && s'.redis.results == s.redis.results && s'.redis.types == s.redis.types
  {
    hide KeyOf, EnqueuePhase, WithinLimits;
    match a
    case Lookup(ok) =>
    case Reserve(ok) =>
    case ReadWinner(ok) =>
    case _ =>
  }

  lemma SubKnown(c: Config, s: State, i: Id, a: SubAction)
    requires Known(s) && SubEnabled(s, i, a)
    ensures Known(SubStep(c, s, i, a))
  {
    hide SubStep, SubEnabled, LastBody, LastType, AttemptMade, StoresLast;
    SubIsQuiet(c, s, i, a);
    ReadersKnown(s, SubStep(c, s, i, a));
    QuietKnown(s, SubStep(c, s, i, a));
  }

  lemma ExpireKnown(s: State, e: Expiry)
    requires Known(s)
    ensures Known(ExpireStep(s, e))
  {
    hide LastBody, LastType, AttemptMade, StoresLast, ReaderHas;
    ReadersKnown(s, ExpireStep(s, e));
    QuietKnown(s, ExpireStep(s, e));
  }

  lemma StepKnown(c: Config, s: State, a: Action)
    requires Known(s) && Enabled(s, a)
    ensures Known(Step(c, s, a))
  {
    hide SubStep, WorkStep, ReadStep, SubEnabled, WorkEnabled, ReadEnabled, ExpireStep, Known;
    match a
    case Sub(i, x) => SubKnown(c, s, i, x);
    case Work(w, x) =>
      if x.SaveBody? || x.SaveType? {
        WriteKnown(s, w, x);
      } else {
        MoveKnown(s, w, x);
      }
    case Read(r, x) => ReadKnown(c, s, r, x);
    case Expire(e) => ExpireKnown(s, e);
  }

  lemma {:induction false} RunKnown(c: Config, actions: seq<Action>)
    requires Run(c, actions).Some?
    ensures Known(Run(c, actions).value)
    decreases |actions|
  {
    if actions != [] {
      hide Known;
      var n := |actions| - 1;
      RunKnown(c, actions[..n]);
      StepKnown(c, Run(c, actions[..n]).value, actions[n]);
    }
  }

  // ------------------------------------------------------------ main results

  /** The attempt whose body reader r was given, and the one whose type. */
  function BodyFrom(s: State, r: Id): Option<Id>
    requires r in s.readers && s.readers[r].phase.Body? && s.readers[r].phase.at <= |s.h.trace|
  {
    LastBody(s.h.trace[..s.readers[r].phase.at], s.readers[r].phase.task)
  }

  function TypeFrom(s: State, r: Id): Option<Id>
    requires r in s.readers && s.readers[r].phase.Body? && s.readers[r].phase.till <= |s.h.trace|
  {
    LastType(s.h.trace[..s.readers[r].phase.till], s.readers[r].phase.task)
  }

  /** In every reachable state, the body of an answer was made by the attempt that
      wrote the task's body last before it was read; its type is empty or was made,
      for the same task, by the attempt that wrote the type last before it was
      read. */
  lemma HalvesAreGenuine(c: Config, actions: seq<Action>, r: Id)
    requires Run(c, actions).Some? && r in Run(c, actions).value.readers && Run(c, actions).value.readers[r].phase.Body?
    ensures var s := Run(c, actions).value;
            var q := s.readers[r].phase;
            && q.at <= q.till <= |s.h.trace| && MadeBody(s, BodyFrom(s, r), q.task, q.body)
            && if q.typed then MadeType(s, TypeFrom(s, r), q.task, q.contentType) else q.contentType == ""
  {
    hide LastBody, LastType;
    RunKnown(c, actions);
    assert ReaderHas(Run(c, actions).value, Run(c, actions).value.readers[r]);
  }

  /** Some attempt made exactly this answer. */
  ghost predicate IsOneAnswer(s: State, task: Id, body: bytes, contentType: string) {
    exists w :: w in s.h.made && s.h.made[w] == Made(task, body, contentType)
  }

  /** The attempts of the task can be told apart by either half. */
  ghost predicate ToldApart(s: State, task: Id) {
    forall v, w :: v in s.h.made && w in s.h.made && v != w && s.h.made[v].task == task && s.h.made[w].task == task ==>
      s.h.made[v].body != s.h.made[w].body && s.h.made[v].contentType != s.h.made[w].contentType
  }

  /** The attempt that wrote the body last, before it was read, is also the one that
      wrote the type last before that was read; or no type was found and that attempt
      had none. */
  predicate FromOneAttempt(s: State, r: Id)
    requires r in s.readers && s.readers[r].phase.Body? && s.readers[r].phase.at <= s.readers[r].phase.till <= |s.h.trace|
    requires BodyFrom(s, r).Some? && BodyFrom(s, r).value in s.h.made
  {
    if s.readers[r].phase.typed then BodyFrom(s, r) == TypeFrom(s, r) else s.h.made[BodyFrom(s, r).value].contentType == ""
  }

  /** Body and type are one answer when they come from one attempt; and only then,
      but for an attempt that happens to have made the same body or the same type. */
  lemma PairedIff(c: Config, actions: seq<Action>, r: Id)
    requires Run(c, actions).Some? && r in Run(c, actions).value.readers && Run(c, actions).value.readers[r].phase.Body?
    ensures var s := Run(c, actions).value;
            var q := s.readers[r].phase;
            && q.at <= q.till <= |s.h.trace| && BodyFrom(s, r).Some? && BodyFrom(s, r).value in s.h.made
            && (FromOneAttempt(s, r) ==> IsOneAnswer(s, q.task, q.body, q.contentType))
            && (ToldApart(s, q.task) ==> (IsOneAnswer(s, q.task, q.body, q.contentType) <==> FromOneAttempt(s, r)))
  {
    hide Run, LastBody, LastType;
    HalvesAreGenuine(c, actions, r);
    var s := Run(c, actions).value;
    var q := s.readers[r].phase;
    var from := BodyFrom(s, r).value;
    hide BodyFrom, TypeFrom;
    if s.h.made[from].contentType == q.contentType {
      assert s.h.made[from] == Made(q.task, q.body, q.contentType);
    }
    if ToldApart(s, q.task) && IsOneAnswer(s, q.task, q.body, q.contentType) {
      var w :| w in s.h.made && s.h.made[w] == Made(q.task, q.body, q.contentType);
      assert w == from;
    }
  }

  /** With one attempt that made an answer, a typed answer is that one. */
  lemma PairedWithoutRetry(c: Config, actions: seq<Action>, r: Id, w: Id)
    requires Run(c, actions).Some? && r in Run(c, actions).value.readers && Run(c, actions).value.readers[r].phase.Body?
    requires forall v :: v in Run(c, actions).value.h.made && Run(c, actions).value.h.made[v].task == Run(c, actions).value.readers[r].phase.task ==> v == w
    ensures var s := Run(c, actions).value;
            var q := s.readers[r].phase;
            w in s.h.made && q.body == s.h.made[w].body && (q.typed ==> s.h.made[w] == Made(q.task, q.body, q.contentType))
  {
    hide Run, LastBody, LastType;
    HalvesAreGenuine(c, actions, r);
  }

  // ---------------------------------------------------------- counterexample

  /** Two attempts v and w of a task write in turn: both bodies, then w's type, then
      v's; reader r then reads both halves. */
  function Mix(v: Id, w: Id, r: Id): seq<Action> {
    [Work(v, SaveBody), Work(w, SaveBody), Work(w, SaveType), Work(v, SaveType), Read(r, Fetch), Read(r, FetchType(true))]
  }

  lemma TwoSave(c: Config, s: State, v: Id, w: Id)
    requires v != w && v in s.workers && w in s.workers && s.workers[v].task == s.workers[w].task
    requires s.workers[v].phase.Converted? && s.workers[w].phase.Converted?
    ensures Enabled(s, Work(v, SaveBody))
    ensures var s1 := Step(c, s, Work(v, SaveBody));
            && Enabled(s1, Work(w, SaveBody))
            && var s2 := Step(c, s1, Work(w, SaveBody));
               && s2.redis.results == s.redis.results[s.workers[v].task := s.workers[w].phase.body]
               && s2.workers == s.workers[v := s.workers[v].(phase := BodySaved(s.workers[v].phase.contentType))]
                                         [w := s.workers[w].(phase := BodySaved(s.workers[w].phase.contentType))]
               && s2.readers == s.readers
  {
  }

  lemma TwoTypes(c: Config, s: State, v: Id, w: Id)
    requires v != w && v in s.workers && w in s.workers && s.workers[v].task == s.workers[w].task
    requires s.workers[v].phase.BodySaved? && s.workers[w].phase.BodySaved?
    ensures Enabled(s, Work(w, SaveType))
    ensures var s1 := Step(c, s, Work(w, SaveType));
            && Enabled(s1, Work(v, SaveType))
            && var s2 := Step(c, s1, Work(v, SaveType));
               && s2.redis.types == s.redis.types[s.workers[v].task := s.workers[v].phase.contentType]
               && s2.redis.results == s.redis.results && s2.readers == s.readers
  {
  }

  lemma ReadBoth(c: Config, s: State, r: Id)
    requires r in s.readers && s.readers[r].phase.Resolved?
    requires s.readers[r].phase.task in s.redis.results && s.readers[r].phase.task in s.redis.types
    ensures Enabled(s, Read(r, Fetch))
    ensures var s1 := Step(c, s, Read(r, Fetch));
            && Enabled(s1, Read(r, FetchType(true))) && r in Step(c, s1, Read(r, FetchType(true))).readers
            && var q := Step(c, s1, Read(r, FetchType(true))).readers[r].phase;
               && q.Body? && q.task == s.readers[r].phase.task
               && q.body == s.redis.results[q.task] && q.contentType == s.redis.types[q.task]
  {
  }

  /** From every state in which two attempts of a task have converted and a reader
      may read the task, the reader can be given the body of one with the type of
      the other. */
  lemma HalvesCanMix(c: Config, s: State, v: Id, w: Id, r: Id)
    requires v != w && v in s.workers && w in s.workers && r in s.readers
    requires s.workers[v].phase.Converted? && s.workers[w].phase.Converted? && s.readers[r].phase.Resolved?
    requires s.workers[v].task == s.workers[w].task == s.readers[r].phase.task
    ensures var end := From(c, s, Mix(v, w, r));
            && end.Some? && r in end.value.readers && end.value.readers[r].phase.Body?
            && end.value.readers[r].phase.body == s.workers[w].phase.body
            && end.value.readers[r].phase.contentType == s.workers[v].phase.contentType
  {
    hide From, Step, Enabled;
    var m := Mix(v, w, r);
    TwoSave(c, s, v, w);
    var s1 := Step(c, s, m[0]);
    OneStep(c, s, m);
    OneStep(c, s1, m[1..]);
    var s2 := Step(c, s1, m[1]);
    assert m[1..][1..] == m[2..];
    TwoTypes(c, s2, v, w);
    var s3 := Step(c, s2, m[2]);
    OneStep(c, s2, m[2..]);
    assert m[2..][1..] == m[3..];
    OneStep(c, s3, m[3..]);
    assert m[3..][1..] == m[4..];
    var s4 := Step(c, s3, m[3]);
    ReadBoth(c, s4, r);
    var s5 := Step(c, s4, m[4]);
    OneStep(c, s4, m[4..]);
    assert m[4..][1..] == m[5..];
    OneStep(c, s5, m[5..]);
    assert m[5..][1..] == [];
    FromNothing(c, Step(c, s5, m[5]));
  }

  /** One submission without files, two attempts of its task that answer differently,
      and a reader whose token is resolved. */
  const SUBMITTED: seq<Action> := [Sub(0, Submit("", "", [])), Sub(0, Lookup(true)), Sub(0, Push(0)), Sub(0, Bind(0))]
  const ATTEMPTED: seq<Action> := [Work(0, Take(0)), Work(1, Take(0)), Work(0, Convert([1], "a")), Work(1, Convert([2], "b"))]
  const ASKED: seq<Action> := [Read(0, Ask(0, "")), Read(0, Resolve)]

  lemma Submitted(c: Config)
    ensures var end := From(c, INITIAL, SUBMITTED);
            && end.Some? && 0 in end.value.redis.queue && end.value.redis.queue[0] == []
            && 0 in end.value.redis.tokens && end.value.redis.tokens[0] == Binding(0, c.fingerprint(""))
            && end.value.workers == map[] && end.value.readers == map[]
  {
    hide KeyOf, From;
    var m := SUBMITTED;
    OneStep(c, INITIAL, m);
    var s1 := Step(c, INITIAL, m[0]);
    OneStep(c, s1, m[1..]);
    assert m[1..][1..] == m[2..];
    var s2 := Step(c, s1, m[1]);
    assert s2.subs[0].phase == Storing([]);
    OneStep(c, s2, m[2..]);
    assert m[2..][1..] == m[3..];
    var s3 := Step(c, s2, m[2]);
    OneStep(c, s3, m[3..]);
    assert m[3..][1..] == [];
    FromNothing(c, Step(c, s3, m[3]));
  }

  lemma Attempted(c: Config, s: State)
    requires 0 in s.redis.queue && s.redis.queue[0] == [] && s.workers == map[]
    ensures var end := From(c, s, ATTEMPTED);
            && end.Some? && end.value.readers == s.readers && end.value.redis == s.redis && 0 in end.value.workers && 1 in end.value.workers
            && end.value.workers[0] == Attempt(0, [], Converted([1], "a")) && end.value.workers[1] == Attempt(0, [], Converted([2], "b"))
  {
    hide From;
    var m := ATTEMPTED;
    OneStep(c, s, m);
    var s1 := Step(c, s, m[0]);
    OneStep(c, s1, m[1..]);
    assert m[1..][1..] == m[2..];
    var s2 := Step(c, s1, m[1]);
    OneStep(c, s2, m[2..]);
    assert m[2..][1..] == m[3..];
    var s3 := Step(c, s2, m[2]);
    OneStep(c, s3, m[3..]);
    assert m[3..][1..] == [];
    FromNothing(c, Step(c, s3, m[3]));
  }

  lemma Asked(c: Config, s: State)
    requires 0 in s.redis.tokens && s.redis.tokens[0] == Binding(0, c.fingerprint("")) && 0 !in s.readers
    ensures var end := From(c, s, ASKED);
            && end.Some? && end.value.redis == s.redis && end.value.workers == s.workers
            && 0 in end.value.readers && end.value.readers[0].phase == Resolved(0)
  {
    hide From;
    var m := ASKED;
    OneStep(c, s, m);
    var s1 := Step(c, s, m[0]);
    OneStep(c, s1, m[1..]);
    assert m[1..][1..] == [];
    FromNothing(c, Step(c, s1, m[1]));
  }

  /** A run of the whole system that ends with the body of one attempt under the
      Content-Type of another. */
  lemma MixedAnswer(c: Config)
    ensures var end := Run(c, SUBMITTED + ATTEMPTED + ASKED + Mix(0, 1, 0));
            && end.Some? && 0 in end.value.readers && end.value.readers[0].phase.Body?
            && end.value.readers[0].phase.body == [2] && end.value.readers[0].phase.contentType == "a"
  {
    hide From, Mix;
    assert Run(c, []) == Some(INITIAL);
    Submitted(c);
    RunThenFrom(c, [], SUBMITTED);
    assert [] + SUBMITTED == SUBMITTED;
    hide Run;
    var s1 := Run(c, SUBMITTED).value;
    Attempted(c, s1);
    RunThenFrom(c, SUBMITTED, ATTEMPTED);
    var s2 := Run(c, SUBMITTED + ATTEMPTED).value;
    Asked(c, s2);
    RunThenFrom(c, SUBMITTED + ATTEMPTED, ASKED);
    var s3 := Run(c, SUBMITTED + ATTEMPTED + ASKED).value;
    HalvesCanMix(c, s3, 0, 1, 0);
    RunThenFrom(c, SUBMITTED + ATTEMPTED + ASKED, Mix(0, 1, 0));
  }

  // ------------------------------------------------- one attempt after another

  /** The retry w of a task writes its body; reader r reads before it writes its type. */
  function Overtake(w: Id, r: Id): seq<Action> {
    [Work(w, SaveBody), Read(r, Fetch), Read(r, FetchType(true))]
  }

  /** From every state in which a type is stored for a task that a retry has converted
      once more, a reader can be given the retry's body with the type stored earlier. */
  lemma RetryCanMix(c: Config, s: State, w: Id, r: Id)
    requires w in s.workers && s.workers[w].phase.Converted? && s.workers[w].task in s.redis.types
    requires r in s.readers && s.readers[r].phase.Resolved? && s.readers[r].phase.task == s.workers[w].task
    ensures var end := From(c, s, Overtake(w, r));
            && end.Some? && r in end.value.readers && end.value.readers[r].phase.Body?
            && end.value.readers[r].phase.body == s.workers[w].phase.body
            && end.value.readers[r].phase.contentType == s.redis.types[s.workers[w].task]
  {
    hide From;
    var m := Overtake(w, r);
    OneStep(c, s, m);
    var s1 := Step(c, s, m[0]);
    ReadBoth(c, s1, r);
    hide Step, Enabled;
    var s2 := Step(c, s1, m[1]);
    OneStep(c, s1, m[1..]);
    assert m[1..][1..] == m[2..];
    OneStep(c, s2, m[2..]);
    assert m[2..][1..] == [];
    FromNothing(c, Step(c, s2, m[2]));
  }

  /** An attempt that writes both halves, but does not learn that the second write
      succeeded; then its retry, up to the answer of the engine. */
  const SAVED: seq<Action> := [Work(0, Take(0)), Work(0, Convert([1], "a")), Work(0, SaveBody), Work(0, SaveType)]
  const RETRIED: seq<Action> := [Work(1, Take(0)), Work(1, Convert([2], "b"))]

  lemma Saved(c: Config, s: State)
    requires 0 in s.redis.queue && s.redis.queue[0] == [] && s.workers == map[]
    ensures var end := From(c, s, SAVED);
            && end.Some? && end.value.readers == s.readers && end.value.redis.queue == s.redis.queue && 1 !in end.value.workers
            && end.value.redis.tokens == s.redis.tokens && 0 in end.value.redis.types && end.value.redis.types[0] == "a"
  {
    hide From;
    var m := SAVED;
    OneStep(c, s, m);
    var s1 := Step(c, s, m[0]);
    OneStep(c, s1, m[1..]);
    assert m[1..][1..] == m[2..];
    var s2 := Step(c, s1, m[1]);
    OneStep(c, s2, m[2..]);
    assert m[2..][1..] == m[3..];
    var s3 := Step(c, s2, m[2]);
    OneStep(c, s3, m[3..]);
    assert m[3..][1..] == [];
    FromNothing(c, Step(c, s3, m[3]));
  }

  lemma Retried(c: Config, s: State)
    requires 0 in s.redis.queue && s.redis.queue[0] == [] && 1 !in s.workers
    ensures var end := From(c, s, RETRIED);
            && end.Some? && end.value.readers == s.readers && end.value.redis == s.redis && 1 in end.value.workers
            && end.value.workers[1] == Attempt(0, [], Converted([2], "b"))
  {
    hide From;
    var m := RETRIED;
    OneStep(c, s, m);
    var s1 := Step(c, s, m[0]);
    OneStep(c, s1, m[1..]);
    assert m[1..][1..] == [];
    FromNothing(c, Step(c, s1, m[1]));
  }

  /** A run in which the attempts of a task follow one another that ends with the body
      of the second under the Content-Type of the first. */
  lemma RetriedAnswer(c: Config)
    ensures var end := Run(c, SUBMITTED + SAVED + RETRIED + ASKED + Overtake(1, 0));
            && end.Some? && 0 in end.value.readers && end.value.readers[0].phase.Body?
            && end.value.readers[0].phase.body == [2] && end.value.readers[0].phase.contentType == "a"
  {
    hide From, Overtake;
    assert Run(c, []) == Some(INITIAL);
    Submitted(c);
    RunThenFrom(c, [], SUBMITTED);
    assert [] + SUBMITTED == SUBMITTED;
    hide Run;
    var s1 := Run(c, SUBMITTED).value;
    Saved(c, s1);
    RunThenFrom(c, SUBMITTED, SAVED);
    var s2 := Run(c, SUBMITTED + SAVED).value;
    Retried(c, s2);
    RunThenFrom(c, SUBMITTED + SAVED, RETRIED);
    var s3 := Run(c, SUBMITTED + SAVED + RETRIED).value;
    Asked(c, s3);
    RunThenFrom(c, SUBMITTED + SAVED + RETRIED, ASKED);
    var s4 := Run(c, SUBMITTED + SAVED + RETRIED + ASKED).value;
    RetryCanMix(c, s4, 1, 0);
    RunThenFrom(c, SUBMITTED + SAVED + RETRIED + ASKED, Overtake(1, 0));
  }
}
