// The blob caps over whole runs: which submissions reach the work queue.

module TaskLimits {
  import opened Bytes
  import opened Tasks

  /** The total is the sum, whatever the order of the uploads. */
  lemma {:induction false} TotalOfParts(a: seq<Upload>, b: seq<Upload>)
    ensures TotalSize(a + b) == TotalSize(a) + TotalSize(b)
    ensures |b| == 1 ==> TotalSize(b) == |b[0].data|
  {
    if b == [] {
      assert a + b == a;
    } else {
      assert |b| == 1 ==> b[..0] == [];
      assert (a + b)[..|a + b| - 1] == a + b[..|b| - 1];
      TotalOfParts(a, b[..|b| - 1]);
    }
  }

  /** Every upload and their sum are within the caps; a cap of 0 is none. */
  ghost predicate Admissible(c: Config, uploads: seq<Upload>) {
    && (c.maxBlob == 0 || forall k :: 0 <= k < |uploads| ==> |uploads[k].data| <= c.maxBlob)
    && (c.maxTotal == 0 || TotalSize(uploads) <= c.maxTotal)
  }

  // -------------------------------------------------------------- invariants

  ghost predicate SubOk(c: Config, sub: Submission) {
    && (sub.phase.Storing? || sub.phase.Pushed? || sub.phase.Bound? || sub.phase.Mapped? || sub.phase.LostRace? ==> Admissible(c, sub.uploads))
    && (sub.phase.Rejected? ==> !Admissible(c, sub.uploads))
  }

  ghost predicate Inv(c: Config, s: State) {
    && (forall i :: i in s.subs ==> SubOk(c, s.subs[i]))
    && (forall t :: t in s.h.owner ==> s.h.owner[t] in s.subs && Admissible(c, s.subs[s.h.owner[t]].uploads))
  }

  /** Submission i goes from p to p', if it was there, and may own one more task. */
  ghost predicate OneSub(s: State, s': State, i: Id) {
    && i in s'.subs && (i in s.subs ==> s'.subs[i].uploads == s.subs[i].uploads)
    && (forall j :: j in s.subs ==> j in s'.subs && s'.subs[j].uploads == s.subs[j].uploads)
    && (forall j :: j in s'.subs && j != i ==> j in s.subs && s'.subs[j] == s.subs[j])
    && (forall t :: t in s'.h.owner ==> (t in s.h.owner && s'.h.owner[t] == s.h.owner[t]) || (s'.h.owner[t] == i && s'.subs[i].phase.Pushed?))
  }

  lemma OneSubInv(c: Config, s: State, s': State, i: Id)
    requires Inv(c, s) && OneSub(s, s', i) && SubOk(c, s'.subs[i])
    ensures Inv(c, s')
  {
    hide Admissible;
  }

  lemma LimitsAreAdmissible(c: Config, uploads: seq<Upload>)
    ensures WithinLimits(c, uploads) <==> Admissible(c, uploads)
  {
  }

  lemma SubLeavesOthers(c: Config, s: State, i: Id, a: SubAction)
    requires SubEnabled(s, i, a)
    ensures var s' := SubStep(c, s, i, a);
            i in s'.subs && s'.subs == s.subs[i := s'.subs[i]] && (i in s.subs ==> s'.subs[i].uploads == s.subs[i].uploads)
  {
    hide KeyOf, EnqueuePhase;
  }

  lemma SubOwns(c: Config, s: State, i: Id, a: SubAction)
    requires SubEnabled(s, i, a)
    ensures var s' := SubStep(c, s, i, a);
            s'.h.owner == s.h.owner
            || (a.Push? && s'.h.owner == s.h.owner[a.task := i] && i in s'.subs && s'.subs[i].phase.Pushed?)
  {
    hide KeyOf, EnqueuePhase;
    if a.Push? {
      hide LookupStep, StoreStep, BindStep, ReserveStep, WinnerStep;
    } else {
      hide PushStep;
    }
  }

  lemma SubStepIsOne(c: Config, s: State, i: Id, a: SubAction)
    requires SubEnabled(s, i, a)
    ensures i in SubStep(c, s, i, a).subs && OneSub(s, SubStep(c, s, i, a), i)
  {
    SubLeavesOthers(c, s, i, a);
    SubOwns(c, s, i, a);
    hide SubStep;
  }

  lemma SubStepIsOk(c: Config, s: State, i: Id, a: SubAction)
    requires Inv(c, s) && SubEnabled(s, i, a) && i in SubStep(c, s, i, a).subs
    ensures SubOk(c, SubStep(c, s, i, a).subs[i])
  {
    hide KeyOf, WithinLimits, Admissible;
    assert i in s.subs ==> SubOk(c, s.subs[i]);
    if a.Lookup? {
      LimitsAreAdmissible(c, s.subs[i].uploads);
    }
  }

  ghost predicate Unmoved(s: State, s': State) {
    s'.subs == s.subs && s'.h.owner == s.h.owner
  }

  lemma WorkIsUnmoved(s: State, w: Id, a: WorkAction)
    requires WorkEnabled(s, w, a)
    ensures Unmoved(s, WorkStep(s, w, a))
  {
  }

  lemma ReadIsUnmoved(c: Config, s: State, r: Id, a: ReadAction)
    requires ReadEnabled(s, r, a)
    ensures Unmoved(s, ReadStep(c, s, r, a))
  {
  }

  lemma StepInv(c: Config, s: State, a: Action)
    requires Inv(c, s) && Enabled(s, a)
    ensures Inv(c, Step(c, s, a))
  {
    hide SubStep, SubEnabled, WorkStep, ReadStep, WorkEnabled, ReadEnabled, OneSub, SubOk, Admissible;
    match a
    case Sub(i, x) =>
      SubStepIsOne(c, s, i, x);
      SubStepIsOk(c, s, i, x);
      OneSubInv(c, s, SubStep(c, s, i, x), i);
    case Work(w, x) => WorkIsUnmoved(s, w, x);
    case Read(r, x) => ReadIsUnmoved(c, s, r, x);
    case Expire(e) =>
  }

  lemma {:induction false} RunInv(c: Config, actions: seq<Action>)
    requires Run(c, actions).Some?
    ensures Inv(c, Run(c, actions).value)
    decreases |actions|
  {
    if actions != [] {
      hide Inv, Step, Enabled;
      var n := |actions| - 1;
      RunInv(c, actions[..n]);
      StepInv(c, Run(c, actions[..n]).value, actions[n]);
    }
  }

  // ------------------------------------------------------------ main theorems

  /** In every reachable state the tasks that were ever enqueued are those of
      submissions within the caps, and only submissions over a cap were rejected. */
  lemma OnlyAdmissibleEnqueued(c: Config, actions: seq<Action>, task: Id, i: Id)
    requires Run(c, actions).Some?
    ensures var s := Run(c, actions).value;
            && (task in s.h.owner ==>
                 && s.h.owner[task] in s.subs
                 && var uploads := s.subs[s.h.owner[task]].uploads;
                    && (c.maxBlob > 0 ==> forall k :: 0 <= k < |uploads| ==> |uploads[k].data| <= c.maxBlob)
                    && (c.maxTotal > 0 ==> TotalSize(uploads) <= c.maxTotal))
            && (i in s.subs && s.subs[i].phase.Rejected? ==>
                 var uploads := s.subs[i].uploads;
                 || (c.maxBlob > 0 && exists k :: 0 <= k < |uploads| && |uploads[k].data| > c.maxBlob)
                 || (c.maxTotal > 0 && TotalSize(uploads) > c.maxTotal))
  {
    hide Run;
    RunInv(c, actions);
    assert i in Run(c, actions).value.subs ==> SubOk(c, Run(c, actions).value.subs[i]);
  }
}
