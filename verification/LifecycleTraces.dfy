/**
 What a run of the lifecycle does (`lifecycle/src/runner.rs`), told as the states it goes through: what
 each kind of step asks for and leaves behind, which hooks follow it, and what the answer says of the
 state where the run stopped.
 */
module LifecycleTraces {
  import opened Wrappers
  import opened Lifecycle

  // ---------------------------------------------------------------- hooks

  function HooksOf<M, C, W>(r: Runner<M, C, W>, stepLabel: string): seq<Hook<M, W>> {
    if stepLabel in r.hooks then r.hooks[stepLabel] else []
  }

  /** The hooks run one after another on the same message, each in the world the one before it left;
      `error` is that of the last that ran, and only a failure keeps later ones from running. */
  ghost predicate HooksRan<M, W>(hooks: seq<Hook<M, W>>, m: M, worlds: seq<W>, error: Option<DidError>) {
    && 1 <= |worlds| <= |hooks| + 1
    && (forall k :: 0 <= k < |worlds| - 1 ==> worlds[k + 1] == hooks[k](m, worlds[k]).0)
    && (forall k :: 0 <= k < |worlds| - 2 ==> hooks[k](m, worlds[k]).1 == None)
    && error == (if |worlds| == 1 then None else hooks[|worlds| - 2](m, worlds[|worlds| - 2]).1)
    && (error.None? ==> |worlds| == |hooks| + 1)
  }

  /** All the hooks of a label, from one world to another. */
  ghost predicate HooksLead<M, C, W(!new)>(r: Runner<M, C, W>, stepLabel: string, m: M, w: W, w': W,
                                     error: Option<DidError>)
  {
    exists worlds :: HooksRan(HooksOf(r, stepLabel), m, worlds, error) && worlds[0] == w && worlds[|worlds| - 1] == w'
  }

  lemma {:induction false} HookListRuns<M, W>(hooks: seq<Hook<M, W>>, m: M, w: W) returns (worlds: seq<W>)
    ensures HooksRan(hooks, m, worlds, RunHookList(hooks, m, w).1)
    ensures worlds[0] == w && worlds[|worlds| - 1] == RunHookList(hooks, m, w).0
    decreases |hooks|
  {
    worlds := [w];
    if hooks != [] {
      var (w', error) := hooks[0](m, w);
      if error.Some? {
        worlds := [w, w'];
      } else {
        var rest := HookListRuns(hooks[1..], m, w');
        worlds := [w] + rest;
        forall k | 0 <= k < |worlds| - 1 ensures worlds[k + 1] == hooks[k](m, worlds[k]).0 {
          if k > 0 { assert hooks[k] == hooks[1..][k - 1]; }
        }
        forall k | 0 <= k < |worlds| - 2 ensures hooks[k](m, worlds[k]).1 == None {
          if k > 0 { assert hooks[k] == hooks[1..][k - 1]; }
        }
      }
    }
  }

  lemma HooksOfLabelRun<M, C, W(!new)>(r: Runner<M, C, W>, stepLabel: string, m: M, w: W)
    ensures HooksLead(r, stepLabel, m, w, RunHooks(r, stepLabel, m, w).0, RunHooks(r, stepLabel, m, w).1)
  {
    var worlds := HookListRuns(HooksOf(r, stepLabel), m, w);
  }

  // ---------------------------------------------------------------- one step

  /** The step is carried out, its hooks still to come. A callback may change message, context and
      world; signing puts the signer's signature of the message's bytes into the message; attaching
      puts the pending signature there and uses it up. */
  ghost predicate CarriedOut<M, C, W>(t: MessageTrait<M>, step: Step<M, C, W>, signer: Option<Signer>,
                                      s: Machine<M, C, W>, s': Machine<M, C, W>)
  {
    match step.kind
    case Callback =>
      && step.callback.Some? && s'.signature == s.signature
      && step.callback.value(s.message, s.context, s.world) == Outcome(s'.message, s'.context, s'.world, None)
    case SignWithSigner =>
      && s' == Machine(s'.message, s.context, s.signature, s.world)
      && exists bytes, signature ::
           && t.messageBytes(s.message) == Ok(bytes)
           && signer.Some? && signer.value(bytes) == Ok(signature) && |signature| == 64
           && t.setSignature(s.message, signature) == (s'.message, None)
    case AttachSignature =>
      && s' == Machine(s'.message, s.context, None, s.world)
      && s.signature.Some? && t.setSignature(s.message, s.signature.value) == (s'.message, None)
    case Pause => false
  }

  /** The step itself fails with an error: something it needs is missing or refuses. */
  ghost predicate Refused<M, C, W>(t: MessageTrait<M>, step: Step<M, C, W>, signer: Option<Signer>,
                                   s: Machine<M, C, W>, s': Machine<M, C, W>, e: DidError)
  {
    match step.kind
    case Callback =>
      if step.callback.None? then e == InternalError && s' == s
      else
        && s'.signature == s.signature
        && step.callback.value(s.message, s.context, s.world) == Outcome(s'.message, s'.context, s'.world, Some(e))
    case SignWithSigner =>
      || (s' == s && signer.None? && e == InvalidArgument)
      || (s' == s && signer.Some? && t.messageBytes(s.message) == Err(e))
      || (exists bytes :: t.messageBytes(s.message) == Ok(bytes) && signer.Some? &&
            (|| (s' == s && signer.value(bytes) == Err(e))
             || (s' == s && signer.value(bytes).Ok? && |signer.value(bytes).value| != 64 && e == InvalidArgument)
             || (&& s' == Machine(s'.message, s.context, s.signature, s.world)
                 && signer.value(bytes).Ok? && |signer.value(bytes).value| == 64
                 && t.setSignature(s.message, signer.value(bytes).value) == (s'.message, Some(e)))))
    case AttachSignature =>
      if s.signature.None? then e == InvalidArgument && s' == s
      else
        && s' == Machine(s'.message, s.context, None, s.world)
        && t.setSignature(s.message, s.signature.value) == (s'.message, Some(e))
    case Pause => false
  }

  /** The step and all its hooks are done. */
  ghost predicate Completes<M(!new), C(!new), W(!new)>(r: Runner<M, C, W>, step: Step<M, C, W>, signer: Option<Signer>,
                                                       s: Machine<M, C, W>, s': Machine<M, C, W>)
  {
    exists done: Machine<M, C, W> ::
      && CarriedOut(r.traitOf, step, signer, s, done) && s' == done.(world := s'.world)
      && HooksLead(r, step.stepLabel, done.message, done.world, s'.world, None)
  }

  /** The step fails, by itself or in one of its hooks. */
  ghost predicate Fails<M(!new), C(!new), W(!new)>(r: Runner<M, C, W>, step: Step<M, C, W>, signer: Option<Signer>,
                                                   s: Machine<M, C, W>, s': Machine<M, C, W>, e: DidError)
  {
    || Refused(r.traitOf, step, signer, s, s', e)
    || (exists done: Machine<M, C, W> ::
          && CarriedOut(r.traitOf, step, signer, s, done) && s' == done.(world := s'.world)
          && HooksLead(r, step.stepLabel, done.message, done.world, s'.world, Some(e)))
  }

  lemma StepIsCarriedOut<M(!new), C(!new), W(!new)>(r: Runner<M, C, W>, step: Step<M, C, W>, signer: Option<Signer>,
                                                    s: Machine<M, C, W>)
    requires step.kind != Pause
    ensures var (s', error) := RunStep(r, step, signer, s);
      if error.None? then Completes(r, step, signer, s, s') else Fails(r, step, signer, s, s', error.value)
  {
    var (s', error) := RunStep(r, step, signer, s);
    match step.kind {
      case Callback =>
        if step.callback.Some? {
          var o := step.callback.value(s.message, s.context, s.world);
          HooksFollow(r, step, signer, s, s.(message := o.message, context := o.context, world := o.world), o.error);
        }
      case SignWithSigner =>
        if signer.Some? && r.traitOf.messageBytes(s.message).Ok? {
          var signed := signer.value(r.traitOf.messageBytes(s.message).value);
          if signed.Ok? && |signed.value| == 64 {
            var (m, failed) := r.traitOf.setSignature(s.message, signed.value);
            HooksFollow(r, step, signer, s, s.(message := m), failed);
          }
        }
      case AttachSignature =>
        if s.signature.Some? {
          var (m, failed) := r.traitOf.setSignature(s.message, s.signature.value);
          HooksFollow(r, step, signer, s, s.(message := m, signature := None), failed);
        }
      case Pause =>
    }
  }

  lemma HooksFollow<M(!new), C(!new), W(!new)>(r: Runner<M, C, W>, step: Step<M, C, W>, signer: Option<Signer>,
                                               s: Machine<M, C, W>, done: Machine<M, C, W>, error: Option<DidError>)
    requires if error.None? then CarriedOut(r.traitOf, step, signer, s, done)
             else Refused(r.traitOf, step, signer, s, done, error.value)
    ensures var (s', failed) := FinishStep(r, step.stepLabel, done, error);
      if failed.None? then Completes(r, step, signer, s, s') else Fails(r, step, signer, s, s', failed.value)
  {
    HooksOfLabelRun(r, step.stepLabel, done.message, done.world);
  }

  // ---------------------------------------------------------------- a stretch of steps

  /** The states between completed steps, from step `i` on. */
  ghost predicate Trace<M(!new), C(!new), W(!new)>(r: Runner<M, C, W>, i: nat, signer: Option<Signer>,
                                                   states: seq<Machine<M, C, W>>)
  {
    && states != [] && i + |states| - 1 <= |r.builder.steps|
    && forall k :: 0 <= k < |states| - 1 ==> Completes(r, r.builder.steps[i + k], signer, states[k], states[k + 1])
  }

  /** Where a trace stops: after the last step, at a pause, or at a step that fails. */
  ghost predicate StopsAs<M(!new), C(!new), W(!new)>(r: Runner<M, C, W>, i: nat, signer: Option<Signer>,
                                                     states: seq<Machine<M, C, W>>, s: Machine<M, C, W>, stop: Stop)
    requires Trace(r, i, signer, states)
  {
    var j, last := i + |states| - 1, states[|states| - 1];
    match stop
    case Ended => j == |r.builder.steps| && s == last
    case StoppedAt(at) => j == at < |r.builder.steps| && r.builder.steps[j].kind == Pause && s == last
    case Failed(e) => j < |r.builder.steps| && Fails(r, r.builder.steps[j], signer, last, s, e)
  }

  lemma TraceCons<M(!new), C(!new), W(!new)>(r: Runner<M, C, W>, i: nat, signer: Option<Signer>, s: Machine<M, C, W>,
                                             rest: seq<Machine<M, C, W>>)
    requires i < |r.builder.steps| && Trace(r, i + 1, signer, rest)
    requires Completes(r, r.builder.steps[i], signer, s, rest[0])
    ensures Trace(r, i, signer, [s] + rest)
  {
    var states := [s] + rest;
    forall k | 0 <= k < |states| - 1
      ensures Completes(r, r.builder.steps[i + k], signer, states[k], states[k + 1])
    {
      if k > 0 { assert Completes(r, r.builder.steps[i + 1 + (k - 1)], signer, rest[k - 1], rest[k]); }
    }
  }

  lemma {:induction false} StretchHasTrace<M(!new), C(!new), W(!new)>(
    r: Runner<M, C, W>, i: nat, signer: Option<Signer>, s: Machine<M, C, W>)
    returns (states: seq<Machine<M, C, W>>)
    requires i <= |r.builder.steps|
    ensures Trace(r, i, signer, states) && states[0] == s
    ensures StopsAs(r, i, signer, states, ExecuteSteps(r, i, signer, s).0, ExecuteSteps(r, i, signer, s).1)
    decreases |r.builder.steps| - i
  {
    states := [s];
    if i < |r.builder.steps| && r.builder.steps[i].kind != Pause {
      var (s', error) := RunStep(r, r.builder.steps[i], signer, s);
      StepIsCarriedOut(r, r.builder.steps[i], signer, s);
      if error.None? {
        var rest := StretchHasTrace(r, i + 1, signer, s');
        TraceCons(r, i, signer, s, rest);
        states := [s] + rest;
      }
    }
  }

  // ---------------------------------------------------------------- the answer

  /** What the caller learns of a trace: success with the last message and context; the index and the
      label of the pause; or the error, unless a catch step takes it and does not fail itself. */
  ghost predicate Explains<M(!new), C(!new), W(!new)>(r: Runner<M, C, W>, i: nat, signer: Option<Signer>,
                                    states: seq<Machine<M, C, W>>, answer: Answer<M, C, W>)
    requires Trace(r, i, signer, states)
  {
    var j, s := i + |states| - 1, states[|states| - 1];
    if j == |r.builder.steps| then answer == (Ok(RunnerState(s.message, s.context, Success, -1, "", None)), s.world)
    else if r.builder.steps[j].kind == Pause then
      answer == (Ok(RunnerState(s.message, s.context, Paused, j, r.builder.steps[j].stepLabel, None)), s.world)
    else
      exists left: Machine<M, C, W>, e: DidError ::
        Fails(r, r.builder.steps[j], signer, s, left, e) && AnswersFailure(r, left, e, answer)
  }

  ghost predicate AnswersFailure<M, C, W>(r: Runner<M, C, W>, left: Machine<M, C, W>, e: DidError,
                                          answer: Answer<M, C, W>)
  {
    match r.builder.catchStep
    case None => answer == (Err(e), left.world)
    case Some((_, handler)) =>
      match handler(e, left.world)
      case (w, Some(failed)) => answer == (Err(failed), w)
      case (w, None) => answer == (Ok(RunnerState(left.message, left.context, Error, -1, "", Some(e))), w)
  }

  lemma StretchIsExplained<M(!new), C(!new), W(!new)>(r: Runner<M, C, W>, i: nat, signer: Option<Signer>,
                                                      s: Machine<M, C, W>)
    returns (states: seq<Machine<M, C, W>>)
    requires i <= |r.builder.steps|
    ensures Trace(r, i, signer, states) && states[0] == s
    ensures var (s', stop) := ExecuteSteps(r, i, signer, s);
      Explains(r, i, signer, states, Conclude(r, s', stop))
  {
    states := StretchHasTrace(r, i, signer, s);
    var (s', stop) := ExecuteSteps(r, i, signer, s);
    if stop.Failed? { assert AnswersFailure(r, s', stop.error, Conclude(r, s', stop)); }
  }

  /** `process`: there is a trace from the given message, context and signature that explains the answer. */
  lemma ProcessIsExplained<M(!new), C(!new), W(!new)>(r: Runner<M, C, W>, m: M, c: C, g: Segment, w: W)
    returns (states: seq<Machine<M, C, W>>)
    ensures Trace(r, 0, g.signer, states) && states[0] == Machine(m, c, g.signature, w)
    ensures Explains(r, 0, g.signer, states, Process(r, m, c, g, w))
  {
    states := StretchIsExplained(r, 0, g.signer, Machine(m, c, g.signature, w));
  }

  /** Going on after a label: its hooks come first, and then a trace from the step after it. */
  ghost predicate GoesOn<M(!new), C(!new), W(!new)>(r: Runner<M, C, W>, at: nat, m: M, c: C, g: Segment, w: W, w': W,
                                                    states: seq<Machine<M, C, W>>, answer: Answer<M, C, W>)
    requires at < |r.builder.steps|
  {
    var stepLabel := r.builder.steps[at].stepLabel;
    || (answer.0.Err? && HooksLead(r, stepLabel, m, w, answer.1, Some(answer.0.error)))
    || (&& HooksLead(r, stepLabel, m, w, w', None)
        && Trace(r, at + 1, g.signer, states) && states[0] == Machine(m, c, g.signature, w')
        && Explains(r, at + 1, g.signer, states, answer))
  }

  lemma GoingOnIsExplained<M(!new), C(!new), W(!new)>(r: Runner<M, C, W>, at: nat, m: M, c: C, g: Segment, w: W)
    returns (w': W, states: seq<Machine<M, C, W>>)
    requires at < |r.builder.steps| && r.builder.IndexByLabel(r.builder.steps[at].stepLabel) == Some(at)
    ensures GoesOn(r, at, m, c, g, w, w', states, ProcessFrom(r, m, c, g, Some(r.builder.steps[at].stepLabel), w))
  {
    var stepLabel := r.builder.steps[at].stepLabel;
    HooksOfLabelRun(r, stepLabel, m, w);
    w', states := RunHooks(r, stepLabel, m, w).0, [];
    if RunHooks(r, stepLabel, m, w).1.None? {
      states := StretchIsExplained(r, at + 1, g.signer, Machine(m, c, g.signature, w'));
    }
  }

  /** `resume`: only a paused state with a known label goes on, after the first step with that label and with
      the new context, signer and signature. */
  lemma ResumeIsExplained<M(!new), C(!new), W(!new)>(r: Runner<M, C, W>, st: RunnerState<M, C>, c: C, g: Segment, w: W)
    returns (at: nat, w': W, states: seq<Machine<M, C, W>>)
    ensures st.status != Paused || !HasLabel(r.builder, st.stepLabel) ==>
      Resume(r, st, c, g, w) == (Err(InvalidArgument), w)
    ensures st.status == Paused && HasLabel(r.builder, st.stepLabel) ==>
      && at < |r.builder.steps| && r.builder.steps[at].stepLabel == st.stepLabel
      && (forall k :: 0 <= k < at ==> r.builder.steps[k].stepLabel != st.stepLabel)
      && GoesOn(r, at, st.message, c, g, w, w', states, Resume(r, st, c, g, w))
  {
    at, w', states := 0, w, [];
    if st.status == Paused && r.builder.IndexByLabel(st.stepLabel).Some? {
      at := r.builder.IndexByLabel(st.stepLabel).value;
      w', states := GoingOnIsExplained(r, at, st.message, c, g, w);
    }
  }
}
