/**
 The meaning of the `lifecycle` crate: a labelled step list, and what running it from some
 step on does to the message, the context and the outside world.

 `M` is the message, `C` the caller's context, `W` whatever callbacks and hooks can affect
 besides them. Callbacks, hooks and signers are deterministic functions.
 */
module Lifecycle {
  import opened Wrappers
  import opened Codec

  /** What a fallible call leaves behind in the values it may have changed. */
  datatype Outcome<M, C, W> = Outcome(message: M, context: C, world: W, error: Option<DidError>)

  type StepCallback<!M, !C, !W> = (M, C, W) -> Outcome<M, C, W>
  type Hook<!M, !W> = (M, W) -> (W, Option<DidError>)
  type CatchStep<!W> = (DidError, W) -> (W, Option<DidError>)
  type Signer = Bytes -> Result<Bytes, DidError>

  /** The `LifecycleMessage` trait. */
  datatype MessageTrait<!M> = MessageTrait(
    messageBytes: M -> Result<Bytes, DidError>,
    setSignature: (M, Bytes) -> (M, Option<DidError>))

  datatype StepKind = Callback | SignWithSigner | AttachSignature | Pause

  datatype Step<!M, !C, !W> = Step(stepLabel: string, kind: StepKind, callback: Option<StepCallback<M, C, W>>)

  // ---------------------------------------------------------------- builder.rs

  datatype Builder<!M, !C, !W> = Builder(steps: seq<Step<M, C, W>>, catchStep: Option<(string, CatchStep<W>)>) {

    /** `get_index_by_label`: position of the first step with the label. */
    function IndexByLabel(stepLabel: string): (i: Option<nat>)
      ensures i.Some? ==> i.value < |steps| && steps[i.value].stepLabel == stepLabel
                          && forall k :: 0 <= k < i.value ==> steps[k].stepLabel != stepLabel
      ensures i.None? ==> forall k :: 0 <= k < |steps| ==> steps[k].stepLabel != stepLabel
    {
      IndexFrom(stepLabel, 0)
    }

    function IndexFrom(stepLabel: string, from: nat): (i: Option<nat>)
      requires from <= |steps| && forall k :: 0 <= k < from ==> steps[k].stepLabel != stepLabel
      ensures i.Some? ==> i.value < |steps| && steps[i.value].stepLabel == stepLabel
                          && forall k :: 0 <= k < i.value ==> steps[k].stepLabel != stepLabel
      ensures i.None? ==> forall k :: 0 <= k < |steps| ==> steps[k].stepLabel != stepLabel
      decreases |steps| - from
    {
      if from == |steps| then None
      else if steps[from].stepLabel == stepLabel then Some(from)
      else IndexFrom(stepLabel, from + 1)
    }

    /** The four step-adding methods: they refuse a label that is already there. */
    function Add(step: Step<M, C, W>): Result<Builder<M, C, W>, DidError> {
      if IndexByLabel(step.stepLabel).Some? then Err(InvalidArgument) else Ok(this.(steps := steps + [step]))
    }

    function AddCallback(stepLabel: string, callback: StepCallback<M, C, W>): Result<Builder<M, C, W>, DidError> {
      Add(Step(stepLabel, Callback, Some(callback)))
    }

    function AddSignWithSigner(stepLabel: string): Result<Builder<M, C, W>, DidError> {
      Add(Step(stepLabel, SignWithSigner, None))
    }

    function AddAttachSignature(stepLabel: string): Result<Builder<M, C, W>, DidError> {
      Add(Step(stepLabel, AttachSignature, None))
    }

    function AddPause(stepLabel: string): Result<Builder<M, C, W>, DidError> {
      Add(Step(stepLabel, Pause, None))
    }

    function Catch(stepLabel: string, handler: CatchStep<W>): Builder<M, C, W> {
      this.(catchStep := Some((stepLabel, handler)))
    }

    /** No two steps share a label, and callback steps have a callback. */
    ghost predicate Valid() {
      && (forall i, j :: 0 <= i < j < |steps| ==> steps[i].stepLabel != steps[j].stepLabel)
      && (forall i :: 0 <= i < |steps| && steps[i].kind == Callback ==> steps[i].callback.Some?)
    }
  }

  function EmptyBuilder<M, C, W>(): Builder<M, C, W> {
    Builder([], None)
  }

  /** A step list that the building methods can produce. */
  ghost predicate Buildable<M, C, W>(steps: seq<Step<M, C, W>>)
    decreases |steps|
  {
    steps == [] ||
    (var n := |steps| - 1;
     && Buildable(steps[..n])
     && (steps[n].kind == Callback <==> steps[n].callback.Some?)
     && EmptyBuilder<M, C, W>().(steps := steps[..n]).Add(steps[n]) == Ok(EmptyBuilder<M, C, W>().(steps := steps)))
  }

  /** Everything the building methods produce is valid. */
  lemma {:induction false} BuildableIsValid<M, C, W>(b: Builder<M, C, W>)
    requires Buildable(b.steps)
    ensures b.Valid()
    decreases |b.steps|
  {
    if b.steps != [] {
      var n := |b.steps| - 1;
      var shorter := EmptyBuilder<M, C, W>().(steps := b.steps[..n]);
      BuildableIsValid(shorter);
      AddKeepsValid(shorter, b.steps[n]);
      assert b.steps == shorter.steps + [b.steps[n]];
    }
  }

  lemma AddKeepsValid<M, C, W>(b: Builder<M, C, W>, step: Step<M, C, W>)
    requires b.Valid() && b.Add(step).Ok? && (step.kind == Callback ==> step.callback.Some?)
    ensures b.Add(step).value.Valid()
  {
    assert b.IndexByLabel(step.stepLabel).None?;
  }

  predicate HasLabel<M, C, W>(b: Builder<M, C, W>, stepLabel: string) {
    exists k :: 0 <= k < |b.steps| && b.steps[k].stepLabel == stepLabel
  }

  /** What the building methods add: one step of their kind at the end, unless its label is taken; the catch
      step is the last one set, and nothing else changes. */
  lemma BuildersAdd<M, C, W>(b: Builder<M, C, W>, stepLabel: string, callback: StepCallback<M, C, W>,
                             handler: CatchStep<W>)
    ensures HasLabel(b, stepLabel) ==>
      && b.AddCallback(stepLabel, callback) == Err(InvalidArgument)
      && b.AddSignWithSigner(stepLabel) == Err(InvalidArgument)
      && b.AddAttachSignature(stepLabel) == Err(InvalidArgument) && b.AddPause(stepLabel) == Err(InvalidArgument)
    ensures !HasLabel(b, stepLabel) ==>
      && b.AddCallback(stepLabel, callback)
           == Ok(Builder(b.steps + [Step(stepLabel, Callback, Some(callback))], b.catchStep))
      && b.AddSignWithSigner(stepLabel) == Ok(Builder(b.steps + [Step(stepLabel, SignWithSigner, None)], b.catchStep))
      && b.AddAttachSignature(stepLabel)
           == Ok(Builder(b.steps + [Step(stepLabel, AttachSignature, None)], b.catchStep))
      && b.AddPause(stepLabel) == Ok(Builder(b.steps + [Step(stepLabel, Pause, None)], b.catchStep))
    ensures b.Catch(stepLabel, handler) == Builder(b.steps, Some((stepLabel, handler)))
  {
  }

  /** On a valid builder a label leads back to the step that carries it. */
  lemma LabelFindsStep<M, C, W>(b: Builder<M, C, W>, i: nat)
    requires b.Valid() && i < |b.steps|
    ensures b.IndexByLabel(b.steps[i].stepLabel) == Some(i)
  {
  }

  // ---------------------------------------------------------------- runner.rs

  datatype RunnerStatus = Success | Error | Paused

  datatype RunnerState<M, C> = RunnerState(
    message: M, context: C, status: RunnerStatus, index: int, stepLabel: string, error: Option<DidError>)

  /** The runner: a builder, the hooks registered per label, and the message's trait. */
  datatype Runner<!M, !C, !W> = Runner(builder: Builder<M, C, W>, hooks: map<string, seq<Hook<M, W>>>,
    traitOf: MessageTrait<M>)

  /** Hooks run in registration order; the first failure stops them. */
  function RunHookList<M, W>(hooks: seq<Hook<M, W>>, m: M, w: W): (W, Option<DidError>) {
    if hooks == [] then (w, None)
    else
      var (w', error) := hooks[0](m, w);
      if error.Some? then (w', error) else RunHookList(hooks[1..], m, w')
  }

  function RunHooks<M, C, W>(r: Runner<M, C, W>, stepLabel: string, m: M, w: W): (W, Option<DidError>) {
    if stepLabel in r.hooks then RunHookList(r.hooks[stepLabel], m, w) else (w, None)
  }

  /** Message, context, pending signature and world between two steps. */
  datatype Machine<M, C, W> = Machine(message: M, context: C, signature: Option<Bytes>, world: W)

  /** A completed step is followed by its hooks. */
  function FinishStep<M, C, W>(r: Runner<M, C, W>, stepLabel: string, s: Machine<M, C, W>, error: Option<DidError>)
    : (Machine<M, C, W>, Option<DidError>)
  {
    if error.Some? then (s, error)
    else
      var (w', failed) := RunHooks(r, stepLabel, s.message, s.world);
      (s.(world := w'), failed)
  }

  /** One step that is not a pause. */
  function RunStep<M, C, W>(r: Runner<M, C, W>, step: Step<M, C, W>, signer: Option<Signer>, s: Machine<M, C, W>)
    : (Machine<M, C, W>, Option<DidError>)
  {
    match step.kind
    case Callback =>
      if step.callback.None? then (s, Some(InternalError))
      else
        var o := step.callback.value(s.message, s.context, s.world);
        FinishStep(r, step.stepLabel, s.(message := o.message, context := o.context, world := o.world), o.error)
    case SignWithSigner =>
      if signer.None? then (s, Some(InvalidArgument))
      else
        (match r.traitOf.messageBytes(s.message)
         case Err(e) => (s, Some(e))
         case Ok(bytes) =>
           match signer.value(bytes)
           case Err(e) => (s, Some(e))
           case Ok(signature) =>
             if |signature| != 64 then (s, Some(InvalidArgument))
             else
               var (m', error) := r.traitOf.setSignature(s.message, signature);
               FinishStep(r, step.stepLabel, s.(message := m'), error))
    case AttachSignature =>
      if s.signature.None? then (s, Some(InvalidArgument))
      else
        var (m', error) := r.traitOf.setSignature(s.message, s.signature.value);
        FinishStep(r, step.stepLabel, s.(message := m', signature := None), error)
    case Pause => (s, None)
  }

  /** How a stretch of steps ends. */
  datatype Stop = Ended | StoppedAt(index: nat) | Failed(error: DidError)

  /** `execute_steps` from step `i` on. */
  function ExecuteSteps<M, C, W>(r: Runner<M, C, W>, i: nat, signer: Option<Signer>, s: Machine<M, C, W>)
    : (res: (Machine<M, C, W>, Stop))
    requires i <= |r.builder.steps|
    ensures res.1.StoppedAt? ==> i <= res.1.index < |r.builder.steps| && r.builder.steps[res.1.index].kind == Pause
    decreases |r.builder.steps| - i
  {
    if i == |r.builder.steps| then (s, Ended)
    else if r.builder.steps[i].kind == Pause then (s, StoppedAt(i))
    else
      var (s', error) := RunStep(r, r.builder.steps[i], signer, s);
      if error.Some? then (s', Failed(error.value)) else ExecuteSteps(r, i + 1, signer, s')
  }

  /** What the caller supplies for one call: `LifecycleRunnerOptions` without the context. */
  datatype Segment = Segment(signer: Option<Signer>, signature: Option<Bytes>)

  /** The result of `process` or `resume`, and the world after it. */
  type Answer<M, C, W> = (Result<RunnerState<M, C>, DidError>, W)

  /** Turns the end of a stretch of steps into the answer; the catch step sees step failures. */
  function Conclude<M, C, W>(r: Runner<M, C, W>, s: Machine<M, C, W>, stop: Stop): Answer<M, C, W>
    requires stop.StoppedAt? ==> stop.index < |r.builder.steps|
  {
    match stop
    case Ended => (Ok(RunnerState(s.message, s.context, Success, -1, "", None)), s.world)
    case StoppedAt(i) => (Ok(RunnerState(s.message, s.context, Paused, i, r.builder.steps[i].stepLabel, None)), s.world)
    case Failed(e) =>
      if r.builder.catchStep.None? then (Err(e), s.world)
      else
        var (w', failed) := r.builder.catchStep.value.1(e, s.world);
        if failed.Some? then (Err(failed.value), w')
        else (Ok(RunnerState(s.message, s.context, Error, -1, "", Some(e))), w')
  }

  /** `process_from`. */
  function ProcessFrom<M, C, W>(r: Runner<M, C, W>, m: M, c: C, g: Segment, after: Option<string>, w: W)
    : Answer<M, C, W>
  {
    if after.None? then
      var (s, stop) := ExecuteSteps(r, 0, g.signer, Machine(m, c, g.signature, w));
      Conclude(r, s, stop)
    else
      match r.builder.IndexByLabel(after.value)
      case None => (Err(InvalidArgument), w)
      case Some(at) =>
        var (w', failed) := RunHooks(r, after.value, m, w);
        if failed.Some? then (Err(failed.value), w')
        else
          var (s, stop) := ExecuteSteps(r, at + 1, g.signer, Machine(m, c, g.signature, w'));
          Conclude(r, s, stop)
  }

  function Process<M, C, W>(r: Runner<M, C, W>, m: M, c: C, g: Segment, w: W): Answer<M, C, W> {
    ProcessFrom(r, m, c, g, None, w)
  }

  function Resume<M, C, W>(r: Runner<M, C, W>, st: RunnerState<M, C>, c: C, g: Segment, w: W): Answer<M, C, W> {
    if st.status != Paused then (Err(InvalidArgument), w) else ProcessFrom(r, st.message, c, g, Some(st.stepLabel), w)
  }

  // ---------------------------------------------------------------- pausing does not change meaning

  /** A whole run: `process`, then `resume` for as long as the answer is a pause, each time with
      the context of the paused state and the next segment's signer and signature. */
  function Drive<M, C, W>(r: Runner<M, C, W>, answer: Answer<M, C, W>, segments: nat -> Segment, used: nat)
    : (Answer<M, C, W>, nat)
    requires r.builder.Valid()
    requires IsAnswer(r, answer)
    decreases |r.builder.steps| - Progress(r, answer)
  {
    if answer.0.Ok? && answer.0.value.status == Paused then
      ResumeAdvances(r, answer, segments(used));
      Drive(r, Resume(r, answer.0.value, answer.0.value.context, segments(used), answer.1), segments, used + 1)
    else (answer, used)
  }

  /** A paused state carries the index and the label of a pause step. */
  ghost predicate IsAnswer<M, C, W>(r: Runner<M, C, W>, answer: Answer<M, C, W>) {
    answer.0.Ok? && answer.0.value.status == Paused ==>
      && 0 <= answer.0.value.index < |r.builder.steps|
      && r.builder.steps[answer.0.value.index].kind == Pause
      && r.builder.steps[answer.0.value.index].stepLabel == answer.0.value.stepLabel
  }

  /** The first step not yet passed; the whole list once the run is over. */
  ghost function Progress<M, C, W>(r: Runner<M, C, W>, answer: Answer<M, C, W>): (n: nat)
    requires IsAnswer(r, answer)
    ensures n <= |r.builder.steps|
  {
    if answer.0.Ok? && answer.0.value.status == Paused then answer.0.value.index else |r.builder.steps|
  }

  lemma ProcessAnswers<M, C, W>(r: Runner<M, C, W>, m: M, c: C, g: Segment, after: Option<string>, w: W)
    ensures IsAnswer(r, ProcessFrom(r, m, c, g, after, w))
  {
  }

  /** The stored label leads back to the stored pause, so resuming moves strictly forward. */
  lemma ResumeAdvances<M, C, W>(r: Runner<M, C, W>, answer: Answer<M, C, W>, g: Segment)
    requires r.builder.Valid() && IsAnswer(r, answer)
    requires answer.0.Ok? && answer.0.value.status == Paused
    ensures r.builder.IndexByLabel(answer.0.value.stepLabel) == Some(answer.0.value.index)
    ensures var next := Resume(r, answer.0.value, answer.0.value.context, g, answer.1);
      IsAnswer(r, next) && Progress(r, next) > Progress(r, answer)
  {
    LabelFindsStep(r.builder, answer.0.value.index);
    ProcessAnswers(r, answer.0.value.message, answer.0.value.context, g, Some(answer.0.value.stepLabel), answer.1);
  }

  /** How an uninterrupted run ends; a failing hook of a pause label is told apart. */
  datatype Finish = Completed | StepFailed(error: DidError) | PauseHookFailed(error: DidError)

  /** The steps as one pure fold, without any answer in between: a pause only runs its hooks
      and puts the next segment's signer and signature in place. */
  function RunThrough<M, C, W>(r: Runner<M, C, W>, i: nat, segments: nat -> Segment, used: nat,
                               signer: Option<Signer>, s: Machine<M, C, W>)
    : (Machine<M, C, W>, Finish, nat)
    requires i <= |r.builder.steps|
    decreases |r.builder.steps| - i
  {
    if i == |r.builder.steps| then (s, Completed, used)
    else if r.builder.steps[i].kind == Pause then
      var (w', failed) := RunHooks(r, r.builder.steps[i].stepLabel, s.message, s.world);
      if failed.Some? then (s.(world := w'), PauseHookFailed(failed.value), used + 1)
      else RunThrough(r, i + 1, segments, used + 1, segments(used).signer,
                      s.(world := w', signature := segments(used).signature))
    else
      var (s', error) := RunStep(r, r.builder.steps[i], signer, s);
      if error.Some? then (s', StepFailed(error.value), used)
      else RunThrough(r, i + 1, segments, used, signer, s')
  }

  /** The answer that corresponds to the end of an uninterrupted run. */
  function Report<M, C, W>(r: Runner<M, C, W>, s: Machine<M, C, W>, finish: Finish): Answer<M, C, W> {
    match finish
    case Completed => Conclude(r, s, Ended)
    case StepFailed(e) => Conclude(r, s, Failed(e))
    case PauseHookFailed(e) => (Err(e), s.world)
  }

  /** Running from a step up to the next pause and driving on from there is the uninterrupted run. */
  lemma {:induction false} DriveIsRunThrough<M, C, W>(
    r: Runner<M, C, W>, i: nat, segments: nat -> Segment, used: nat, signer: Option<Signer>, s: Machine<M, C, W>)
    requires r.builder.Valid() && i <= |r.builder.steps|
    ensures var (s1, stop) := ExecuteSteps(r, i, signer, s);
      && IsAnswer(r, Conclude(r, s1, stop))
      && var (s2, finish, n) := RunThrough(r, i, segments, used, signer, s);
      Drive(r, Conclude(r, s1, stop), segments, used) == (Report(r, s2, finish), n)
    decreases |r.builder.steps| - i
  {
    if i < |r.builder.steps| {
      if r.builder.steps[i].kind == Pause {
        var answer := Conclude(r, s, StoppedAt(i));
        ResumeAdvances(r, answer, segments(used));
        var (w', failed) := RunHooks(r, r.builder.steps[i].stepLabel, s.message, s.world);
        if failed.None? {
          DriveIsRunThrough(r, i + 1, segments, used + 1, segments(used).signer,
            s.(world := w', signature := segments(used).signature));
        }
      } else {
        var (s', error) := RunStep(r, r.builder.steps[i], signer, s);
        if error.None? { DriveIsRunThrough(r, i + 1, segments, used, signer, s'); }
      }
    }
  }

  /** Pausing and resuming does not change what a run does: the answer, the message, the
      context and the world are those of the uninterrupted fold, failures included. */
  lemma PausesDoNotMatter<M, C, W>(r: Runner<M, C, W>, m: M, c: C, segments: nat -> Segment, w: W)
    requires r.builder.Valid()
    ensures IsAnswer(r, Process(r, m, c, segments(0), w))
    ensures var (s, finish, n) :=
        RunThrough(r, 0, segments, 1, segments(0).signer, Machine(m, c, segments(0).signature, w));
      Drive(r, Process(r, m, c, segments(0), w), segments, 1) == (Report(r, s, finish), n)
  {
    DriveIsRunThrough(r, 0, segments, 1, segments(0).signer, Machine(m, c, segments(0).signature, w));
  }

  function PauseCount<M, C, W>(steps: seq<Step<M, C, W>>): nat {
    if steps == [] then 0 else (if steps[0].kind == Pause then 1 else 0) + PauseCount(steps[1..])
  }

  /** A run uses at most one segment more than the builder has pauses, and exactly that many when it completes. */
  lemma {:induction false} SegmentsUsed<M, C, W>(
    r: Runner<M, C, W>, i: nat, segments: nat -> Segment, used: nat, signer: Option<Signer>, s: Machine<M, C, W>)
    requires i <= |r.builder.steps|
    ensures var (_, finish, n) := RunThrough(r, i, segments, used, signer, s);
      && n <= used + PauseCount(r.builder.steps[i..])
      && (finish == Completed ==> n == used + PauseCount(r.builder.steps[i..]))
    decreases |r.builder.steps| - i
  {
    if i < |r.builder.steps| {
      assert r.builder.steps[i..][1..] == r.builder.steps[i + 1..];
      if r.builder.steps[i].kind == Pause {
        var (w', failed) := RunHooks(r, r.builder.steps[i].stepLabel, s.message, s.world);
        SegmentsUsed(r, i + 1, segments, used + 1, segments(used).signer,
          s.(world := w', signature := segments(used).signature));
      } else {
        var (s', error) := RunStep(r, r.builder.steps[i], signer, s);
        SegmentsUsed(r, i + 1, segments, used, signer, s');
      }
    }
  }

  /** Without a pending signature no stretch of steps gets past an attach step, so each
      segment's signature serves one attach step only. */
  lemma {:induction false} AttachNeedsSignature<M, C, W>(r: Runner<M, C, W>, i: nat, j: nat, signer: Option<Signer>,
                                                         s: Machine<M, C, W>)
    requires i <= j < |r.builder.steps| && r.builder.steps[j].kind == AttachSignature
    requires forall k :: i <= k < j ==> r.builder.steps[k].kind != Pause
    requires s.signature.None?
    ensures ExecuteSteps(r, i, signer, s).1.Failed?
    decreases j - i
  {
    if i < j {
      var (s', error) := RunStep(r, r.builder.steps[i], signer, s);
      StepAddsNoSignature(r, r.builder.steps[i], signer, s);
      if error.None? { AttachNeedsSignature(r, i + 1, j, signer, s'); }
    }
  }

  /** Steps never supply a pending signature, and a completed attach step has used it up. */
  lemma StepAddsNoSignature<M, C, W>(r: Runner<M, C, W>, step: Step<M, C, W>, signer: Option<Signer>,
                                     s: Machine<M, C, W>)
    ensures RunStep(r, step, signer, s).0.signature.Some? ==> RunStep(r, step, signer, s).0.signature == s.signature
    ensures step.kind == AttachSignature && RunStep(r, step, signer, s).1.None? ==>
      s.signature.Some? && RunStep(r, step, signer, s).0.signature.None?
  {
  }

  /** Two attach steps without a pause between them cannot both complete. */
  lemma OneAttachPerSegment<M, C, W>(r: Runner<M, C, W>, i: nat, j: nat, signer: Option<Signer>, s: Machine<M, C, W>)
    requires i < j < |r.builder.steps|
    requires r.builder.steps[i].kind == AttachSignature && r.builder.steps[j].kind == AttachSignature
    requires forall k :: i <= k < j ==> r.builder.steps[k].kind != Pause
    ensures ExecuteSteps(r, i, signer, s).1.Failed?
  {
    var (s', error) := RunStep(r, r.builder.steps[i], signer, s);
    StepAddsNoSignature(r, r.builder.steps[i], signer, s);
    if error.None? { AttachNeedsSignature(r, i + 1, j, signer, s'); }
  }
}
