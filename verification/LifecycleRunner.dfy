/** `LifecycleRunner` (`lifecycle/src/runner.rs`) in the form of the source. */
module LifecycleRunner {
  import opened Wrappers
  import opened Lifecycle

  class LifecycleRunner<!M, !C, !W> {
    const builder: Builder<M, C, W>
    const traitOf: MessageTrait<M>
    var hooks: map<string, seq<Hook<M, W>>>

    constructor (builder: Builder<M, C, W>, traitOf: MessageTrait<M>)
      ensures View() == Runner(builder, map[], traitOf)
    {
      this.builder := builder;
      this.traitOf := traitOf;
      hooks := map[];
    }

    function View(): Runner<M, C, W>
      reads this
    {
      Runner(builder, hooks, traitOf)
    }

    /** Hooks of one label accumulate in registration order. */
    method OnComplete(stepLabel: string, hook: Hook<M, W>)
      modifies this
      ensures hooks == old(hooks)[stepLabel := (if stepLabel in old(hooks) then old(hooks)[stepLabel] else []) + [hook]]
    {
      var registered := if stepLabel in hooks then hooks[stepLabel] else [];
      hooks := hooks[stepLabel := registered + [hook]];
    }

    method RunHooks(stepLabel: string, message: M, world: W) returns (world': W, error: Option<DidError>)
      ensures (world', error) == Lifecycle.RunHooks(View(), stepLabel, message, world)
    {
      world', error := world, None;
      if stepLabel in hooks {
        var list := hooks[stepLabel];
        var i := 0;
        while i < |list|
          invariant 0 <= i <= |list| && error == None
          invariant RunHookList(list, message, world) == RunHookList(list[i..], message, world')
        {
          assert list[i..][1..] == list[i + 1..];
          var (w, failed) := list[i](message, world');
          world', error := w, failed;
          if error.Some? {
            return;
          }
          i := i + 1;
        }
      }
    }

    /** The loop over the steps, with the message and the options updated in place. */
    method ExecuteSteps(start: nat, signer: Option<Signer>, s: Machine<M, C, W>)
      returns (s': Machine<M, C, W>, stop: Stop)
      requires start <= |builder.steps|
      ensures (s', stop) == Lifecycle.ExecuteSteps(View(), start, signer, s)
    {
      var message, context, signature, world := s.message, s.context, s.signature, s.world;
      var index := start;
      while index < |builder.steps|
        invariant start <= index <= |builder.steps|
        invariant Lifecycle.ExecuteSteps(View(), start, signer, s)
          == Lifecycle.ExecuteSteps(View(), index, signer, Machine(message, context, signature, world))
      {
        var step := builder.steps[index];
        var error: Option<DidError> := None;
        match step.kind {
          case Callback =>
            if step.callback.None? {
              error := Some(InternalError);
            } else {
              var o := step.callback.value(message, context, world);
              message, context, world, error := o.message, o.context, o.world, o.error;
              if error.None? { world, error := RunHooks(step.stepLabel, message, world); }
            }
          case SignWithSigner =>
            if signer.None? {
              error := Some(InvalidArgument);
            } else {
              var bytes := traitOf.messageBytes(message);
              if bytes.Err? {
                error := Some(bytes.error);
              } else {
                var signed := signer.value(bytes.value);
                if signed.Err? {
                  error := Some(signed.error);
                } else if |signed.value| != 64 {
                  error := Some(InvalidArgument);
                } else {
                  var (m, failed) := traitOf.setSignature(message, signed.value);
                  message, error := m, failed;
                  if error.None? { world, error := RunHooks(step.stepLabel, message, world); }
                }
              }
            }
          case AttachSignature =>
            if signature.None? {
              error := Some(InvalidArgument);
            } else {
              var taken := signature.value;
              signature := None;
              var (m, failed) := traitOf.setSignature(message, taken);
              message, error := m, failed;
              if error.None? { world, error := RunHooks(step.stepLabel, message, world); }
            }
          case Pause =>
            return Machine(message, context, signature, world), StoppedAt(index);
        }
        if error.Some? {
          return Machine(message, context, signature, world), Failed(error.value);
        }
        index := index + 1;
      }
      return Machine(message, context, signature, world), Ended;
    }

    method ProcessFrom(message: M, context: C, segment: Segment, after: Option<string>, world: W)
      returns (r: Result<RunnerState<M, C>, DidError>, world': W)
      ensures (r, world') == Lifecycle.ProcessFrom(View(), message, context, segment, after, world)
    {
      var startIndex := 0;
      world' := world;
      if after.Some? {
        var pauseIndex := builder.IndexByLabel(after.value);
        if pauseIndex.None? {
          return Err(InvalidArgument), world';
        }
        var failed;
        world', failed := RunHooks(after.value, message, world');
        if failed.Some? {
          return Err(failed.value), world';
        }
        startIndex := pauseIndex.value + 1;
      }
      var s, stop := ExecuteSteps(startIndex, segment.signer, Machine(message, context, segment.signature, world'));
      var answer := Conclude(View(), s, stop);
      return answer.0, answer.1;
    }

    method Process(message: M, context: C, segment: Segment, world: W)
      returns (r: Result<RunnerState<M, C>, DidError>, world': W)
      ensures (r, world') == Lifecycle.Process(View(), message, context, segment, world)
    {
      r, world' := ProcessFrom(message, context, segment, None, world);
    }

    method Resume(state: RunnerState<M, C>, context: C, segment: Segment, world: W)
      returns (r: Result<RunnerState<M, C>, DidError>, world': W)
      ensures (r, world') == Lifecycle.Resume(View(), state, context, segment, world)
    {
      if state.status != Paused {
        return Err(InvalidArgument), world;
      }
      r, world' := ProcessFrom(state.message, context, segment, Some(state.stepLabel), world);
    }
  }
}
