/** The step runner of `llama_deploy/orchestrator.py` (`Step` and
    `run_steps`).

    A step has a name (its label), a zero-argument action and an optional skip
    predicate. The Python steps close over earlier `Step` objects and read
    their `result` fields; here every step owns a slot of an explicit result
    table, and actions and predicates receive the current state together
    with that table. The progress bar is the counter `progress`. */
module Runner {
  import opened Wrappers

  /** One unit of work. `slot` is the step's handle in the result table;
      `action` maps the current state and result table to a new state and
      the step's return value, or raises. */
  datatype Step<!S, !V, E> = Step(
    name: string,
    slot: nat,
    action: (S, seq<Option<V>>) -> Result<(S, V), E>,
    skipIf: Option<(S, seq<Option<V>>) -> bool>)

  /** What the runner threads from step to step: the state the actions
      act on, the result table (None while a slot is unset) and the number
      of progress units reported so far. */
  datatype Ctx<S, V> = Ctx(state: S, results: seq<Option<V>>, progress: nat)

  /** A run either goes through the whole list or stops at position `at`
      with the failure its action raised; `ctx` is where it stopped. */
  datatype Outcome<S, V, E> =
    | Completed(ctx: Ctx<S, V>)
    | Aborted(ctx: Ctx<S, V>, error: E, at: nat)

  /** Every step's slot lies inside a result table of size `n`. */
  ghost predicate Fits<S, V, E>(steps: seq<Step<S, V, E>>, n: nat) {
    forall i :: 0 <= i < |steps| ==> steps[i].slot < n
  }

  /** The skip predicate is present and holds now: it is evaluated against
      the context the step is reached in, not when the list was built. */
  predicate Skipped<S, V, E>(step: Step<S, V, E>, c: Ctx<S, V>) {
    step.skipIf.Some? && step.skipIf.value(c.state, c.results)
  }

  /** One iteration of the loop of `run_steps`. A skipped step advances the
      progress by one and leaves its result unset or as it was; an executed
      step stores the action's return value in its slot and advances the
      progress by one; a raising action propagates with nothing written. */
  function RunStep<S, V, E>(step: Step<S, V, E>, c: Ctx<S, V>): (r: Result<Ctx<S, V>, E>)
    requires step.slot < |c.results|
    ensures r.Ok? ==> r.value.progress == c.progress + 1 && |r.value.results| == |c.results|
    ensures r.Ok? ==> forall j :: 0 <= j < |c.results| && j != step.slot ==> r.value.results[j] == c.results[j]
    ensures r.Ok? && Skipped(step, c) ==> r.value == c.(progress := c.progress + 1)
    ensures !Skipped(step, c) ==>
      match step.action(c.state, c.results)
      case Ok((s, v)) => r == Ok(Ctx(s, c.results[step.slot := Some(v)], c.progress + 1))
      case Err(e) => r == Err(e)
    ensures Skipped(step, c) ==> r.Ok?
  {
    if Skipped(step, c) then Ok(c.(progress := c.progress + 1))
    else match step.action(c.state, c.results)
      case Ok((s, v)) => Ok(Ctx(s, c.results[step.slot := Some(v)], c.progress + 1))
      case Err(e) => Err(e)
  }

  /** `run_steps`: the steps in list order, fail-fast. */
  function RunSteps<S, V, E>(steps: seq<Step<S, V, E>>, c: Ctx<S, V>): (o: Outcome<S, V, E>)
    requires Fits(steps, |c.results|)
    ensures |o.ctx.results| == |c.results|
    ensures o.Completed? ==> o.ctx.progress == c.progress + |steps|
    ensures o.Aborted? ==> o.at < |steps| && o.ctx.progress == c.progress + o.at
    ensures forall j :: 0 <= j < |c.results| && c.results[j].Some? ==> o.ctx.results[j].Some?
    ensures forall j :: 0 <= j < |c.results| && (forall i :: 0 <= i < |steps| ==> steps[i].slot != j) ==>
              o.ctx.results[j] == c.results[j]
    decreases |steps|
  {
    if |steps| == 0 then Completed(c)
    else match RunStep(steps[0], c)
      case Err(e) => Aborted(c, e, 0)
      case Ok(c1) =>
        assert forall i :: 0 <= i < |steps[1..]| ==> steps[1..][i] == steps[i + 1];
        match RunSteps(steps[1..], c1)
        case Completed(c2) => Completed(c2)
        case Aborted(c2, e, k) => Aborted(c2, e, k + 1)
  }

  /** The run of `a` followed by `b` is the run of `a`, then, if it
      completed, the run of `b` from where `a` stopped: the runner is a
      left fold, and a failure in `a` means nothing of `b` is evaluated. */
  lemma {:induction false} RunAppend<S, V, E>(a: seq<Step<S, V, E>>, b: seq<Step<S, V, E>>, c: Ctx<S, V>)
    requires Fits(a, |c.results|) && Fits(b, |c.results|)
    ensures Fits(a + b, |c.results|)
    ensures RunSteps(a + b, c) ==
      match RunSteps(a, c)
      case Aborted(c1, e, k) => Aborted(c1, e, k)
      case Completed(c1) =>
        match RunSteps(b, c1)
        case Completed(c2) => Completed(c2)
        case Aborted(c2, e, k) => Aborted(c2, e, k + |a|)
    decreases |a|
  {
    assert Fits(a + b, |c.results|) by {
      forall i | 0 <= i < |a + b|
        ensures (a + b)[i].slot < |c.results|
      {
        if i < |a| {
          assert (a + b)[i] == a[i];
        } else {
          assert (a + b)[i] == b[i - |a|];
        }
      }
    }
    if |a| > 0 {
      assert (a + b)[0] == a[0];
      assert (a + b)[1..] == a[1..] + b;
      match RunStep(a[0], c)
      case Err(e) =>
      case Ok(c1) =>
        assert Fits(a[1..], |c1.results|) by {
          forall i | 0 <= i < |a[1..]|
            ensures a[1..][i].slot < |c1.results|
          {
            assert a[1..][i] == a[i + 1];
          }
        }
        RunAppend(a[1..], b, c1);
    } else {
      assert a + b == b;
    }
  }

  /** Fail-fast: once a run has aborted, appending further steps changes
      nothing, so no later skip predicate or action is ever evaluated. */
  lemma FailFastIgnoresLaterSteps<S, V, E>(steps: seq<Step<S, V, E>>, rest: seq<Step<S, V, E>>, c: Ctx<S, V>)
    requires Fits(steps, |c.results|) && Fits(rest, |c.results|)
    requires RunSteps(steps, c).Aborted?
    ensures Fits(steps + rest, |c.results|)
    ensures RunSteps(steps + rest, c) == RunSteps(steps, c)
  {
    RunAppend(steps, rest, c);
  }

  /** The steps are visited strictly in list order: running one more step
      of the list continues from where the shorter run stopped, evaluating
      that step's skip predicate afresh on the current context. */
  lemma RunOneMore<S, V, E>(steps: seq<Step<S, V, E>>, c: Ctx<S, V>, k: nat)
    requires Fits(steps, |c.results|) && k < |steps|
    requires RunSteps(steps[..k], c).Completed?
    ensures Fits(steps[..k], |c.results|) && Fits(steps[..k + 1], |c.results|)
    ensures var ck := RunSteps(steps[..k], c).ctx;
            RunSteps(steps[..k + 1], c) ==
              match RunStep(steps[k], ck)
              case Ok(c1) => Completed(c1)
              case Err(e) => Aborted(ck, e, k)
  {
    assert steps[..k + 1] == steps[..k] + [steps[k]];
    assert Fits(steps[..k], |c.results|) by {
      forall i | 0 <= i < k
        ensures steps[..k][i].slot < |c.results|
      {
        assert steps[..k][i] == steps[i];
      }
    }
    RunAppend(steps[..k], [steps[k]], c);
    assert [steps[k]][1..] == [];
  }

  /** An aborted run stopped at the failing step: the context is the one
      the steps before it produced, that step was not skipped, and its
      action raised the reported failure, so its result is not written and
      it gets no progress unit. */
  lemma {:induction false} AbortedAtFailingStep<S, V, E>(steps: seq<Step<S, V, E>>, c: Ctx<S, V>)
    requires Fits(steps, |c.results|)
    requires RunSteps(steps, c).Aborted?
    ensures var o := RunSteps(steps, c);
            && Fits(steps[..o.at], |c.results|)
            && RunSteps(steps[..o.at], c) == Completed(o.ctx)
            && !Skipped(steps[o.at], o.ctx)
            && steps[o.at].action(o.ctx.state, o.ctx.results).Err?
            && steps[o.at].action(o.ctx.state, o.ctx.results).error == o.error
    decreases |steps|
  {
    var o := RunSteps(steps, c);
    assert steps[..0] == [];
    match RunStep(steps[0], c)
    case Err(e) =>
    case Ok(c1) =>
      var tail := steps[1..];
      assert Fits(tail, |c1.results|) by {
        forall i | 0 <= i < |tail|
          ensures tail[i].slot < |c1.results|
        {
          assert tail[i] == steps[i + 1];
        }
      }
      AbortedAtFailingStep(tail, c1);
      var k := RunSteps(tail, c1).at;
      assert o.at == k + 1;
      assert steps[..k + 1] == [steps[0]] + tail[..k];
      assert steps[k + 1] == tail[k];
      RunAppend([steps[0]], tail[..k], c);
      assert [steps[0]][1..] == [];
  }

  /** A slot whose steps are all skipped whatever the context keeps the
      value it had before the run, whether the run completes or not. */
  lemma {:induction false} AlwaysSkippedSlotKept<S, V, E>(steps: seq<Step<S, V, E>>, c: Ctx<S, V>, j: nat)
    requires Fits(steps, |c.results|) && j < |c.results|
    requires forall i :: 0 <= i < |steps| && steps[i].slot == j ==>
               steps[i].skipIf.Some? && forall s, t :: steps[i].skipIf.value(s, t)
    ensures RunSteps(steps, c).ctx.results[j] == c.results[j]
    decreases |steps|
  {
    if |steps| > 0 {
      match RunStep(steps[0], c)
      case Err(e) =>
      case Ok(c1) =>
        var tail := steps[1..];
        assert c1.results[j] == c.results[j];
        assert forall i :: 0 <= i < |tail| ==> tail[i] == steps[i + 1];
        AlwaysSkippedSlotKept(tail, c1, j);
    }
  }

  /** A step that is never skipped has its slot set once the run has
      completed. */
  lemma {:induction false} NeverSkippedSlotWritten<S, V, E>(steps: seq<Step<S, V, E>>, c: Ctx<S, V>, k: nat)
    requires Fits(steps, |c.results|) && k < |steps|
    requires steps[k].skipIf.None? || forall s, t :: !steps[k].skipIf.value(s, t)
    requires RunSteps(steps, c).Completed?
    ensures RunSteps(steps, c).ctx.results[steps[k].slot].Some?
    decreases |steps|
  {
    match RunStep(steps[0], c)
    case Err(e) =>
    case Ok(c1) =>
      var tail := steps[1..];
      assert forall i :: 0 <= i < |tail| ==> tail[i] == steps[i + 1];
      if k > 0 {
        NeverSkippedSlotWritten(tail, c1, k - 1);
      } else {
        assert !Skipped(steps[0], c);
        assert c1.results[steps[0].slot].Some?;
      }
  }

  /** A property of the state that every action preserves holds wherever
      the run stops, completed or aborted. */
  lemma {:induction false} StateInvariantKept<S, V, E>(steps: seq<Step<S, V, E>>, c: Ctx<S, V>, inv: S -> bool)
    requires Fits(steps, |c.results|) && inv(c.state)
    requires forall i, s, t :: 0 <= i < |steps| && inv(s) && steps[i].action(s, t).Ok? ==>
               inv(steps[i].action(s, t).value.0)
    ensures inv(RunSteps(steps, c).ctx.state)
    decreases |steps|
  {
    if |steps| > 0 {
      match RunStep(steps[0], c)
      case Err(e) =>
      case Ok(c1) =>
        var tail := steps[1..];
        assert forall i :: 0 <= i < |tail| ==> tail[i] == steps[i + 1];
        StateInvariantKept(tail, c1, inv);
    }
  }
}
