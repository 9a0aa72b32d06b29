/** The operator/pipeline engine of aes/workflow/pipeline.py and
    aes/workflow/operators.py. aes/operations/workflow.py repeats its
    `Operator`, `Pipeline` and `PipelineBuilder` almost line for line; one
    model of those classes serves both copies.

    An operator's `execute` is the payload its subclass defines; here it is a
    function of the carried data and the shared context that returns a value,
    `None`, or the exception it raises. `datetime.now()` is a monotonic
    `Clock`, and a duration is a difference of clock readings. */
module Workflow {
  import opened Wrappers
  import opened Text

  /** The context dict every step receives. */
  type Context = map<string, string>

  /** A value in a configuration or parameter dict. */
  datatype Setting = Text(text: string) | Flag(on: bool) | Null

  type Params = map<string, Setting>

  /** What an operator class does when executed: a value, `None`, or an
      exception. */
  type Behaviour<!D> = (Option<D>, Context) -> Result<Option<D>>

  const DefaultOperatorName := "operator_base_class"

  /** A wall clock that never goes back. */
  class Clock {
    var now: int

    constructor (start: int)
      ensures now == start
    {
      now := start;
    }

    /** `datetime.now()`: a reading no earlier than the previous one. */
    method Read() returns (t: int)
      modifies this
      ensures old(now) <= t && now == t
    {
      now := now + 1;
      t := now;
    }
  }

  /** `name or Operator.__name`: a missing or empty name falls back to the
      base-class name. */
  function OperatorName(name: Option<string>): (r: string)
    ensures name.Some? && name.value != "" ==> r == name.value
    ensures name.None? || name.value == "" ==> r == DefaultOperatorName
  {
    if name.Some? && name.value != "" then name.value else DefaultOperatorName
  }

  /** The `Operator` base class: name, params, the payload, and the three
      timestamps set around each run. */
  class Operator<D> {
    const name: string
    const params: Params
    const execute: Behaviour<D>
    var started: Option<int>
    var stopped: Option<int>
    var duration: Option<int>

    /** `__init__`: no timestamps until the operator runs. */
    constructor (name: Option<string>, params: Params, execute: Behaviour<D>)
      ensures this.name == OperatorName(name) && this.params == params && this.execute == execute
      ensures started == None && stopped == None && duration == None
    {
      this.name := OperatorName(name);
      this.params := params;
      this.execute := execute;
      started := None;
      stopped := None;
      duration := None;
    }

    /** `run`: `_setup`, `execute`, `_teardown`, and `execute`'s result
        returned as it is. When `execute` raises, `_teardown` is skipped. */
    method Run(data: Option<D>, context: Context, clock: Clock) returns (r: Result<Option<D>>)
      modifies this, clock
      ensures r == execute(data, context)
      ensures started.Some? && old(clock.now) <= started.value <= clock.now
      ensures r.Ok? ==> stopped.Some? && started.value <= stopped.value <= clock.now
      ensures r.Ok? ==> duration == Some(stopped.value - started.value)
      ensures r.Err? ==> stopped == old(stopped) && duration == old(duration)
    {
      Setup(clock);
      r := execute(data, context);
      if r.Ok? {
        Teardown(clock);
      }
    }

    /** `_setup`. */
    method Setup(clock: Clock)
      modifies this, clock
      ensures started == Some(clock.now) && old(clock.now) <= clock.now
      ensures stopped == old(stopped) && duration == old(duration)
    {
      var t := clock.Read();
      started := Some(t);
    }

    /** `_teardown`: the stop time and the elapsed time since setup. */
    method Teardown(clock: Clock)
      requires started.Some? && started.value <= clock.now
      modifies this, clock
      ensures started == old(started) && stopped == Some(clock.now) && old(clock.now) <= clock.now
      ensures duration == Some(clock.now - started.value) && duration.value >= 0
    {
      var t := clock.Read();
      stopped := Some(t);
      duration := Some(t - started.value);
    }
  }

  // ---------------------------------------------------------------------------
  // The step list
  // ---------------------------------------------------------------------------

  /** `[step for step in steps if step.name != name]`. */
  function WithoutNamed<D>(steps: seq<Operator<D>>, name: string): seq<Operator<D>>
  {
    if steps == [] then []
    else if steps[0].name == name then WithoutNamed(steps[1..], name)
    else [steps[0]] + WithoutNamed(steps[1..], name)
  }

  /** `[step for step in steps if step.name == name]`. */
  function Named<D>(steps: seq<Operator<D>>, name: string): seq<Operator<D>>
  {
    if steps == [] then []
    else if steps[0].name == name then [steps[0]] + Named(steps[1..], name)
    else Named(steps[1..], name)
  }

  /** The position of the first step with the name. */
  function FirstNamed<D>(steps: seq<Operator<D>>, name: string): (i: nat)
    requires exists j :: 0 <= j < |steps| && steps[j].name == name
    ensures i < |steps| && steps[i].name == name
    ensures forall j :: 0 <= j < i ==> steps[j].name != name
  {
    if steps[0].name == name then 0
    else
      assert exists j :: 0 <= j < |steps[1..]| && steps[1..][j].name == name by {
        var j :| 0 <= j < |steps| && steps[j].name == name;
        assert steps[1..][j - 1] == steps[j];
      }
      1 + FirstNamed(steps[1..], name)
  }

  /** The steps kept are exactly the steps of other names. */
  lemma {:induction false} RemoveKeepsOthers<D>(steps: seq<Operator<D>>, name: string)
    ensures forall i :: 0 <= i < |WithoutNamed(steps, name)| ==>
      WithoutNamed(steps, name)[i] in steps && WithoutNamed(steps, name)[i].name != name
    ensures forall i :: 0 <= i < |steps| && steps[i].name != name ==> steps[i] in WithoutNamed(steps, name)
  {
    if steps != [] {
      RemoveKeepsOthers(steps[1..], name);
      var tail := WithoutNamed(steps[1..], name);
      var rest := WithoutNamed(steps, name);
      assert rest == if steps[0].name == name then tail else [steps[0]] + tail;
      forall i | 0 <= i < |rest| ensures rest[i] in steps && rest[i].name != name {
        if steps[0].name != name && i == 0 {
        } else {
          var k := if steps[0].name == name then i else i - 1;
          assert 0 <= k < |tail|;
          assert rest[i] == tail[k];
          assert tail[k] in steps[1..] && tail[k].name != name;
        }
      }
      forall i | 0 <= i < |steps| && steps[i].name != name ensures steps[i] in rest {
        if i > 0 {
          assert steps[i] == steps[1..][i - 1];
          assert steps[i] in tail;
        }
      }
    }
  }

  /** The steps found are exactly those of that name. */
  lemma {:induction false} NamedFindsAll<D>(steps: seq<Operator<D>>, name: string)
    ensures forall i :: 0 <= i < |Named(steps, name)| ==> Named(steps, name)[i] in steps && Named(steps, name)[i].name == name
    ensures forall i :: 0 <= i < |steps| && steps[i].name == name ==> steps[i] in Named(steps, name)
  {
    if steps != [] {
      NamedFindsAll(steps[1..], name);
      var tail := Named(steps[1..], name);
      var found := Named(steps, name);
      assert found == if steps[0].name == name then [steps[0]] + tail else tail;
      forall i | 0 <= i < |found| ensures found[i] in steps && found[i].name == name {
        if steps[0].name == name && i == 0 {
        } else {
          var k := if steps[0].name == name then i - 1 else i;
          assert 0 <= k < |tail|;
          assert found[i] == tail[k];
          assert tail[k] in steps[1..] && tail[k].name == name;
        }
      }
      forall i | 0 <= i < |steps| && steps[i].name == name ensures steps[i] in found {
        if i > 0 {
          assert steps[i] == steps[1..][i - 1];
          assert steps[i] in tail;
        }
      }
    }
  }

  /** Dropping the steps of one name keeps the others, in order: every step
      is either kept or dropped, and the kept ones form a subsequence. */
  lemma {:induction false} RemovePartitions<D>(steps: seq<Operator<D>>, name: string)
    ensures |WithoutNamed(steps, name)| + |Named(steps, name)| == |steps|
    ensures name !in NamesOfSteps(WithoutNamed(steps, name))
  {
    if steps != [] {
      RemovePartitions(steps[1..], name);
    }
  }

  function NamesOfSteps<D>(steps: seq<Operator<D>>): (names: seq<string>)
    ensures |names| == |steps| && forall i :: 0 <= i < |steps| ==> names[i] == steps[i].name
  {
    seq(|steps|, i requires 0 <= i < |steps| => steps[i].name)
  }

  /** Removing a name is idempotent, and removing a name with no step
      changes nothing. */
  lemma {:induction false} RemoveIdempotent<D>(steps: seq<Operator<D>>, name: string)
    ensures WithoutNamed(WithoutNamed(steps, name), name) == WithoutNamed(steps, name)
    ensures name !in NamesOfSteps(steps) ==> WithoutNamed(steps, name) == steps
  {
    if steps != [] {
      RemoveIdempotent(steps[1..], name);
      if steps[0].name != name {
        assert ([steps[0]] + WithoutNamed(steps[1..], name))[1..] == WithoutNamed(steps[1..], name);
      }
      if name !in NamesOfSteps(steps) {
        assert NamesOfSteps(steps)[0] == steps[0].name;
        assert name !in NamesOfSteps(steps[1..]) by {
          forall i | 0 <= i < |steps| - 1 ensures NamesOfSteps(steps[1..])[i] != name {
            assert NamesOfSteps(steps)[i + 1] == steps[i + 1].name;
          }
        }
        assert [steps[0]] + steps[1..] == steps;
      }
    }
  }

  /** Removal distributes over a later addition. */
  lemma {:induction false} RemoveAfterAppend<D>(steps: seq<Operator<D>>, more: seq<Operator<D>>, name: string)
    ensures WithoutNamed(steps + more, name) == WithoutNamed(steps, name) + WithoutNamed(more, name)
  {
    if steps == [] {
      assert steps + more == more;
    } else {
      assert (steps + more)[1..] == steps[1..] + more;
      RemoveAfterAppend(steps[1..], more, name);
    }
  }

  // ---------------------------------------------------------------------------
  // Execution
  // ---------------------------------------------------------------------------

  /** `start_step <= seq <= stop_step`; `stop` is `None` for the default
      `float("inf")`. */
  predicate InWindow(position: int, start: int, stop: Option<int>)
  {
    start <= position && (stop.None? || position <= stop.value)
  }

  /** The outcome of running the steps from position `pos` on: the final
      result, the positions that ran, what each received and what each
      returned. */
  datatype Walk<D> = Walk(result: Result<Option<D>>, ran: seq<nat>, inputs: seq<Option<D>>, outputs: seq<Option<D>>)

  /** `_execute` from position `pos` (0-based; its sequence number is
      `pos + 1`) with `data` carried so far. */
  function Execution<D>(steps: seq<Operator<D>>, pos: nat, start: int, stop: Option<int>, context: Context,
                        data: Option<D>): Walk<D>
    decreases |steps| - pos
  {
    if pos >= |steps| then Walk(Ok(data), [], [], [])
    else if !InWindow(pos + 1, start, stop) then Execution(steps, pos + 1, start, stop, context, data)
    else
      match steps[pos].execute(data, context)
      case Err(e) => Walk(Err(e), [pos], [data], [])
      case Ok(out) =>
        var rest := Execution(steps, pos + 1, start, stop, context, if out.Some? then out else data);
        Walk(rest.result, [pos] + rest.ran, [data] + rest.inputs, [out] + rest.outputs)
  }

  /** A walk with the positions, inputs and outputs of earlier steps put
      in front. */
  function After<D>(ran: seq<nat>, inputs: seq<Option<D>>, outputs: seq<Option<D>>, w: Walk<D>): Walk<D>
  {
    Walk(w.result, ran + w.ran, inputs + w.inputs, outputs + w.outputs)
  }

  /** A step in the window that returns `out` is recorded and the walk goes
      on from the next position with the carried data updated. */
  lemma ExecutionStepOk<D>(steps: seq<Operator<D>>, pos: nat, start: int, stop: Option<int>, context: Context,
                           data: Option<D>, out: Option<D>, ran: seq<nat>, inputs: seq<Option<D>>, outputs: seq<Option<D>>)
    requires pos < |steps| && InWindow(pos + 1, start, stop) && steps[pos].execute(data, context) == Ok(out)
    ensures After(ran, inputs, outputs, Execution(steps, pos, start, stop, context, data))
         == After(ran + [pos], inputs + [data], outputs + [out],
                  Execution(steps, pos + 1, start, stop, context, if out.Some? then out else data))
  {
    var next := Execution(steps, pos + 1, start, stop, context, if out.Some? then out else data);
    assert ran + ([pos] + next.ran) == (ran + [pos]) + next.ran;
    assert inputs + ([data] + next.inputs) == (inputs + [data]) + next.inputs;
    assert outputs + ([out] + next.outputs) == (outputs + [out]) + next.outputs;
  }

  /** The last non-`None` value among `outs`, or `data` if there is none. */
  function LastSome<D>(outs: seq<Option<D>>, data: Option<D>): Option<D>
  {
    if outs == [] then data
    else if outs[|outs| - 1].Some? then outs[|outs| - 1]
    else LastSome(outs[..|outs| - 1], data)
  }

  lemma {:induction false} LastSomePrepend<D>(out: Option<D>, outs: seq<Option<D>>, data: Option<D>)
    ensures LastSome([out] + outs, data) == LastSome(outs, if out.Some? then out else data)
    decreases |outs|
  {
    if outs == [] {
      assert ([out] + outs)[..0] == [];
    } else {
      assert ([out] + outs)[..|outs|] == [out] + outs[..|outs| - 1];
      LastSomePrepend(out, outs[..|outs| - 1], data);
    }
  }

  /** Only steps inside the window run, each at most once, in order. */
  lemma {:induction false} ExecutionRunsInOrder<D>(steps: seq<Operator<D>>, pos: nat, start: int, stop: Option<int>,
                                                  context: Context, data: Option<D>)
    ensures var w := Execution(steps, pos, start, stop, context, data);
      && |w.inputs| == |w.ran|
      && (forall k :: 0 <= k < |w.ran| ==> pos <= w.ran[k] < |steps| && InWindow(w.ran[k] + 1, start, stop))
      && (forall k, l :: 0 <= k < l < |w.ran| ==> w.ran[k] < w.ran[l])
    decreases |steps| - pos
  {
    if pos < |steps| {
      if !InWindow(pos + 1, start, stop) {
        ExecutionRunsInOrder(steps, pos + 1, start, stop, context, data);
      } else {
        var out := steps[pos].execute(data, context);
        if out.Ok? {
          ExecutionRunsInOrder(steps, pos + 1, start, stop, context, if out.value.Some? then out.value else data);
        }
      }
    }
  }

  /** Where a walk stopped: the position of the step that raised, or the
      end of the steps for a walk that ended normally. */
  function Reach<D>(w: Walk<D>, steps: seq<Operator<D>>): int
  {
    if w.result.Err? && |w.outputs| < |w.ran| then w.ran[|w.outputs|] else |steps|
  }

  /** Every in-window position from `pos` up to where the walk stopped ran;
      a normal walk has one output per step that ran, a failed one one fewer. */
  ghost predicate RunsWindow<D>(w: Walk<D>, steps: seq<Operator<D>>, pos: nat, start: int, stop: Option<int>)
  {
    && (w.result.Ok? ==> |w.outputs| == |w.ran|)
    && (w.result.Err? ==> |w.ran| == |w.outputs| + 1)
    && forall p :: pos <= p < Reach(w, steps) && InWindow(p + 1, start, stop) ==> p in w.ran
  }

  /** Every step of the window up to the one that raised ran, and all of
      them ran when none raised. */
  lemma {:induction false} ExecutionRunsWindow<D>(steps: seq<Operator<D>>, pos: nat, start: int, stop: Option<int>,
                                                 context: Context, data: Option<D>)
    ensures RunsWindow(Execution(steps, pos, start, stop, context, data), steps, pos, start, stop)
    decreases |steps| - pos
  {
    if pos < |steps| {
      if !InWindow(pos + 1, start, stop) {
        ExecutionRunsWindow(steps, pos + 1, start, stop, context, data);
      } else {
        var out := steps[pos].execute(data, context);
        if out.Ok? {
          ExecutionRunsWindow(steps, pos + 1, start, stop, context, if out.value.Some? then out.value else data);
          RunsWindowStep(steps, pos, start, stop, context, data, out.value);
        }
      }
    }
  }

  lemma RunsWindowStep<D>(steps: seq<Operator<D>>, pos: nat, start: int, stop: Option<int>, context: Context,
                          data: Option<D>, out: Option<D>)
    requires pos < |steps| && InWindow(pos + 1, start, stop) && steps[pos].execute(data, context) == Ok(out)
    requires RunsWindow(Execution(steps, pos + 1, start, stop, context, if out.Some? then out else data),
                        steps, pos + 1, start, stop)
    ensures RunsWindow(Execution(steps, pos, start, stop, context, data), steps, pos, start, stop)
  {
    var w := Execution(steps, pos, start, stop, context, data);
    var rest := Execution(steps, pos + 1, start, stop, context, if out.Some? then out else data);
    assert w == Walk(rest.result, [pos] + rest.ran, [data] + rest.inputs, [out] + rest.outputs);
    assert Reach(w, steps) == Reach(rest, steps) by {
      if w.result.Err? {
        assert w.ran[|w.outputs|] == rest.ran[|rest.outputs|];
      }
    }
    forall p | pos <= p < Reach(w, steps) && InWindow(p + 1, start, stop) ensures p in w.ran {
      if p > pos {
        assert p in rest.ran;
      } else {
        assert w.ran[0] == pos;
      }
    }
  }

  /** Fail fast: a run that ends in an exception stops at the step that
      raised it, which is the last step to run. */
  lemma {:induction false} ExecutionStopsAtError<D>(steps: seq<Operator<D>>, pos: nat, start: int, stop: Option<int>,
                                                   context: Context, data: Option<D>)
    ensures StopsAtError(Execution(steps, pos, start, stop, context, data), steps, context)
    decreases |steps| - pos
  {
    if pos < |steps| {
      if !InWindow(pos + 1, start, stop) {
        ExecutionStopsAtError(steps, pos + 1, start, stop, context, data);
      } else {
        var out := steps[pos].execute(data, context);
        if out.Ok? {
          ExecutionStopsAtError(steps, pos + 1, start, stop, context, if out.value.Some? then out.value else data);
          StopsAtErrorStep(steps, pos, start, stop, context, data, out.value);
        }
      }
    }
  }

  /** A failed walk ends with the step that raised: one more position ran
      than produced an output, and that step, given its input, raises the
      walk's error. */
  ghost predicate StopsAtError<D>(w: Walk<D>, steps: seq<Operator<D>>, context: Context)
  {
    w.result.Err? ==> && |w.ran| == |w.outputs| + 1 && |w.inputs| == |w.ran| && w.ran[|w.outputs|] < |steps|
                      && steps[w.ran[|w.outputs|]].execute(w.inputs[|w.outputs|], context) == Err(w.result.error)
  }

  lemma StopsAtErrorStep<D>(steps: seq<Operator<D>>, pos: nat, start: int, stop: Option<int>, context: Context,
                            data: Option<D>, out: Option<D>)
    requires pos < |steps| && InWindow(pos + 1, start, stop) && steps[pos].execute(data, context) == Ok(out)
    requires StopsAtError(Execution(steps, pos + 1, start, stop, context, if out.Some? then out else data), steps, context)
    ensures StopsAtError(Execution(steps, pos, start, stop, context, data), steps, context)
  {
    var w := Execution(steps, pos, start, stop, context, data);
    var rest := Execution(steps, pos + 1, start, stop, context, if out.Some? then out else data);
    assert w == Walk(rest.result, [pos] + rest.ran, [data] + rest.inputs, [out] + rest.outputs);
    if w.result.Err? {
      assert w.ran[|w.outputs|] == rest.ran[|rest.outputs|];
      assert w.inputs[|w.outputs|] == rest.inputs[|rest.outputs|];
    }
  }

  /** The data carried forward: each step receives the latest non-`None`
      output of the steps before it, and the run ends with the latest
      non-`None` output overall. */
  lemma {:induction false} ExecutionCarries<D>(steps: seq<Operator<D>>, pos: nat, start: int, stop: Option<int>,
                                              context: Context, data: Option<D>)
    ensures Carries(Execution(steps, pos, start, stop, context, data), data)
    decreases |steps| - pos
  {
    if pos < |steps| {
      if !InWindow(pos + 1, start, stop) {
        ExecutionCarries(steps, pos + 1, start, stop, context, data);
      } else {
        var out := steps[pos].execute(data, context);
        if out.Ok? {
          var next := if out.value.Some? then out.value else data;
          ExecutionCarries(steps, pos + 1, start, stop, context, next);
          CarriesStep(steps, pos, start, stop, context, data, out.value);
        }
      }
    }
  }

  /** Each step receives the last non-`None` output before it (or the
      initial data), and a successful walk ends with the last one. */
  ghost predicate Carries<D>(w: Walk<D>, data: Option<D>)
  {
    && (forall k :: 0 <= k < |w.inputs| && k <= |w.outputs| ==> w.inputs[k] == LastSome(w.outputs[..k], data))
    && (w.result.Ok? ==> w.result.value == LastSome(w.outputs, data))
  }

  lemma CarriesStep<D>(steps: seq<Operator<D>>, pos: nat, start: int, stop: Option<int>, context: Context,
                       data: Option<D>, out: Option<D>)
    requires pos < |steps| && InWindow(pos + 1, start, stop) && steps[pos].execute(data, context) == Ok(out)
    requires Carries(Execution(steps, pos + 1, start, stop, context, if out.Some? then out else data),
                     if out.Some? then out else data)
    ensures Carries(Execution(steps, pos, start, stop, context, data), data)
  {
    var next := if out.Some? then out else data;
    var w := Execution(steps, pos, start, stop, context, data);
    var rest := Execution(steps, pos + 1, start, stop, context, next);
    assert w.outputs == [out] + rest.outputs;
    assert w.inputs == [data] + rest.inputs;
    forall k | 0 <= k < |w.inputs| && k <= |w.outputs|
      ensures w.inputs[k] == LastSome(w.outputs[..k], data)
    {
      if k == 0 {
        assert w.outputs[..0] == [];
      } else {
        assert w.outputs[..k] == [out] + rest.outputs[..k - 1];
        LastSomePrepend(out, rest.outputs[..k - 1], data);
        assert w.inputs[k] == rest.inputs[k - 1];
      }
    }
    if w.result.Ok? {
      LastSomePrepend(out, rest.outputs, data);
    }
  }

  /** `pos, pos + 1, ..., n - 1`. */
  function Range(pos: nat, n: nat): (r: seq<nat>)
    ensures |r| == if pos <= n then n - pos else 0
    decreases n - pos
  {
    if pos >= n then [] else [pos] + Range(pos + 1, n)
  }

  /** When every position from `pos` on is inside the window, a run that
      ends normally ran all of them, in order. */
  lemma {:induction false} WholeWindowRunsAll<D>(steps: seq<Operator<D>>, pos: nat, start: int, stop: Option<int>,
                                                context: Context, data: Option<D>)
    requires forall q :: pos < q <= |steps| ==> InWindow(q, start, stop)
    ensures var w := Execution(steps, pos, start, stop, context, data);
      w.result.Ok? ==> w.ran == Range(pos, |steps|)
    decreases |steps| - pos
  {
    if pos < |steps| {
      var out := steps[pos].execute(data, context);
      if out.Ok? {
        WholeWindowRunsAll(steps, pos + 1, start, stop, context, if out.value.Some? then out.value else data);
      }
    }
  }

  /** With the default window (`start_step = 0`, `stop_step = inf`) every
      step runs, until one raises. */
  lemma DefaultWindowRunsAll<D>(steps: seq<Operator<D>>, context: Context)
    ensures var w := Execution(steps, 0, 0, None, context, None);
      w.result.Ok? ==> w.ran == Range(0, |steps|)
  {
    WholeWindowRunsAll(steps, 0, 0, None, context, None);
  }

  /** `_execute` as written: the loop reads `task.seq`, which no code ever
      assigns, so a pipeline with at least one step raises
      `AttributeError` before running anything. */
  function ExecuteAsWritten<D>(steps: seq<Operator<D>>): (r: Result<Option<D>>)
  {
    if steps == [] then Ok(None) else Err(AttributeError("seq"))
  }

  /** No non-empty pipeline runs a single step as written, whatever its
      window; with `seq` the 1-based position, the default window runs the
      first step. */
  lemma ExecuteAsWrittenNeverRuns<D>(steps: seq<Operator<D>>, context: Context)
    requires steps != []
    ensures ExecuteAsWritten(steps) == Err(AttributeError("seq"))
    ensures Execution(steps, 0, 0, None, context, None).ran != []
  {
    assert InWindow(1, 0, None);
  }

  /** `Pipeline`: name, version, shared context, the step list and the run
      timestamps. */
  /** The operators at the positions `ran`. */
  function StepsAt<D>(steps: seq<Operator<D>>, ran: seq<nat>): set<Operator<D>>
  {
    if ran == [] then {}
    else StepsAt(steps, ran[..|ran| - 1]) + (if ran[|ran| - 1] < |steps| then {steps[ran[|ran| - 1]]} else {})
  }

  lemma {:induction false} StepsAtWithin<D>(steps: seq<Operator<D>>, ran: seq<nat>)
    ensures forall s :: s in StepsAt(steps, ran) ==> s in steps
  {
    if ran != [] {
      StepsAtWithin(steps, ran[..|ran| - 1]);
    }
  }

  lemma StepsAtAppend<D>(steps: seq<Operator<D>>, ran: seq<nat>, i: nat)
    requires i < |steps|
    ensures StepsAt(steps, ran + [i]) == StepsAt(steps, ran) + {steps[i]}
  {
    assert (ran + [i])[..|ran|] == ran;
  }

  /** The three timestamps of an operator. */
  datatype Stamps = Stamps(started: Option<int>, stopped: Option<int>, duration: Option<int>)

  ghost function StampsOf<D>(s: Operator<D>): Stamps
    reads s
  {
    Stamps(s.started, s.stopped, s.duration)
  }

  /** The timestamps of each step, by position. */
  ghost function StampsOfSteps<D>(steps: seq<Operator<D>>): (stamps: seq<Stamps>)
    reads set s | s in steps
    ensures |stamps| == |steps| && forall j :: 0 <= j < |steps| ==> stamps[j] == StampsOf(steps[j])
  {
    seq(|steps|, j reads set s | s in steps requires 0 <= j < |steps| => StampsOf(steps[j]))
  }

  /** The operator's timestamps are those it had before. */
  twostate predicate Kept<D>(s: Operator<D>)
    reads s
  {
    StampsOf(s) == old(StampsOf(s))
  }

  /** The operator was started between the clock readings `lo` and `hi`. */
  ghost predicate Started<D>(s: Operator<D>, lo: int, hi: int)
    reads s
  {
    s.started.Some? && lo <= s.started.value <= hi
  }

  /** The operator was stopped between `lo` and `hi` and has a duration. */
  ghost predicate Stopped<D>(s: Operator<D>, lo: int, hi: int)
    reads s
  {
    s.stopped.Some? && lo <= s.stopped.value <= hi && s.duration.Some?
  }

  /** The stamps part way through `_execute`: a step at no position of `ran`
      still has its stamps of `entry`; every step that ran was started, and
      every step that completed was stopped, between `lo` and `hi`. */
  ghost predicate Stamped<D>(steps: seq<Operator<D>>, ran: seq<nat>, completed: seq<nat>, entry: seq<Stamps>,
                             lo: int, hi: int)
    reads (set s | s in steps) + StepsAt(steps, ran) + StepsAt(steps, completed)
  {
    && |entry| == |steps|
    && (forall j :: 0 <= j < |steps| && steps[j] !in StepsAt(steps, ran) ==> StampsOf(steps[j]) == entry[j])
    && (forall s :: s in StepsAt(steps, ran) ==> Started(s, lo, hi))
    && (forall s :: s in StepsAt(steps, completed) ==> Stopped(s, lo, hi))
  }

  /** The positions whose step ran to its end: all of them, or all but the
      last when a step raised. */
  function Completed<D>(r: Result<Option<D>>, ran: seq<nat>): seq<nat>
  {
    if r.Err? && ran != [] then ran[..|ran| - 1] else ran
  }

  /** `step.run` for the step at position `i`: it is started, and stopped
      if it returns; the steps that ran before keep their stamps unless one
      of them is this very operator. */
  method RunStep<D>(steps: seq<Operator<D>>, i: nat, data: Option<D>, context: Context, clock: Clock,
                    ghost lo: int, ghost ran: seq<nat>, ghost entry: seq<Stamps>)
    returns (result: Result<Option<D>>)
    requires i < |steps| && lo <= clock.now
    requires Stamped(steps, ran, ran, entry, lo, clock.now)
    modifies clock, steps[i]
    ensures result == steps[i].execute(data, context)
    ensures old(clock.now) <= clock.now
    ensures Stamped(steps, ran + [i], if result.Ok? then ran + [i] else ran, entry, lo, clock.now)
  {
    ghost var before := clock.now;
    result := steps[i].Run(data, context, clock);
    StepsAtAppend(steps, ran, i);
    StepsAtWithin(steps, ran);
    forall s | s in StepsAt(steps, ran)
      ensures Started(s, lo, clock.now) && Stopped(s, lo, clock.now)
    {
      assert old(Started(s, lo, before) && Stopped(s, lo, before));
      if s != steps[i] {
        assert StampsOf(s) == old(StampsOf(s));
      }
    }
    forall j | 0 <= j < |steps| && steps[j] !in StepsAt(steps, ran + [i])
      ensures StampsOf(steps[j]) == entry[j]
    {
      assert steps[j] != steps[i] && old(StampsOf(steps[j])) == entry[j];
    }
  }

  /** The loop of `_execute` over `steps`: the result and the positions that
      ran are those of `Execution`; each operator that ran has been started
      within the call, each that returned has also been stopped, and every
      other operator keeps its stamps. */
  method ExecuteSteps<D>(steps: seq<Operator<D>>, start: int, stop: Option<int>, context: Context, clock: Clock)
    returns (r: Result<Option<D>>, ghost ran: seq<nat>)
    modifies clock, set s | s in steps
    ensures r == Execution(steps, 0, start, stop, context, None).result
    ensures ran == Execution(steps, 0, start, stop, context, None).ran
    ensures old(clock.now) <= clock.now
    ensures forall j :: 0 <= j < |steps| && steps[j] !in StepsAt(steps, ran) ==> Kept(steps[j])
    ensures forall s :: s in StepsAt(steps, ran) ==> Started(s, old(clock.now), clock.now)
    ensures forall s :: s in StepsAt(steps, Completed(r, ran)) ==> Stopped(s, old(clock.now), clock.now)
  {
    ghost var lo := clock.now;
    ghost var entry := StampsOfSteps(steps);
    var data: Option<D> := None;
    ghost var inputs: seq<Option<D>> := [];
    ghost var outputs: seq<Option<D>> := [];
    ran := [];
    var i := 0;
    while i < |steps|
      invariant 0 <= i <= |steps|
      invariant lo == old(clock.now) <= clock.now
      invariant After(ran, inputs, outputs, Execution(steps, i, start, stop, context, data))
             == Execution(steps, 0, start, stop, context, None)
      invariant Stamped(steps, ran, ran, entry, lo, clock.now)
    {
      ghost var completed := ran;
      var raised;
      raised, data, ran, inputs, outputs := Advance(steps, i, start, stop, context, clock, data, lo, ran, inputs, outputs, entry);
      if raised.Some? {
        r := Err(raised.value);
        assert Completed(r, ran) == completed;
        forall j | 0 <= j < |steps| && steps[j] !in StepsAt(steps, ran) ensures Kept(steps[j]) {
          assert StampsOf(steps[j]) == entry[j] == old(StampsOf(steps[j]));
        }
        return;
      }
      i := i + 1;
    }
    assert ran + [] == ran && inputs + [] == inputs && outputs + [] == outputs;
    r := Ok(data);
    forall j | 0 <= j < |steps| && steps[j] !in StepsAt(steps, ran) ensures Kept(steps[j]) {
      assert StampsOf(steps[j]) == entry[j] == old(StampsOf(steps[j]));
    }
  }

  /** One turn of the `_execute` loop at position `i`. A step outside the
      window is skipped; a step inside it runs, and then either the walk from
      `i` is this turn's record followed by the walk from `i + 1`, or the
      step raised and the walk ends here. */
  method Advance<D>(steps: seq<Operator<D>>, i: nat, start: int, stop: Option<int>, context: Context, clock: Clock,
                    data: Option<D>, ghost lo: int, ghost ran: seq<nat>, ghost inputs: seq<Option<D>>,
                    ghost outputs: seq<Option<D>>, ghost entry: seq<Stamps>)
    returns (raised: Option<Error>, data': Option<D>, ghost ran': seq<nat>, ghost inputs': seq<Option<D>>,
             ghost outputs': seq<Option<D>>)
    requires i < |steps| && lo <= clock.now
    requires Stamped(steps, ran, ran, entry, lo, clock.now)
    modifies clock, steps[i]
    ensures old(clock.now) <= clock.now
    ensures raised.None? ==>
              && After(ran', inputs', outputs', Execution(steps, i + 1, start, stop, context, data'))
                 == After(ran, inputs, outputs, Execution(steps, i, start, stop, context, data))
              && Stamped(steps, ran', ran', entry, lo, clock.now)
    ensures raised.Some? ==>
              && Execution(steps, i, start, stop, context, data) == Walk(Err(raised.value), [i], [data], [])
              && ran' == ran + [i] && Stamped(steps, ran', ran, entry, lo, clock.now)
  {
    data', ran', inputs', outputs' := data, ran, inputs, outputs;
    raised := None;
    if InWindow(i + 1, start, stop) {
      var result := RunStep(steps, i, data, context, clock, lo, ran, entry);
      ran' := ran + [i];
      if result.Err? {
        raised := Some(result.error);
      } else {
        ExecutionStepOk(steps, i, start, stop, context, data, result.value, ran, inputs, outputs);
        inputs' := inputs + [data];
        outputs' := outputs + [result.value];
        data' := if result.value.Some? then result.value else data;
      }
    }
  }

  class Pipeline<D> {
    const name: Option<string>
    const version: Option<string>
    const context: Context
    var steps: seq<Operator<D>>
    var started: Option<int>
    var stopped: Option<int>
    var duration: Option<int>

    constructor (name: Option<string>, version: Option<string>, context: Context)
      ensures this.name == name && this.version == version && this.context == context
      ensures steps == [] && started == None && stopped == None && duration == None
    {
      this.name := name;
      this.version := version;
      this.context := context;
      steps := [];
      started := None;
      stopped := None;
      duration := None;
    }

    /** `add_step`: appended at the end. */
    method AddStep(step: Operator<D>)
      modifies this
      ensures steps == old(steps) + [step]
      ensures started == old(started) && stopped == old(stopped) && duration == old(duration)
    {
      steps := steps + [step];
    }

    /** `add_steps`: appended at the end, in the given order. */
    method AddSteps(more: seq<Operator<D>>)
      modifies this
      ensures steps == old(steps) + more
      ensures started == old(started) && stopped == old(stopped) && duration == old(duration)
    {
      steps := steps + more;
    }

    /** `remove_step`: every step of that name goes, the rest stay in order;
        no error when there is none. */
    method RemoveStep(name: string)
      modifies this
      ensures steps == WithoutNamed(old(steps), name)
      ensures started == old(started) && stopped == old(stopped) && duration == old(duration)
    {
      var all, kept: seq<Operator<D>> := steps, [];
      var i := 0;
      while i < |all|
        invariant 0 <= i <= |all|
        invariant kept + WithoutNamed(all[i..], name) == WithoutNamed(all, name)
      {
        var rest := WithoutNamed(all[i + 1..], name);
        assert all[i..][0] == all[i] && all[i..][1..] == all[i + 1..];
        if all[i].name != name {
          assert WithoutNamed(all[i..], name) == [all[i]] + rest;
          assert kept + ([all[i]] + rest) == (kept + [all[i]]) + rest;
          kept := kept + [all[i]];
        } else {
          assert WithoutNamed(all[i..], name) == rest;
        }
        i := i + 1;
      }
      assert all[i..] == [];
      assert kept + [] == kept;
      steps := kept;
    }

    /** `get_step`: the first step of that name, `IndexError` when there is
        none. */
    method GetStep(name: string) returns (r: Result<Operator<D>>)
      ensures r.Ok? <==> exists j :: 0 <= j < |steps| && steps[j].name == name
      ensures r.Ok? ==> r.value == steps[FirstNamed(steps, name)] && r.value.name == name
      ensures r.Err? ==> r.error == IndexError
    {
      var i := 0;
      while i < |steps|
        invariant 0 <= i <= |steps|
        invariant forall j :: 0 <= j < i ==> steps[j].name != name
      {
        if steps[i].name == name {
          assert FirstNamed(steps, name) == i by {
            var f := FirstNamed(steps, name);
            assert !(f < i) && !(i < f);
          }
          return Ok(steps[i]);
        }
        i := i + 1;
      }
      return Err(IndexError);
    }

    /** `_execute` with the missing `seq` read as the 1-based position:
        each step in the window runs once, in order, receiving the carried
        data and the shared context; a raising step stops the loop. */
    method Execute(start: int, stop: Option<int>, clock: Clock) returns (r: Result<Option<D>>, ghost ran: seq<nat>)
      modifies clock, set s | s in steps
      ensures r == Execution(steps, 0, start, stop, context, None).result
      ensures ran == Execution(steps, 0, start, stop, context, None).ran
      ensures old(clock.now) <= clock.now
      ensures forall j :: 0 <= j < |steps| && steps[j] !in StepsAt(steps, ran) ==> Kept(steps[j])
      ensures forall s :: s in StepsAt(steps, ran) ==> Started(s, old(clock.now), clock.now)
      ensures forall s :: s in StepsAt(steps, Completed(r, ran)) ==> Stopped(s, old(clock.now), clock.now)
    {
      r, ran := ExecuteSteps(steps, start, stop, context, clock);
    }

    /** `run`: setup stamps the start, the steps execute (each that ran is
        started, each that returned also stopped, the rest untouched), and
        teardown stamps the stop and the duration; an exception skips
        teardown. The final carried data, which the source discards, is
        returned. */
    method Run(start: int, stop: Option<int>, clock: Clock) returns (r: Result<Option<D>>)
      modifies this, clock, set s | s in steps
      ensures steps == old(steps)
      ensures r == Execution(steps, 0, start, stop, context, None).result
      ensures var ran := Execution(steps, 0, start, stop, context, None).ran;
                forall j :: 0 <= j < |steps| && steps[j] !in StepsAt(steps, ran) ==> Kept(steps[j])
      ensures forall s :: s in StepsAt(steps, Execution(steps, 0, start, stop, context, None).ran) ==>
                Started(s, old(clock.now), clock.now)
      ensures forall s :: s in StepsAt(steps, Completed(r, Execution(steps, 0, start, stop, context, None).ran)) ==>
                Stopped(s, old(clock.now), clock.now)
      ensures started.Some? && old(clock.now) <= started.value <= clock.now
      ensures r.Ok? ==> stopped == Some(clock.now) && duration == Some(clock.now - started.value)
      ensures r.Err? ==> stopped == old(stopped) && duration == old(duration)
    {
      var t := clock.Read();
      started := Some(t);
      ghost var ran;
      r, ran := Execute(start, stop, clock);
      ghost var mid := clock.now;
      label Executed:
      if r.Ok? {
        var u := clock.Read();
        stopped := Some(u);
        duration := Some(u - t);
      }
      StepsAtWithin(steps, ran);
      forall s | s in StepsAt(steps, ran) ensures Started(s, old(clock.now), clock.now) {
        assert old@Executed(Started(s, t, mid));
      }
      StepsAtWithin(steps, Completed(r, ran));
      forall s | s in StepsAt(steps, Completed(r, ran)) ensures Stopped(s, old(clock.now), clock.now) {
        assert old@Executed(Stopped(s, t, mid));
      }
    }
  }

  // ---------------------------------------------------------------------------
  // PipelineBuilder
  // ---------------------------------------------------------------------------

  /** One entry of the `steps` section; a field is `None` when its key is
      missing, and `name` is `Some(None)` for a null name. */
  datatype StepConfig = StepConfig(moduleName: Option<string>, operator: Option<string>,
                                   name: Option<Option<string>>, params: Option<Params>)

  /** The operator classes each importable module defines; a class builds
      its payload from its params. */
  type Registry<!D> = map<string, map<string, Params -> Behaviour<D>>>

  /** Why one step entry cannot be built, in the order `_build_steps`
      finds out: the module key, the import, the operator key, the class
      lookup, the name key, the params key. */
  function StepProblem<D>(c: StepConfig, registry: Registry<D>): Option<Error>
  {
    if c.moduleName.None? then Some(KeyError("module"))
    else if c.moduleName.value !in registry then Some(ModuleNotFound(c.moduleName.value))
    else if c.operator.None? then Some(KeyError("operator"))
    else if c.operator.value !in registry[c.moduleName.value] then Some(AttributeError(c.operator.value))
    else if c.name.None? then Some(KeyError("name"))
    else if c.params.None? then Some(KeyError("params"))
    else None
  }

  /** The first problem among the entries, in config order. */
  function FirstProblem<D>(configs: seq<StepConfig>, registry: Registry<D>): (e: Option<Error>)
    ensures e.None? <==> forall i :: 0 <= i < |configs| ==> StepProblem(configs[i], registry).None?
  {
    if configs == [] then None
    else if StepProblem(configs[0], registry).Some? then StepProblem(configs[0], registry)
    else
      var e := FirstProblem(configs[1..], registry);
      assert forall i :: 1 <= i < |configs| ==> configs[1..][i - 1] == configs[i];
      e
  }

  /** The operator an entry without problems builds. */
  ghost predicate BuiltFrom<D>(op: Operator<D>, c: StepConfig, registry: Registry<D>)
    requires StepProblem(c, registry).None?
  {
    && op.name == OperatorName(c.name.value)
    && op.params == c.params.value
    && op.execute == registry[c.moduleName.value][c.operator.value](c.params.value)
  }

  /** One entry without problems: its operator class instantiated with the
      entry's name and params. */
  method BuildStep<D>(c: StepConfig, registry: Registry<D>) returns (op: Operator<D>)
    requires StepProblem(c, registry).None?
    ensures fresh(op) && op.started.None? && BuiltFrom(op, c, registry)
  {
    op := new Operator(c.name.value, c.params.value, registry[c.moduleName.value][c.operator.value](c.params.value));
  }

  /** `_build_steps`: one operator per entry, in config order, or the first
      entry's problem. `KeyError`s are logged and raised again. */
  method BuildSteps<D>(configs: seq<StepConfig>, registry: Registry<D>) returns (r: Result<seq<Operator<D>>>)
    ensures r.Err? <==> FirstProblem(configs, registry).Some?
    ensures r.Err? ==> r.error == FirstProblem(configs, registry).value
    ensures r.Ok? ==> |r.value| == |configs|
    ensures r.Ok? ==> forall i :: 0 <= i < |configs| ==> BuiltFrom(r.value[i], configs[i], registry)
    ensures r.Ok? ==> forall i :: 0 <= i < |configs| ==> fresh(r.value[i]) && r.value[i].started.None?
  {
    var steps: seq<Operator<D>> := [];
    var i := 0;
    while i < |configs|
      invariant 0 <= i <= |configs|
      invariant FirstProblem(configs, registry) == FirstProblem(configs[i..], registry)
      invariant |steps| == i
      invariant forall j :: 0 <= j < i ==> StepProblem(configs[j], registry).None? && BuiltFrom(steps[j], configs[j], registry)
      invariant forall j :: 0 <= j < i ==> fresh(steps[j]) && steps[j].started.None?
    {
      assert configs[i..][0] == configs[i] && configs[i..][1..] == configs[i + 1..];
      var c := configs[i];
      var problem := StepProblem(c, registry);
      if problem.Some? {
        return Err(problem.value);
      }
      var op := BuildStep(c, registry);
      forall j | 0 <= j < i + 1
        ensures StepProblem(configs[j], registry).None? && BuiltFrom((steps + [op])[j], configs[j], registry)
      {
        if j < i {
          assert (steps + [op])[j] == steps[j];
        }
      }
      steps := steps + [op];
      i := i + 1;
    }
    assert configs[i..] == [];
    r := Ok(steps);
  }

  /** The pipeline configuration: `pipeline_name`, `version` and `steps`,
      each `None` when its key is missing. */
  datatype PipelineConfig = PipelineConfig(pipelineName: Option<string>, version: Option<string>,
                                           steps: Option<seq<StepConfig>>)

  /** `PipelineBuilder`: the pipeline it last built, `None` after `reset`. */
  class PipelineBuilder<D> {
    var pipeline: Option<Pipeline<D>>

    constructor ()
      ensures pipeline == None
    {
      pipeline := None;
    }

    /** `reset`. */
    method Reset()
      modifies this
      ensures pipeline == None
    {
      pipeline := None;
    }

    /** `build` on the configuration `_get_config` reads: a pipeline named
        after the config, with the configured steps appended. A missing
        `steps` section fails on `None.items()`; a failed step entry leaves
        the builder as it was. */
    method Build(config: PipelineConfig, registry: Registry<D>) returns (error: Option<Error>)
      modifies this
      ensures config.steps.None? ==> error == Some(AttributeError("items")) && pipeline == old(pipeline)
      ensures config.steps.Some? ==> error == FirstProblem(config.steps.value, registry)
      ensures error.Some? ==> pipeline == old(pipeline)
      ensures error.None? ==> pipeline.Some? && fresh(pipeline.value)
      ensures error.None? ==> pipeline.value.name == config.pipelineName && pipeline.value.version == config.version
      ensures error.None? ==> pipeline.value.context == map[] && |pipeline.value.steps| == |config.steps.value|
      ensures error.None? ==> forall i :: 0 <= i < |config.steps.value| ==>
        BuiltFrom(pipeline.value.steps[i], config.steps.value[i], registry)
    {
      var p := new Pipeline(config.pipelineName, config.version, map[]);
      if config.steps.None? {
        return Some(AttributeError("items"));
      }
      var built := BuildSteps(config.steps.value, registry);
      if built.Err? {
        return Some(built.error);
      }
      p.AddSteps(built.value);
      assert p.steps == built.value;
      pipeline := Some(p);
      error := None;
    }
  }
}
