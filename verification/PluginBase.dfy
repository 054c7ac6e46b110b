/** The plugin base class of internal/plugin/types/base.go and state.go: a five-state
    machine around lifecycle hooks, and a stack of middleware around execution. */
module PluginBase {
  import opened Common

  datatype PluginState = Uninitialized | Initialized | Running | Stopped | Failed

  datatype PluginError = InvalidState | ConfigInvalid | HookFailed | BeforeFailed | HandlerFailed | ExecuteFailed

  /** The calls a plugin makes into its hooks, its middleware and its error handler. */
  datatype Call = OnLoad | OnStart | OnStop | OnUnload | OnExecute | OnComplete
                | Before(i: nat) | After(i: nat) | OnError(i: nat) | Handle

  predicate ValidTransition(from: PluginState, to: PluginState) {
    match from
    case Uninitialized => to == Initialized
    case Initialized => to == Running || to == Failed
    case Running => to == Stopped || to == Failed
    case Stopped => to == Running || to == Uninitialized || to == Failed
    case Failed => to == Uninitialized
  }

  /** One plugin instance: calls records every hook and middleware call so far. */
  datatype Plugin = Plugin(state: PluginState, config: Option<string>, hooks: bool, calls: seq<Call>)

  function NewPlugin(hooks: bool): Plugin {
    Plugin(Uninitialized, None, hooks, [])
  }

  function Calling(p: Plugin, c: Call): Plugin {
    if p.hooks then p.(calls := p.calls + [c]) else p
  }

  /** Without hooks no hook can fail. */
  predicate HookOk(p: Plugin, ok: bool) {
    !p.hooks || ok
  }

  function SetState(p: Plugin, to: PluginState): (Plugin, Result<(), PluginError>) {
    if ValidTransition(p.state, to) then (p.(state := to), Ok(())) else (p, Err(InvalidState))
  }

  function Load(p: Plugin, config: string, valid: bool, ok: bool): (Plugin, Result<(), PluginError>) {
    if p.state != Uninitialized then (p, Err(InvalidState))
    else if !valid then (p.(state := Failed), Err(ConfigInvalid))
    else
      var q := Calling(p.(config := Some(config)), OnLoad);
      if !HookOk(p, ok) then (q.(state := Failed), Err(HookFailed)) else SetState(q, Initialized)
  }

  function Start(p: Plugin, ok: bool): (Plugin, Result<(), PluginError>) {
    if p.state != Initialized then (p, Err(InvalidState))
    else
      var q := Calling(p, OnStart);
      if !HookOk(p, ok) then (q.(state := Failed), Err(HookFailed)) else SetState(q, Running)
  }

  function Stop(p: Plugin, ok: bool): (Plugin, Result<(), PluginError>) {
    if p.state != Running then (p, Err(InvalidState))
    else
      var q := Calling(p, OnStop);
      if !HookOk(p, ok) then (q.(state := Failed), Err(HookFailed)) else SetState(q, Stopped)
  }

  /** The configuration is gone even when the transition at the end is refused. */
  function Unload(p: Plugin, ok: bool): (Plugin, Result<(), PluginError>) {
    if p.state == Uninitialized then (p, Err(InvalidState))
    else
      var q := Calling(p, OnUnload);
      if !HookOk(p, ok) then (q.(state := Failed), Err(HookFailed)) else SetState(q.(config := None), Uninitialized)
  }

  // ---------- execution ----------

  /** What the middleware and the hooks return in one execution: before holds one
      answer per middleware; closingFails the middleware whose After or OnError fails;
      handler the answer of the error handler to a failed OnExecute, if there is one. */
  datatype Outcome = Outcome(before: seq<bool>, execOk: bool, completeOk: bool, closingFails: set<nat>,
                             handler: Option<bool>)

  /** A failure that is not returned goes to the error handler, if there is one. */
  function Reported(o: Outcome, ok: bool): seq<Call> {
    if o.handler.Some? && !ok then [Handle] else []
  }

  /** The first middleware whose Before fails. */
  function FirstFailure(before: seq<bool>): Option<nat> {
    if before == [] then None
    else if !before[0] then Some(0)
    else
      match FirstFailure(before[1..])
      case None => None
      case Some(k) => Some(k + 1)
  }

  /** The well-nested trace of middleware i and everything inside it: what a Before
      opens is closed by its own After, or by its own OnError when a Before failed, and a
      failing close is reported before the next one. */
  function Nested(o: Outcome, i: nat, failed: Option<nat>, hooks: bool): seq<Call>
    decreases |o.before| - i
  {
    if failed.Some? && i > failed.value then []
    else if i >= |o.before| then Core(o, hooks)
    else [Before(i)] + Nested(o, i + 1, failed, hooks) + Close(o, i, failed.Some?)
  }

  function Core(o: Outcome, hooks: bool): seq<Call> {
    if hooks then [OnExecute, OnComplete] + Reported(o, o.completeOk) else []
  }

  function Close(o: Outcome, i: nat, error: bool): seq<Call> {
    [if error then OnError(i) else After(i)] + Reported(o, i !in o.closingFails)
  }

  /** A failed OnExecute is handed to the error handler last of all. */
  function Trace(o: Outcome, hooks: bool): seq<Call> {
    var failed := FirstFailure(o.before);
    Nested(o, 0, failed, hooks) + if failed.None? && hooks then Reported(o, o.execOk) else []
  }

  function ExecuteResult(p: Plugin, o: Outcome): Result<(), PluginError> {
    if p.state != Running then Err(InvalidState)
    else if FirstFailure(o.before).Some? then Err(BeforeFailed)
    else if p.hooks && !o.execOk then Err(if o.handler == Some(false) then HandlerFailed else ExecuteFailed)
    else Ok(())
  }

  function Execute(p: Plugin, o: Outcome): (Plugin, Result<(), PluginError>) {
    if p.state != Running then (p, Err(InvalidState))
    else (p.(calls := p.calls + Trace(o, p.hooks)), ExecuteResult(p, o))
  }

  /** The calls a loop of Befores has made and the calls its closing loop will make. */
  function Opening(i: nat, k: nat): seq<Call>
    requires i <= k
    decreases k - i
  {
    if i == k then [] else [Before(i)] + Opening(i + 1, k)
  }

  function Closing(o: Outcome, i: nat, k: nat, error: bool): seq<Call>
    requires i <= k
    decreases k - i
  {
    if i == k then [] else Closing(o, i + 1, k, error) + Close(o, i, error)
  }

  lemma {:induction false} OpeningMore(i: nat, k: nat)
    requires i <= k
    ensures Opening(i, k + 1) == Opening(i, k) + [Before(k)]
    decreases k - i
  {
    if i < k { OpeningMore(i + 1, k); }
  }

  lemma {:induction false} ClosingMore(o: Outcome, i: nat, k: nat, error: bool)
    requires i <= k
    ensures Closing(o, i, k + 1, error) == Close(o, k, error) + Closing(o, i, k, error)
    decreases k - i
  {
    hide Close;
    if i < k {
      ClosingMore(o, i + 1, k, error);
      AppendAssoc(Close(o, k, error), Closing(o, i + 1, k, error), Close(o, i, error));
    } else {
      assert Closing(o, i, i, error) == [] && Closing(o, i + 1, i + 1, error) == [];
    }
  }

  /** The trace of two loops, one up and one down, is well nested. */
  lemma {:induction false} LoopsNest(o: Outcome, i: nat, failed: Option<nat>, hooks: bool)
    requires failed.Some? ==> i <= failed.value < |o.before|
    requires i <= |o.before|
    ensures failed.Some? ==>
              Nested(o, i, failed, hooks) == Opening(i, failed.value + 1) + Closing(o, i, failed.value + 1, true)
    ensures failed.None? ==>
              Nested(o, i, failed, hooks) == Opening(i, |o.before|) + Core(o, hooks) + Closing(o, i, |o.before|, false)
    decreases |o.before| - i
  {
    hide Close, Core;
    if failed.Some? {
      if i < failed.value {
        LoopsNest(o, i + 1, failed, hooks);
        var open, close := Opening(i + 1, failed.value + 1), Closing(o, i + 1, failed.value + 1, true);
        AppendAssoc([Before(i)], open, close);
        AppendAssoc([Before(i)] + open, close, Close(o, i, true));
      } else {
        assert Nested(o, i + 1, failed, hooks) == [];
        assert Opening(i, i + 1) == [Before(i)] && Closing(o, i, i + 1, true) == Close(o, i, true);
      }
    } else if i < |o.before| {
      LoopsNest(o, i + 1, failed, hooks);
      var open, core, close := Opening(i + 1, |o.before|), Core(o, hooks), Closing(o, i + 1, |o.before|, false);
      AppendAssoc([Before(i)], open + core, close);
      AppendAssoc([Before(i)], open, core);
      AppendAssoc([Before(i)] + open + core, close, Close(o, i, false));
    }
  }

  lemma {:induction false} FirstFailureAt(before: seq<bool>, k: nat)
    requires k < |before| && !before[k] && forall j :: 0 <= j < k ==> before[j]
    ensures FirstFailure(before) == Some(k)
  {
    if k > 0 { FirstFailureAt(before[1..], k - 1); }
  }

  lemma {:induction false} NoFailure(before: seq<bool>)
    requires forall j :: 0 <= j < |before| ==> before[j]
    ensures FirstFailure(before) == None
  {
    if before != [] { NoFailure(before[1..]); }
  }

  // ---------- the class ----------

  class SmartPlugin {
    var state: PluginState
    var config: Option<string>
    const hooks: bool
    var calls: seq<Call>

    constructor (hooks: bool)
      ensures Contents() == NewPlugin(hooks)
    {
      this.hooks, state, config, calls := hooks, Uninitialized, None, [];
    }

    function Contents(): Plugin
      reads this
    {
      Plugin(state, config, hooks, calls)
    }

    method Note(c: Call)
      modifies this`calls
      ensures Contents() == Calling(old(Contents()), c)
    {
      if hooks { calls := calls + [c]; }
    }

    method ChangeState(to: PluginState) returns (r: Result<(), PluginError>)
      modifies this`state
      ensures (Contents(), r) == SetState(old(Contents()), to)
    {
      if !ValidTransition(state, to) { return Err(InvalidState); }
      state := to;
      return Ok(());
    }

    method LoadConfig(c: string, valid: bool, ok: bool) returns (r: Result<(), PluginError>)
      modifies this
      ensures (Contents(), r) == Load(old(Contents()), c, valid, ok)
    {
      if state != Uninitialized { return Err(InvalidState); }
      if !valid { state := Failed; return Err(ConfigInvalid); }
      config := Some(c);
      Note(OnLoad);
      if hooks && !ok { state := Failed; return Err(HookFailed); }
      r := ChangeState(Initialized);
    }

    method StartPlugin(ok: bool) returns (r: Result<(), PluginError>)
      modifies this
      ensures (Contents(), r) == Start(old(Contents()), ok)
    {
      if state != Initialized { return Err(InvalidState); }
      Note(OnStart);
      if hooks && !ok { state := Failed; return Err(HookFailed); }
      r := ChangeState(Running);
    }

    method StopPlugin(ok: bool) returns (r: Result<(), PluginError>)
      modifies this
      ensures (Contents(), r) == Stop(old(Contents()), ok)
    {
      if state != Running { return Err(InvalidState); }
      Note(OnStop);
      if hooks && !ok { state := Failed; return Err(HookFailed); }
      r := ChangeState(Stopped);
    }

    method UnloadPlugin(ok: bool) returns (r: Result<(), PluginError>)
      modifies this
      ensures (Contents(), r) == Unload(old(Contents()), ok)
    {
      if state == Uninitialized { return Err(InvalidState); }
      Note(OnUnload);
      if hooks && !ok { state := Failed; return Err(HookFailed); }
      config := None;
      r := ChangeState(Uninitialized);
    }

    /** The trace of an execution is well nested for every middleware list, whatever
        After and OnExecute return. */
    method ExecutePlugin(o: Outcome) returns (r: Result<(), PluginError>)
      modifies this`calls
      ensures (Contents(), r) == Execute(old(Contents()), o)
    {
      hide Nested, Core, Close, Closing, Opening;
      if state != Running { return Err(InvalidState); }
      var n := |o.before|;
      ghost var start := calls;
      assert Opening(0, 0) == [] by { NothingOpened(); }
      for i := 0 to n
        invariant calls == start + Opening(0, i)
        invariant forall j :: 0 <= j < i ==> o.before[j]
      {
        calls := calls + [Before(i)];
        OpeningMore(0, i);
        AppendAssoc(start, Opening(0, i), [Before(i)]);
        if !o.before[i] {
          CloseAll(o, i + 1, true);
          FirstFailureAt(o.before, i);
          LoopsNest(o, 0, Some(i), hooks);
          AppendAssoc(start, Opening(0, i + 1), Closing(o, 0, i + 1, true));
          assert Nested(o, 0, Some(i), hooks) + [] == Nested(o, 0, Some(i), hooks);
          return Err(BeforeFailed);
        }
      }
      NoFailure(o.before);
      LoopsNest(o, 0, None, hooks);
      ExecuteCore(o);
      CloseAll(o, n, false);
      AppendAssoc(start, Opening(0, n), Core(o, hooks));
      AppendAssoc(start, Opening(0, n) + Core(o, hooks), Closing(o, 0, n, false));
      assert calls == start + Nested(o, 0, None, hooks);
      assert Nested(o, 0, None, hooks) + [] == Nested(o, 0, None, hooks);
      if hooks && !o.execOk {
        AppendAssoc(start, Nested(o, 0, None, hooks), [Handle]);
        if o.handler.Some? {
          calls := calls + [Handle];
          if o.handler == Some(false) { return Err(HandlerFailed); }
        }
        return Err(ExecuteFailed);
      }
      return Ok(());
    }

    /** OnExecute and OnExecuteComplete. */
    method ExecuteCore(o: Outcome)
      modifies this`calls
      ensures calls == old(calls) + Core(o, hooks)
    {
      if hooks { calls := calls + [OnExecute]; }
      if hooks {
        calls := calls + [OnComplete];
        if !o.completeOk { ReportError(o); }
      }
    }

    /** HandleError: the handler's own answer is dropped. */
    method ReportError(o: Outcome)
      modifies this`calls
      ensures calls == old(calls) + Reported(o, false)
    {
      if o.handler.Some? { calls := calls + [Handle]; }
    }

    /** The reverse loop over the first k middleware. */
    method CloseAll(o: Outcome, k: nat, error: bool)
      modifies this`calls
      ensures calls == old(calls) + Closing(o, 0, k, error)
    {
      var i := k;
      while i > 0
        invariant 0 <= i <= k
        invariant calls + Closing(o, 0, i, error) == old(calls) + Closing(o, 0, k, error)
      {
        i := i - 1;
        ghost var before := calls;
        ClosingMore(o, 0, i, error);
        calls := calls + [if error then OnError(i) else After(i)];
        if i in o.closingFails { ReportError(o); }
        assert calls == before + Close(o, i, error);
        AppendAssoc(before, Close(o, i, error), Closing(o, 0, i, error));
      }
    }
  }

  lemma NothingOpened()
    ensures Opening(0, 0) == []
  {
  }

  // ---------- no execution outside load and unload ----------

  /** What the calls so far have set up. */
  datatype Phase = Phase(loaded: bool, started: bool)

  function PhaseOf(calls: seq<Call>): Phase {
    if calls == [] then Phase(false, false)
    else
      var ph := PhaseOf(calls[..|calls| - 1]);
      match calls[|calls| - 1]
      case OnLoad => Phase(true, false)
      case OnStart => ph.(started := true)
      case OnStop => ph.(started := false)
      case OnUnload => Phase(false, false)
      case _ => ph
  }

  /** OnExecute runs only after OnLoad and OnStart and before OnStop and OnUnload. */
  ghost predicate WellUsed(calls: seq<Call>) {
    forall k :: 0 <= k < |calls| && calls[k] == OnExecute ==> PhaseOf(calls[..k]) == Phase(true, true)
  }

  datatype Action = DoLoad(config: string, valid: bool, ok: bool) | DoStart(ok: bool) | DoStop(ok: bool)
                  | DoUnload(ok: bool) | DoExecute(outcome: Outcome)

  function Do(p: Plugin, a: Action): Plugin {
    match a
    case DoLoad(c, v, ok) => Load(p, c, v, ok).0
    case DoStart(ok) => Start(p, ok).0
    case DoStop(ok) => Stop(p, ok).0
    case DoUnload(ok) => Unload(p, ok).0
    case DoExecute(o) => Execute(p, o).0
  }

  function DoAll(p: Plugin, run: seq<Action>): Plugin {
    if run == [] then p else Do(DoAll(p, run[..|run| - 1]), run[|run| - 1])
  }

  /** An Unload whose OnUnload succeeds on a plugin that is initialized or running: it is
      refused, and the plugin goes on as if it were still loaded. */
  predicate TooEarly(p: Plugin, a: Action) {
    a.DoUnload? && a.ok && p.hooks && (p.state == Initialized || p.state == Running)
  }

  ghost predicate UnloadsInTime(p: Plugin, run: seq<Action>) {
    run != [] ==>
      UnloadsInTime(p, run[..|run| - 1]) && !TooEarly(DoAll(p, run[..|run| - 1]), run[|run| - 1])
  }

  ghost predicate InOrder(p: Plugin) {
    && WellUsed(p.calls)
    && (p.hooks && p.state == Initialized ==> PhaseOf(p.calls).loaded)
    && (p.hooks && p.state == Running ==> PhaseOf(p.calls) == Phase(true, true))
    && (!p.hooks ==> OnExecute !in p.calls)
  }

  lemma OneMoreCall(calls: seq<Call>, c: Call)
    requires WellUsed(calls) && (c == OnExecute ==> PhaseOf(calls) == Phase(true, true))
    ensures WellUsed(calls + [c])
  {
    var all := calls + [c];
    forall k | 0 <= k < |all| && all[k] == OnExecute ensures PhaseOf(all[..k]) == Phase(true, true) {
      if k < |calls| {
        assert all[..k] == calls[..k];
      } else {
        assert all[..k] == calls;
      }
    }
  }

  lemma PhaseMore(calls: seq<Call>, c: Call)
    ensures PhaseOf(calls + [c]) == match c
                                    case OnLoad => Phase(true, false)
                                    case OnStart => PhaseOf(calls).(started := true)
                                    case OnStop => PhaseOf(calls).(started := false)
                                    case OnUnload => Phase(false, false)
                                    case _ => PhaseOf(calls)
  {
    assert (calls + [c])[..|calls|] == calls;
  }

  /** Calls into middleware and the error handler leave the phase as it is. */
  predicate Aside(c: Call) {
    c.Before? || c.After? || c.OnError? || c == Handle || c == OnComplete
  }

  lemma {:induction false} AsideUsed(calls: seq<Call>, more: seq<Call>)
    requires WellUsed(calls) && forall c :: c in more ==> Aside(c)
    ensures WellUsed(calls + more) && PhaseOf(calls + more) == PhaseOf(calls)
  {
    hide WellUsed, PhaseOf;
    if more == [] {
      assert calls + more == calls;
    } else {
      var front, c := more[..|more| - 1], more[|more| - 1];
      assert more == front + [c];
      assert Aside(c) by { assert c in more; }
      forall x | x in front ensures Aside(x) { assert x in more; }
      AsideUsed(calls, front);
      OneMoreCall(calls + front, c);
      PhaseMore(calls + front, c);
      assert calls + more == calls + front + [c];
    }
  }

  lemma CoreUsed(o: Outcome, calls: seq<Call>, hooks: bool)
    requires WellUsed(calls) && (hooks ==> PhaseOf(calls) == Phase(true, true))
    ensures WellUsed(calls + Core(o, hooks)) && PhaseOf(calls + Core(o, hooks)) == PhaseOf(calls)
  {
    hide WellUsed, PhaseOf;
    if hooks {
      var rest := [OnComplete] + Reported(o, o.completeOk);
      OneMoreCall(calls, OnExecute);
      PhaseMore(calls, OnExecute);
      AsideUsed(calls + [OnExecute], rest);
      AppendAssoc(calls, [OnExecute], rest);
      assert [OnExecute] + rest == Core(o, hooks);
    } else {
      assert calls + [] == calls;
    }
  }

  /** The calls of an execution leave the phase as it is and are allowed in it. */
  lemma {:induction false} NestedUsed(o: Outcome, calls: seq<Call>, i: nat, failed: Option<nat>, hooks: bool)
    requires WellUsed(calls) && (hooks ==> PhaseOf(calls) == Phase(true, true))
    ensures WellUsed(calls + Nested(o, i, failed, hooks))
    ensures PhaseOf(calls + Nested(o, i, failed, hooks)) == PhaseOf(calls)
    decreases |o.before| - i
  {
    hide WellUsed, PhaseOf, Core;
    if failed.Some? && i > failed.value {
      assert calls + [] == calls;
    } else if i >= |o.before| {
      CoreUsed(o, calls, hooks);
    } else {
      var inner, close := Nested(o, i + 1, failed, hooks), Close(o, i, failed.Some?);
      AsideUsed(calls, [Before(i)]);
      NestedUsed(o, calls + [Before(i)], i + 1, failed, hooks);
      AsideUsed(calls + [Before(i)] + inner, close);
      AppendAssoc(calls, [Before(i)], inner);
      AppendAssoc(calls, [Before(i)] + inner, close);
    }
  }

  /** Without hooks nothing of the plugin's own is executed. */
  lemma {:induction false} NoHooksNoExecute(o: Outcome, i: nat, failed: Option<nat>)
    ensures OnExecute !in Nested(o, i, failed, false)
    decreases |o.before| - i
  {
    if !(failed.Some? && i > failed.value) && i < |o.before| { NoHooksNoExecute(o, i + 1, failed); }
  }

  lemma ExecuteInOrder(p: Plugin, o: Outcome)
    requires InOrder(p) && p.state == Running
    ensures InOrder(Execute(p, o).0)
  {
    hide WellUsed, PhaseOf, Nested;
    var failed := FirstFailure(o.before);
    var nested := Nested(o, 0, failed, p.hooks);
    var last := if failed.None? && p.hooks then Reported(o, o.execOk) else [];
    NestedUsed(o, p.calls, 0, failed, p.hooks);
    AsideUsed(p.calls + nested, last);
    AppendAssoc(p.calls, nested, last);
    if !p.hooks { NoHooksNoExecute(o, 0, failed); }
  }

  lemma DoInOrder(p: Plugin, a: Action)
    requires InOrder(p) && !TooEarly(p, a)
    ensures InOrder(Do(p, a))
  {
    hide WellUsed, PhaseOf;
    match a
    case DoLoad(_, _, _) => OneMoreCall(p.calls, OnLoad); PhaseMore(p.calls, OnLoad);
    case DoStart(_) => OneMoreCall(p.calls, OnStart); PhaseMore(p.calls, OnStart);
    case DoStop(_) => OneMoreCall(p.calls, OnStop); PhaseMore(p.calls, OnStop);
    case DoUnload(_) => OneMoreCall(p.calls, OnUnload); PhaseMore(p.calls, OnUnload);
    case DoExecute(o) => if p.state == Running { ExecuteInOrder(p, o); }
  }

  /** Whatever is called in whatever order, OnExecute stays between load and unload as
      long as no unload comes too early. */
  lemma {:induction false} ExecutesInOrder(p: Plugin, run: seq<Action>)
    requires InOrder(p) && UnloadsInTime(p, run)
    ensures InOrder(DoAll(p, run))
  {
    if run != [] {
      ExecutesInOrder(p, run[..|run| - 1]);
      DoInOrder(DoAll(p, run[..|run| - 1]), run[|run| - 1]);
    }
  }

  /** So an instance that is never unloaded too early executes in order from its creation on. */
  lemma InstanceInOrder(hooks: bool, run: seq<Action>)
    requires UnloadsInTime(NewPlugin(hooks), run)
    ensures WellUsed(DoAll(NewPlugin(hooks), run).calls)
  {
    ExecutesInOrder(NewPlugin(hooks), run);
  }

  const BARE := Outcome([], true, true, {}, None)

  lemma BareTrace()
    ensures Trace(BARE, true) == [OnExecute, OnComplete]
  {
    assert Reported(BARE, true) == [];
    assert Core(BARE, true) == [OnExecute, OnComplete];
    assert Nested(BARE, 0, None, true) == [OnExecute, OnComplete];
  }

  /** An unload that comes too early clears the configuration, is refused, and lets an
      execution run after OnUnload without any further unload. */
  lemma UnloadTooEarly(p: Plugin, a: Action) returns (run: seq<Action>)
    requires TooEarly(p, a)
    ensures Unload(p, true).1 == Err(InvalidState) && Do(p, a).config == None
    ensures UnloadsInTime(Do(p, a), run) && !WellUsed(DoAll(Do(p, a), run).calls)
  {
    hide Trace, WellUsed;
    var q := Do(p, a);
    PhaseMore(p.calls, OnUnload);
    assert !PhaseOf(q.calls).loaded;
    assert DoAll(q, []) == q;
    if p.state == Initialized {
      run := [DoStart(true), DoExecute(BARE)];
      var r := Start(q, true).0;
      PhaseMore(q.calls, OnStart);
      assert run[..1] == [DoStart(true)] && run[..1][..0] == [];
      assert DoAll(q, run[..1]) == r && DoAll(q, run) == Execute(r, BARE).0;
      assert UnloadsInTime(q, run[..1]);
      ExecuteUnloaded(r);
    } else {
      run := [DoExecute(BARE)];
      assert run[..0] == [];
      assert DoAll(q, run) == Execute(q, BARE).0;
      ExecuteUnloaded(q);
    }
  }

  lemma ExecuteUnloaded(p: Plugin)
    requires p.state == Running && p.hooks && !PhaseOf(p.calls).loaded
    ensures !WellUsed(Execute(p, BARE).0.calls)
  {
    BareTrace();
    var all := Execute(p, BARE).0.calls;
    assert all[..|p.calls|] == p.calls && all[|p.calls|] == OnExecute;
  }

  /** The condition is exact: after a step, every continuation without a further early
      unload executes in order if and only if the step is not an early unload. */
  lemma InOrderExactly(p: Plugin, a: Action)
    requires InOrder(p)
    ensures (forall run :: UnloadsInTime(Do(p, a), run) ==> WellUsed(DoAll(Do(p, a), run).calls)) <==> !TooEarly(p, a)
  {
    hide UnloadsInTime, DoAll, WellUsed, Do, TooEarly;
    if TooEarly(p, a) {
      var run := UnloadTooEarly(p, a);
    } else {
      DoInOrder(p, a);
      forall run | UnloadsInTime(Do(p, a), run) ensures WellUsed(DoAll(Do(p, a), run).calls) {
        ExecutesInOrder(Do(p, a), run);
        InOrderUsed(DoAll(Do(p, a), run));
      }
    }
  }

  lemma InOrderUsed(p: Plugin)
    requires InOrder(p)
    ensures WellUsed(p.calls)
  {
  }
}
