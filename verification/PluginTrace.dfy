/** What one execution of a plugin calls, call by call, and what it answers
    (Execute of internal/plugin/types/base.go). */
module PluginTrace {
  import opened Common
  import opened PluginBase

  /** Middleware k is the first whose Before fails. */
  ghost predicate FailsFirst(o: Outcome, k: nat) {
    k < |o.before| && !o.before[k] && forall j :: 0 <= j < k ==> o.before[j]
  }

  ghost predicate NoneFails(o: Outcome) {
    forall j :: 0 <= j < |o.before| ==> o.before[j]
  }

  lemma OneOrNone(o: Outcome)
    ensures NoneFails(o) || exists k: nat :: FailsFirst(o, k)
  {
    if !NoneFails(o) { var _ := FirstOf(o, 0); }
  }

  lemma {:induction false} FirstOf(o: Outcome, i: nat) returns (k: nat)
    requires !NoneFails(o) && i <= |o.before| && forall j :: 0 <= j < i ==> o.before[j]
    ensures FailsFirst(o, k)
    decreases |o.before| - i
  {
    if o.before[i] { k := FirstOf(o, i + 1); } else { k := i; }
  }

  // ---------- the calls, one by one ----------

  /** The calls to hooks and middleware in order, the error handler left out. */
  ghost predicate Calls(o: Outcome, hooks: bool, cs: seq<Call>) {
    && (forall k: nat :: FailsFirst(o, k) ==>
          && |cs| == 2 * (k + 1)
          && (forall i: nat :: i <= k ==> cs[i] == Before(i))
          && (forall j: nat :: k < j < 2 * (k + 1) ==> cs[j] == OnError(2 * k + 1 - j)))
    && (NoneFails(o) ==>
          var n, core := |o.before|, if hooks then 2 else 0;
          && |cs| == n + core + n
          && (forall i: nat :: i < n ==> cs[i] == Before(i))
          && (hooks ==> cs[n] == OnExecute && cs[n + 1] == OnComplete)
          && (forall j: nat :: n + core <= j < n + core + n ==> cs[j] == After(n + core + n - 1 - j)))
  }

  /** A failure that Execute does not return. */
  predicate FailsQuietly(o: Outcome, c: Call) {
    match c
    case After(i) => i in o.closingFails
    case OnError(i) => i in o.closingFails
    case OnComplete => !o.completeOk
    case _ => false
  }

  /** The calls with the error handler called at once after each quiet failure. */
  function Announced(o: Outcome, cs: seq<Call>): seq<Call> {
    if cs == [] then []
    else
      var c := cs[|cs| - 1];
      Announced(o, cs[..|cs| - 1]) + [c] + if o.handler.Some? && FailsQuietly(o, c) then [Handle] else []
  }

  lemma {:induction false} AnnouncedBoth(o: Outcome, a: seq<Call>, b: seq<Call>)
    ensures Announced(o, a + b) == Announced(o, a) + Announced(o, b)
  {
    if b == [] {
      assert a + b == a;
    } else {
      var n := |b| - 1;
      assert (a + b)[..|a + b| - 1] == a + b[..n];
      AnnouncedBoth(o, a, b[..n]);
    }
  }

  lemma AnnouncedOne(o: Outcome, c: Call)
    ensures Announced(o, [c]) == [c] + if o.handler.Some? && FailsQuietly(o, c) then [Handle] else []
  {
    assert [c][..0] == [];
  }

  /** Calls with the error handler left out. */
  function Unhandled(cs: seq<Call>): seq<Call> {
    Keep(cs, c => c != Handle)
  }

  lemma UnhandledMore(cs: seq<Call>, c: Call)
    ensures Unhandled(cs + [c]) == if c == Handle then Unhandled(cs) else Unhandled(cs) + [c]
  {
    KeepMore(cs, c, x => x != Handle);
  }

  lemma {:induction false} AnnouncedKeeps(o: Outcome, cs: seq<Call>)
    requires Handle !in cs
    ensures Unhandled(Announced(o, cs)) == cs
  {
    if cs != [] {
      hide Unhandled, FailsQuietly;
      var n := |cs| - 1;
      var before := Announced(o, cs[..n]);
      AnnouncedKeeps(o, cs[..n]);
      UnhandledMore(before, cs[n]);
      UnhandledMore(before + [cs[n]], Handle);
      assert before + [cs[n]] + [] == before + [cs[n]];
      assert cs == cs[..n] + [cs[n]];
    } else {
      assert Unhandled([]) == [];
    }
  }

  // ---------- the two loops ----------

  /** The last k closings of a reverse loop that starts at middleware k - 1. */
  function Closings(k: nat, error: bool): (cs: seq<Call>)
    ensures |cs| == k
    ensures forall i: nat :: i < k ==> cs[i] == if error then OnError(k - 1 - i) else After(k - 1 - i)
  {
    if k == 0 then [] else [if error then OnError(k - 1) else After(k - 1)] + Closings(k - 1, error)
  }

  lemma {:induction false} ClosingCalls(o: Outcome, k: nat, error: bool)
    ensures Closing(o, 0, k, error) == Announced(o, Closings(k, error))
  {
    if k > 0 {
      var c := if error then OnError(k - 1) else After(k - 1);
      ClosingCalls(o, k - 1, error);
      ClosingMore(o, 0, k - 1, error);
      AnnouncedOne(o, c);
      AnnouncedBoth(o, [c], Closings(k - 1, error));
    }
  }

  lemma {:induction false} OpeningCalls(o: Outcome, k: nat)
    ensures |Opening(0, k)| == k && forall i: nat :: i < k ==> Opening(0, k)[i] == Before(i)
    ensures Announced(o, Opening(0, k)) == Opening(0, k)
  {
    if k > 0 {
      OpeningCalls(o, k - 1);
      OpeningMore(0, k - 1);
      AnnouncedBoth(o, Opening(0, k - 1), [Before(k - 1)]);
      AnnouncedOne(o, Before(k - 1));
    }
  }

  lemma CoreCalls(o: Outcome, hooks: bool)
    ensures Core(o, hooks) == Announced(o, if hooks then [OnExecute, OnComplete] else [])
  {
    if hooks {
      AnnouncedBoth(o, [OnExecute], [OnComplete]);
      AnnouncedOne(o, OnExecute);
      AnnouncedOne(o, OnComplete);
    }
  }

  // ---------- what an execution does ----------

  /** The calls of an execution in which Before k is the first to fail. */
  lemma FailedCalls(o: Outcome, k: nat, hooks: bool) returns (cs: seq<Call>)
    requires FailsFirst(o, k)
    ensures Calls(o, hooks, cs) && Handle !in cs
    ensures Nested(o, 0, Some(k), hooks) == Announced(o, cs)
  {
    hide Core, Closing, Opening, Nested, Announced;
    cs := Opening(0, k + 1) + Closings(k + 1, true);
    LoopsNest(o, 0, Some(k), hooks);
    OpeningCalls(o, k + 1);
    ClosingCalls(o, k + 1, true);
    AnnouncedBoth(o, Opening(0, k + 1), Closings(k + 1, true));
  }

  lemma AllCalls(o: Outcome, hooks: bool) returns (cs: seq<Call>)
    requires NoneFails(o)
    ensures Calls(o, hooks, cs) && Handle !in cs
    ensures Nested(o, 0, None, hooks) == Announced(o, cs)
  {
    hide Core, Closing, Opening, Nested, Announced;
    var n, core := |o.before|, if hooks then [OnExecute, OnComplete] else [];
    cs := Opening(0, n) + core + Closings(n, false);
    LoopsNest(o, 0, None, hooks);
    OpeningCalls(o, n);
    CoreCalls(o, hooks);
    ClosingCalls(o, n, false);
    AnnouncedBoth(o, Opening(0, n), core);
    AnnouncedBoth(o, Opening(0, n) + core, Closings(n, false));
  }

  /** A failed OnExecute goes to the error handler last of all. */
  ghost function LastCall(p: Plugin, o: Outcome): seq<Call> {
    if NoneFails(o) && p.hooks && !o.execOk && o.handler.Some? then [Handle] else []
  }

  /** The calls an execution adds are those, with the error handler called at once after
      each quiet failure and, after all of them, for a failed OnExecute. */
  lemma ExecutionCalls(p: Plugin, o: Outcome) returns (cs: seq<Call>)
    requires p.state == Running
    ensures Calls(o, p.hooks, cs) && Handle !in cs
    ensures Execute(p, o).0.calls == p.calls + (Announced(o, cs) + LastCall(p, o))
  {
    hide Nested, Calls, Announced;
    OneOrNone(o);
    if NoneFails(o) {
      NoFailure(o.before);
      cs := AllCalls(o, p.hooks);
    } else {
      var k: nat :| FailsFirst(o, k);
      FirstFailureAt(o.before, k);
      cs := FailedCalls(o, k, p.hooks);
    }
  }

  /** With the error handler left out, an execution calls Before on the middleware in
      order; if one fails, OnError on it and those before it in reverse order and nothing
      else; otherwise OnExecute and OnComplete, then After on all in reverse order. */
  lemma HooksInOrder(p: Plugin, o: Outcome)
    requires p.state == Running
    ensures var more := Execute(p, o).0.calls[|p.calls|..];
            Calls(o, p.hooks, Unhandled(more))
  {
    hide Calls, Execute, Announced, Unhandled;
    var cs := ExecutionCalls(p, o);
    var announced := Announced(o, cs);
    var last := LastCall(p, o);
    assert Execute(p, o).0.calls[|p.calls|..] == announced + last;
    AnnouncedKeeps(o, cs);
    UnhandledMore(announced, Handle);
    if last == [] { assert announced + last == announced; }
  }

  /** What Execute answers, and that it touches nothing but the record of calls. */
  lemma ExecuteAnswers(p: Plugin, o: Outcome)
    ensures var (q, r) := Execute(p, o);
            && q == p.(calls := q.calls) && p.calls <= q.calls
            && (r.Ok? <==> p.state == Running && NoneFails(o) && (p.hooks ==> o.execOk))
            && (r == Err(InvalidState) <==> p.state != Running)
            && (r == Err(BeforeFailed) <==> p.state == Running && !NoneFails(o))
            && (r == Err(HandlerFailed) <==>
                p.state == Running && NoneFails(o) && p.hooks && !o.execOk && o.handler == Some(false))
            && (p.state != Running ==> q == p)
  {
    hide Nested;
    OneOrNone(o);
    if NoneFails(o) {
      NoFailure(o.before);
    } else {
      var k: nat :| FailsFirst(o, k);
      FirstFailureAt(o.before, k);
    }
  }

  // ---------- the other operations ----------

  /** A hook that there is must not fail. */
  predicate Works(p: Plugin, ok: bool) {
    p.hooks ==> ok
  }

  /** One operation out of turn: it is refused and changes nothing. Otherwise it calls its
      hook and, if that works, moves the plugin on; if not, the plugin has failed. */
  ghost predicate Moves(p: Plugin, q: Plugin, r: Result<(), PluginError>, from: PluginState, to: PluginState,
                        hook: Call, ok: bool)
  {
    && (p.state != from ==> q == p && r == Err(InvalidState))
    && (p.state == from ==>
          && q.state == (if Works(p, ok) then to else Failed)
          && r == (if Works(p, ok) then Ok(()) else Err(HookFailed))
          && q.calls == (if p.hooks then p.calls + [hook] else p.calls) && q.hooks == p.hooks)
  }

  lemma LifecycleAnswers(p: Plugin, config: string, ok: bool)
    ensures var (q, r) := Load(p, config, true, ok);
            Moves(p, q, r, Uninitialized, Initialized, OnLoad, ok)
            && (p.state == Uninitialized ==> q.config == Some(config))
    ensures var (q, r) := Load(p, config, false, ok);
            if p.state == Uninitialized then q == p.(state := Failed) && r == Err(ConfigInvalid)
            else q == p && r == Err(InvalidState)
    ensures var (q, r) := Start(p, ok); Moves(p, q, r, Initialized, Running, OnStart, ok) && q.config == p.config
    ensures var (q, r) := Stop(p, ok); Moves(p, q, r, Running, Stopped, OnStop, ok) && q.config == p.config
  {
  }

  /** Unloading works from stopped and failed; from initialized and running it is refused once
      OnUnload has run and the configuration is gone, and where OnUnload fails the plugin
      has failed with its configuration. */
  lemma UnloadAnswers(p: Plugin, ok: bool)
    ensures var (q, r) := Unload(p, ok);
            && (r.Ok? <==> (p.state == Stopped || p.state == Failed) && Works(p, ok))
            && (p.state == Uninitialized ==> q == p && r == Err(InvalidState))
            && (p.state != Uninitialized ==>
                  && q.calls == (if p.hooks then p.calls + [OnUnload] else p.calls) && q.hooks == p.hooks
                  && q.config == (if Works(p, ok) then None else p.config)
                  && q.state == (if !Works(p, ok) then Failed
                                 else if p.state == Stopped || p.state == Failed then Uninitialized
                                 else p.state)
                  && (!Works(p, ok) ==> r == Err(HookFailed)))
  {
  }
}
