/**
 The reference semantics of the pipeline: nested layers with no shared index. Each invocation of a custom layer
 remembers, in a flag of its own, whether one of its `next()` calls has already resolved. The dispatcher of
 `Pipelines`, which keeps one mutable index for all layers, is proved to compute exactly this.
 */
module Onion {
  import opened Options
  import opened Pipelines

  function Enter(p: Pipeline, i: nat, c: Core): (Reply, Core)
    requires i <= |p.layers|
    decreases |p.layers| - i, 2, 0
  {
    if i == |p.layers| then RunHandler(p, c) else
    var entered := c.Log(LayerEntered(i, c.event));
    match p.layers[i]
    case Custom(m) => EnterCustom(p, i, m, c.event, [], false, entered)
    case Retry(o) => EnterRetry(p, i, o, c.event, 1, Undefined, entered)
    case Dlq(d) => EnterDlq(p, i, d, c.event, entered)
  }

  /** One invocation of a custom layer; `passed`: one of its `next()` calls has resolved. */
  function EnterCustom(p: Pipeline, i: nat, m: Middleware, event: Event, seen: seq<Reply>, passed: bool, c: Core):
    (Reply, Core)
    requires i < |p.layers|
    decreases |p.layers| - i, 1, if |seen| < m.bound then m.bound - |seen| else 0
  {
    if |seen| >= m.bound then (Resolved, c) else
    match m.strategy(event, seen)
    case Return => (Resolved, c)
    case Throw(error) => (Rejected(error), c)
    case CallNext(updated) =>
      if passed then
        // refused: no inner layer is entered
        EnterCustom(p, i, m, event, seen + [Rejected(NextCalledTwice)], true, Updated(c, updated))
      else
        var (reply, after) := Enter(p, i + 1, Updated(c, updated));
        EnterCustom(p, i, m, event, seen + [reply], reply.Resolved?, after)
    case Settle(call) =>
      var (reply, after) := SettleContext(p, call, c);
      EnterCustom(p, i, m, event, seen + [reply], passed, after)
    case AwaitWorld =>
      EnterCustom(p, i, m, event, seen + [p.world(c.clock)], passed, c.Ask())
  }

  function EnterRetry(p: Pipeline, i: nat, o: RetryPolicy, event: Event, attempt: nat, last: Error, c: Core):
    (Reply, Core)
    requires i < |p.layers| && attempt >= 1
    decreases |p.layers| - i, 1, if attempt <= o.maxRetries + 1 then o.maxRetries + 2 - attempt else 0
  {
    if attempt > o.maxRetries + 1 then (Rejected(last), c) else
    var (reply, after) := Enter(p, i + 1, Updated(c, RetryUpdate(event, attempt)));
    if reply.Resolved? then (Resolved, after) else
    var (failed, core) := AfterRejection(p, o, attempt, reply.error, after);
    if failed.Some? then (Rejected(failed.value), core)
    else EnterRetry(p, i, o, event, attempt + 1, reply.error, core)
  }

  function EnterDlq(p: Pipeline, i: nat, d: DlqOptions, event: Event, c: Core): (Reply, Core)
    requires i < |p.layers|
    decreases |p.layers| - i, 1, 0
  {
    var (reply, after) := Enter(p, i + 1, c);
    if reply.Resolved? then (Resolved, after) else DeadLetterFailure(p, d, event, reply.error, after)
  }

  // ---------- the shared index computes the per-invocation flag ----------

  /**
   Entering layer `i` with the index below `i`: same reply and same effects as the reference, and the index ends
   at `i` or above after a normal exit, at `i - 1` after a throwing one.
   */
  lemma {:induction false} DispatchRefinesEnter(p: Pipeline, i: nat, s: State)
    requires i <= |p.layers| && s.index < i
    ensures var (reply, after) := Dispatch(p, i, s);
      && (reply, after.core) == Enter(p, i, s.core)
      && (reply.Resolved? ==> after.index >= i)
      && (reply.Rejected? ==> after.index == i - 1)
    decreases |p.layers| - i, 2, 0
  {
    if i < |p.layers| {
      var inside := State(i, s.core.Log(LayerEntered(i, s.core.event)));
      match p.layers[i]
      case Custom(m) => CustomRefines(p, i, m, s.core.event, [], false, inside);
      case Retry(o) => RetryRefines(p, i, o, s.core.event, 1, Undefined, inside);
      case Dlq(d) => DlqRefines(p, i, d, s.core.event, inside);
    }
  }

  /** While layer `i` runs the index is at least `i`, and it is above `i` exactly when a `next()` has resolved. */
  lemma {:induction false} CustomRefines(
      p: Pipeline, i: nat, m: Middleware, event: Event, seen: seq<Reply>, passed: bool, s: State)
    requires i < |p.layers| && s.index >= i
    requires passed <==> s.index > i
    ensures var (reply, after) := RunCustom(p, i, m, event, seen, s);
      && (reply, after.core) == EnterCustom(p, i, m, event, seen, passed, s.core)
      && after.index >= i
    decreases |p.layers| - i, 1, if |seen| < m.bound then m.bound - |seen| else 0
  {
    if |seen| < m.bound {
      match m.strategy(event, seen)
      case Return =>
      case Throw(_) =>
      case CallNext(updated) =>
        var calling := s.(core := Updated(s.core, updated));
        if !passed { DispatchRefinesEnter(p, i + 1, calling); }
        var (reply, after) := Dispatch(p, i + 1, calling);
        assert Next(p, i, updated, s) == (reply, after);
        CustomRefines(p, i, m, event, seen + [reply], passed || reply.Resolved?, after);
      case Settle(call) =>
        var (reply, after) := SettleContext(p, call, s.core);
        CustomRefines(p, i, m, event, seen + [reply], passed, s.(core := after));
      case AwaitWorld =>
        CustomRefines(p, i, m, event, seen + [p.world(s.core.clock)], passed, s.(core := s.core.Ask()));
    }
  }

  lemma {:induction false} RetryRefines(
      p: Pipeline, i: nat, o: RetryPolicy, event: Event, attempt: nat, last: Error, s: State)
    requires i < |p.layers| && attempt >= 1 && s.index == i
    ensures var (reply, after) := RunRetry(p, i, o, event, attempt, last, s);
      && (reply, after.core) == EnterRetry(p, i, o, event, attempt, last, s.core)
      && after.index >= i
    decreases |p.layers| - i, 1, if attempt <= o.maxRetries + 1 then o.maxRetries + 2 - attempt else 0
  {
    if attempt <= o.maxRetries + 1 {
      var update := RetryUpdate(event, attempt);
      DispatchRefinesEnter(p, i + 1, s.(core := Updated(s.core, update)));
      var (reply, after) := Dispatch(p, i + 1, s.(core := Updated(s.core, update)));
      assert Next(p, i, update, s) == (reply, after);
      if reply.Rejected? {
        var (failed, core) := AfterRejection(p, o, attempt, reply.error, after.core);
        if failed.None? { RetryRefines(p, i, o, event, attempt + 1, reply.error, after.(core := core)); }
      }
    }
  }

  lemma {:induction false} DlqRefines(p: Pipeline, i: nat, d: DlqOptions, event: Event, s: State)
    requires i < |p.layers| && s.index == i
    ensures var (reply, after) := RunDlq(p, i, d, event, s);
      && (reply, after.core) == EnterDlq(p, i, d, event, s.core)
      && after.index >= i
    decreases |p.layers| - i, 1, 0
  {
    DispatchRefinesEnter(p, i + 1, s);
    assert Next(p, i, None, s) == Dispatch(p, i + 1, s);
  }

  /** The composed handler is the reference semantics, for every stack of layers, handler and world. */
  lemma ComposedIsOnion(p: Pipeline, c: Core)
    ensures Composed(p, c) == Enter(p, 0, c)
  {
    if p.layers != [] { DispatchRefinesEnter(p, 0, State(-1, c)); }
  }

  // ---------- what one invocation of a custom layer gets back from its next() calls ----------

  /** One turn of a custom layer: what it did, the state before, the reply, and the state when the reply is seen. */
  datatype Turn = Turn(action: Action, before: State, reply: Reply, after: State)
  {
    predicate Passed() { action.CallNext? && reply.Resolved? }
  }

  /** The effect of one action that does not end the invocation of layer `i`. */
  function Act(p: Pipeline, i: nat, action: Action, s: State): Turn
    requires i < |p.layers| && !action.Return? && !action.Throw?
  {
    match action
    case CallNext(updated) => var (reply, after) := Next(p, i, updated, s); Turn(action, s, reply, after)
    case Settle(call) => var (reply, after) := SettleContext(p, call, s.core); Turn(action, s, reply, s.(core := after))
    case AwaitWorld => Turn(action, s, p.world(s.core.clock), s.(core := s.core.Ask()))
  }

  /** All turns of one invocation of a custom layer, in order. */
  function Turns(p: Pipeline, i: nat, m: Middleware, event: Event, seen: seq<Reply>, s: State): seq<Turn>
    requires i < |p.layers|
    decreases if |seen| < m.bound then m.bound - |seen| else 0
  {
    if |seen| >= m.bound || m.strategy(event, seen).Return? || m.strategy(event, seen).Throw? then [] else
    var turn := Act(p, i, m.strategy(event, seen), s);
    [turn] + Turns(p, i, m, event, seen + [turn.reply], turn.after)
  }

  /** The replies of the first `k` turns. */
  function Replies(turns: seq<Turn>, k: nat): seq<Reply>
    requires k <= |turns|
  {
    seq(k, j requires 0 <= j < k => turns[j].reply)
  }

  function StateAfter(turns: seq<Turn>, s: State): State { if turns == [] then s else turns[|turns| - 1].after }

  /** How an invocation ends when the middleware has seen all replies it gets: it throws, or returns. */
  function Ending(m: Middleware, event: Event, seen: seq<Reply>): Reply
  {
    if |seen| < m.bound && m.strategy(event, seen).Throw? then Rejected(m.strategy(event, seen).error) else Resolved
  }

  /**
   The turns are the run: each is the action the middleware chose on the replies so far, each starts where the one
   before it ended, and the last one ends in the state the invocation leaves.
   */
  lemma {:induction false} TurnsAreTheRun(
      p: Pipeline, i: nat, m: Middleware, event: Event, seen: seq<Reply>, s: State, k: nat)
    requires i < |p.layers|
    ensures var turns := Turns(p, i, m, event, seen, s);
      && RunCustom(p, i, m, event, seen, s).1 == StateAfter(turns, s)
      && (k < |turns| ==>
            && turns[k].action == m.strategy(event, seen + Replies(turns, k))
            && turns[k].before == StateAfter(turns[..k], s)
            && !turns[k].action.Return? && !turns[k].action.Throw?
            && turns[k] == Act(p, i, turns[k].action, turns[k].before))
    decreases if |seen| < m.bound then m.bound - |seen| else 0
  {
    hide Next, SettleContext;
    var turns := Turns(p, i, m, event, seen, s);
    if turns == [] {
    } else {
      var rest := turns[1..];
      assert rest == Turns(p, i, m, event, seen + [turns[0].reply], turns[0].after);
      TurnsAreTheRun(p, i, m, event, seen + [turns[0].reply], turns[0].after, if k == 0 then 0 else k - 1);
      if 0 < k < |turns| {
        assert [turns[0].reply] + Replies(rest, k - 1) == Replies(turns, k);
        assert seen + ([turns[0].reply] + Replies(rest, k - 1)) == seen + [turns[0].reply] + Replies(rest, k - 1);
        assert turns[..k][1..] == rest[..k - 1];
      } else {
        assert seen + [] == seen && turns[..0] == [];
      }
    }
  }

  /** What the middleware does after its last turn, throw or return, is how the invocation ends. */
  lemma {:induction false} TurnsEndTheRun(
      p: Pipeline, i: nat, m: Middleware, event: Event, seen: seq<Reply>, s: State)
    requires i < |p.layers|
    ensures var turns := Turns(p, i, m, event, seen, s);
      RunCustom(p, i, m, event, seen, s).0 == Ending(m, event, seen + Replies(turns, |turns|))
    decreases if |seen| < m.bound then m.bound - |seen| else 0
  {
    hide Next, SettleContext;
    var turns := Turns(p, i, m, event, seen, s);
    if turns == [] {
      assert seen + Replies(turns, 0) == seen;
    } else {
      var rest := turns[1..];
      TurnsEndTheRun(p, i, m, event, seen + [turns[0].reply], turns[0].after);
      assert seen + Replies(turns, |turns|) == seen + [turns[0].reply] + Replies(rest, |rest|);
    }
  }

  /** The state in which the dispatcher gets a `next(updated)` call. */
  function Calling(turn: Turn): State
    requires turn.action.CallNext?
  {
    turn.before.(core := Updated(turn.before.core, turn.action.updated))
  }

  /** The call was refused: it changed nothing but the current event and entered no inner layer. */
  predicate Refused(turn: Turn)
    requires turn.action.CallNext?
  {
    turn.reply == Rejected(NextCalledTwice) && turn.after == Calling(turn)
  }

  /** The call entered layer `j` anew and came back with what the reference semantics gives from there. */
  predicate ReEntered(p: Pipeline, j: nat, turn: Turn)
    requires j <= |p.layers| && turn.action.CallNext?
  {
    && (turn.reply, turn.after.core) == Enter(p, j, Calling(turn).core)
    && Calling(turn).core.log < turn.after.core.log
  }

  /** One of the first `k` turns is a `next()` call that has resolved. */
  predicate ResolvedBefore(turns: seq<Turn>, k: nat)
    requires k <= |turns|
  {
    exists j :: 0 <= j < k && turns[j].Passed()
  }

  lemma ResolvedBeforeCons(turn: Turn, rest: seq<Turn>, k: nat)
    requires k <= |rest|
    ensures ResolvedBefore([turn] + rest, k + 1) <==> turn.Passed() || ResolvedBefore(rest, k)
  {
    var turns := [turn] + rest;
    assert turns[0] == turn && forall j :: 0 <= j < k ==> turns[j + 1] == rest[j];
  }

  /**
   The double-call guard: within one invocation of layer `i` a `next()` call enters the inner layer exactly when
   no earlier call of this invocation has resolved; every call after a resolved one is refused.
   */
  lemma {:induction false} NextGuard(
      p: Pipeline, i: nat, m: Middleware, event: Event, seen: seq<Reply>, s: State, k: nat)
    requires i < |p.layers| && s.index >= i
    requires k < |Turns(p, i, m, event, seen, s)| && Turns(p, i, m, event, seen, s)[k].action.CallNext?
    ensures var turns := Turns(p, i, m, event, seen, s);
      if s.index > i || ResolvedBefore(turns, k) then Refused(turns[k]) else ReEntered(p, i + 1, turns[k])
    decreases if |seen| < m.bound then m.bound - |seen| else 0
  {
    hide Enter;
    var turns := Turns(p, i, m, event, seen, s);
    IndexAfter(p, i, turns[0].action, s);
    if k == 0 {
      if s.index == i { EnterExtends(p, i + 1, Calling(turns[0]).core); }
    } else {
      NextGuard(p, i, m, event, seen + [turns[0].reply], turns[0].after, k - 1);
      ResolvedBeforeCons(turns[0], turns[1..], k - 1);
      assert turns == [turns[0]] + turns[1..];
    }
  }

  /** One turn raises the index above `i` exactly when it is a `next()` call that resolves. */
  lemma IndexAfter(p: Pipeline, i: nat, action: Action, s: State)
    requires i < |p.layers| && s.index >= i && !action.Return? && !action.Throw?
    ensures var turn := Act(p, i, action, s);
      && turn.after.index >= i
      && (turn.after.index > i <==> s.index > i || turn.Passed())
      && (action.CallNext? ==>
            if s.index > i then Refused(turn)
            else (turn.reply, turn.after.core) == Enter(p, i + 1, Calling(turn).core))
  {
    hide Enter;
    if action.CallNext? {
      var calling := s.(core := Updated(s.core, action.updated));
      assert Next(p, i, action.updated, s) == Dispatch(p, i + 1, calling);
      if s.index == i { DispatchRefinesEnter(p, i + 1, calling); }
    }
  }

  // ---------- invariants of the shared state ----------

  /** `inv` survives every primitive effect that layers and handler can have on the shared state. */
  ghost predicate Stable(p: Pipeline, inv: Core -> bool)
  {
    && (forall c: Core, u: Option<Event> :: inv(c) ==> inv(Updated(c, u)))
    && (forall c: Core :: inv(c) ==> inv(c.Ask()))
    && (forall c: Core, e: Entry :: inv(c) && !e.ContextCall? && !e.BrokerCall? ==> inv(c.Log(e)))
    && (forall c: Core, call: Settlement :: inv(c) ==> inv(SettleContext(p, call, c).1))
  }

  lemma {:induction false} SettleAllKeeps(p: Pipeline, inv: Core -> bool, calls: seq<Settlement>, c: Core)
    requires Stable(p, inv) && inv(c)
    ensures inv(SettleAll(p, calls, c))
  {
    if calls == [] {} else { SettleAllKeeps(p, inv, calls[1..], SettleContext(p, calls[0], c).1); }
  }

  /** Whatever the layers do, entering one keeps every stable invariant. */
  lemma {:induction false} EnterKeeps(p: Pipeline, inv: Core -> bool, i: nat, c: Core)
    requires i <= |p.layers| && Stable(p, inv) && inv(c)
    ensures inv(Enter(p, i, c).1)
    decreases |p.layers| - i, 2, 0
  {
    if i == |p.layers| {
      var script := p.handler(|Summarize(c.log).runs|, c.event);
      SettleAllKeeps(p, inv, script.calls, c.Log(HandlerEntered(c.event)));
    } else {
      var entered := c.Log(LayerEntered(i, c.event));
      match p.layers[i]
      case Custom(m) => CustomKeeps(p, inv, i, m, c.event, [], false, entered);
      case Retry(o) => RetryKeeps(p, inv, i, o, c.event, 1, Undefined, entered);
      case Dlq(d) => DlqKeeps(p, inv, i, d, c.event, entered);
    }
  }

  lemma {:induction false} CustomKeeps(
      p: Pipeline, inv: Core -> bool, i: nat, m: Middleware, event: Event, seen: seq<Reply>, passed: bool, c: Core)
    requires i < |p.layers| && Stable(p, inv) && inv(c)
    ensures inv(EnterCustom(p, i, m, event, seen, passed, c).1)
    decreases |p.layers| - i, 1, if |seen| < m.bound then m.bound - |seen| else 0
  {
    if |seen| < m.bound {
      match m.strategy(event, seen)
      case Return =>
      case Throw(_) =>
      case CallNext(updated) =>
        var calling := Updated(c, updated);
        if passed {
          CustomKeeps(p, inv, i, m, event, seen + [Rejected(NextCalledTwice)], true, calling);
        } else {
          EnterKeeps(p, inv, i + 1, calling);
          var (reply, after) := Enter(p, i + 1, calling);
          CustomKeeps(p, inv, i, m, event, seen + [reply], reply.Resolved?, after);
        }
      case Settle(call) =>
        var (reply, after) := SettleContext(p, call, c);
        assert inv(SettleContext(p, call, c).1);
        CustomKeeps(p, inv, i, m, event, seen + [reply], passed, after);
      case AwaitWorld =>
        CustomKeeps(p, inv, i, m, event, seen + [p.world(c.clock)], passed, c.Ask());
    }
  }

  lemma {:induction false} RetryKeeps(
      p: Pipeline, inv: Core -> bool, i: nat, o: RetryPolicy, event: Event, attempt: nat, last: Error, c: Core)
    requires i < |p.layers| && attempt >= 1 && Stable(p, inv) && inv(c)
    ensures inv(EnterRetry(p, i, o, event, attempt, last, c).1)
    decreases |p.layers| - i, 1, if attempt <= o.maxRetries + 1 then o.maxRetries + 2 - attempt else 0
  {
    if attempt <= o.maxRetries + 1 {
      var calling := Updated(c, RetryUpdate(event, attempt));
      EnterKeeps(p, inv, i + 1, calling);
      var (reply, after) := Enter(p, i + 1, calling);
      if reply.Rejected? {
        var (failed, core) := AfterRejection(p, o, attempt, reply.error, after);
        if failed.None? { RetryKeeps(p, inv, i, o, event, attempt + 1, reply.error, core); }
      }
    }
  }

  lemma {:induction false} DlqKeeps(p: Pipeline, inv: Core -> bool, i: nat, d: DlqOptions, event: Event, c: Core)
    requires i < |p.layers| && Stable(p, inv) && inv(c)
    ensures inv(EnterDlq(p, i, d, event, c).1)
    decreases |p.layers| - i, 1, 0
  {
    EnterKeeps(p, inv, i + 1, c);
    var (reply, after) := Enter(p, i + 1, c);
    if reply.Rejected? { FailureKeeps(p, inv, d, event, reply.error, after); }
  }

  lemma FailureKeeps(p: Pipeline, inv: Core -> bool, d: DlqOptions, event: Event, error: Error, c: Core)
    requires Stable(p, inv) && inv(c)
    ensures inv(DeadLetterFailure(p, d, event, error, c).1)
  {
    var text := d.serialize(error);
    if event.topic != d.topic && text.Text? {
      var published := c.Ask().Log(Published(Letter(d, event, text.text), p.world(c.clock)));
      assert inv(SettleContext(p, Nack(false), published).1);
      var after := SettleContext(p, Ack, published).1;
      assert inv(after);
      assert inv(SettleContext(p, Nack(false), after).1);
    }
  }

  /** Logs only grow, and entering a layer always leaves a trace. */
  lemma EnterExtends(p: Pipeline, i: nat, c: Core)
    requires i <= |p.layers|
    ensures c.log < Enter(p, i, c).1.log
  {
    hide Summarize;
    var first := if i == |p.layers| then HandlerEntered(c.event) else LayerEntered(i, c.event);
    var inv := (x: Core) => c.log + [first] <= x.log;
    if i == |p.layers| {
      var script := p.handler(|Summarize(c.log).runs|, c.event);
      SettleAllKeeps(p, inv, script.calls, c.Log(first));
    } else {
      match p.layers[i]
      case Custom(m) => CustomKeeps(p, inv, i, m, c.event, [], false, c.Log(first));
      case Retry(o) => RetryKeeps(p, inv, i, o, c.event, 1, Undefined, c.Log(first));
      case Dlq(d) => DlqKeeps(p, inv, i, d, c.event, c.Log(first));
    }
  }
}
