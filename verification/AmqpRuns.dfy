/**
 What becomes of every publish, over whole runs and in terms of what happened: which calls are refused, which are
 sent at once and which queue, what settles each of them, and that an accepted one can go either way.
 */
module AmqpRuns {

  import opened Options
  import opened AmqpConfirms

  // ---------- the signals of the client, read off the history ----------

  /** Confirm channels created so far. */
  function ChannelsMade(steps: seq<Step>): nat
  {
    if steps == [] then 0
    else ChannelsMade(steps[..|steps| - 1]) + if steps[|steps| - 1].ChannelReady? then 1 else 0
  }

  /** The publish channel: the last one created, unless it was forgotten since. */
  function ChannelOf(steps: seq<Step>): Option<nat>
  {
    if steps == [] then None else
    var front, last := steps[..|steps| - 1], steps[|steps| - 1];
    if last.ChannelReady? then Some(ChannelsMade(front)) else if last.ForgetChannel? then None else ChannelOf(front)
  }

  /** What the flag was set to last. */
  predicate ClosingOf(steps: seq<Step>)
  {
    steps != [] &&
    var front, last := steps[..|steps| - 1], steps[|steps| - 1];
    if last.SetClosing? then last.closing else ClosingOf(front)
  }

  predicate ClosedBy(steps: seq<Step>, ch: nat)
  {
    steps != [] &&
    var front, last := steps[..|steps| - 1], steps[|steps| - 1];
    (last.ChannelCloses? && last.ch == ch) || ClosedBy(front, ch)
  }

  /** Calls of `publish` so far; the next one gets this number. */
  function Published(steps: seq<Step>): nat
  {
    if steps == [] then 0
    else Published(steps[..|steps| - 1]) + if steps[|steps| - 1].Publish? then 1 else 0
  }

  lemma StepSignals(s: State, e: Step)
    requires Enabled(s, e)
    ensures var s2 := Apply(s, e);
      && s2.channels == s.channels + (if e.ChannelReady? then 1 else 0)
      && s2.channel == (if e.ChannelReady? then Some(s.channels) else if e.ForgetChannel? then None else s.channel)
      && s2.closing == (if e.SetClosing? then e.closing else s.closing)
      && s2.closed == s.closed + (if e.ChannelCloses? then {e.ch} else {})
      && |s2.pubs| == |s.pubs| + if e.Publish? then 1 else 0
  {
    hide Classified;
  }

  /** The state's signals are what the history says. */
  lemma {:induction false} SignalsFollowHistory(header: bool, steps: seq<Step>)
    requires Legal(header, steps)
    ensures var s := After(header, steps);
      && s.channels == ChannelsMade(steps) && s.channel == ChannelOf(steps) && s.closing == ClosingOf(steps)
      && (forall ch :: ch in s.closed <==> ClosedBy(steps, ch))
      && |s.pubs| == Published(steps)
  {
    hide Apply, Enabled;
    if steps == [] {
      assert After(header, steps) == Initial(header);
    } else {
      SignalsFollowHistory(header, steps[..|steps| - 1]);
      StepSignals(After(header, steps[..|steps| - 1]), steps[|steps| - 1]);
    }
  }

  // ---------- what a call of publish does ----------

  /** It cannot be accepted: there is no channel, or the adapter is closing. */
  predicate Refuses(steps: seq<Step>) { ChannelOf(steps).None? || ClosingOf(steps) }

  /** In single-flight mode a mandatory publish queues; any other is sent at once. */
  predicate Queues(header: bool, mandatory: bool) { mandatory && !header }

  /**
   Every call of `publish` at its own step. Refused exactly without a channel or while closing. Otherwise captured on
   the current channel: last in the queue, unsent, exactly if it is mandatory in single-flight mode; else sent, and
   if the write did not throw unsettled with its confirm outstanding and registered for a return if mandatory.
   */
  lemma PublishAtItsStep(header: bool, steps: seq<Step>, k: nat)
    requires Legal(header, steps) && k < |steps| && steps[k].Publish?
    ensures var s, s2, id := After(header, steps[..k]), After(header, steps[..k + 1]), Published(steps[..k]);
      && IsPub(s2, id) && |s2.pubs| == id + 1 && !IsPub(s, id)
      && var p := s2.pubs[id];
      && p.mandatory == steps[k].mandatory && !p.returned
      && (if Refuses(steps[..k]) then
            && p.cause == Some(ByRefusal) && p.outcome == Some(ConnectionLost) && p.stage == Finalized
            && s2.unconfirmed == s.unconfirmed && s2.pending == s.pending && s2.chain == s.chain
          else if Queues(header, steps[k].mandatory) then
            && Some(p.channel) == ChannelOf(steps[..k]) && p.stage == Queued && p.outcome.None?
            && s2.unconfirmed == s.unconfirmed && s2.pending == s.pending && s2.chain == s.chain + [id]
          else
            && Some(p.channel) == ChannelOf(steps[..k]) && p.stage == Sent && s2.chain == s.chain
            && s2.pending == s.pending + (if p.mandatory then {id} else {})
            && (if steps[k].throws
                then p.cause == Some(ByWriteFailure) && p.outcome == Some(ConnectionLost)
                     && s2.unconfirmed == s.unconfirmed
                else p.outcome.None? && s2.unconfirmed == s.unconfirmed + {id}))
  {
    hide After, Legal;
    LegalPrefix(header, steps, k);
    SignalsFollowHistory(header, steps[..k]);
    RunKeeps(header, steps[..k]);
  }

  /** When the head of the queue gets its turn it is sent, on the channel of its own call. */
  lemma TurnAtItsStep(steps: seq<Step>, k: nat)
    requires Legal(false, steps) && k < |steps| && steps[k].StartQueued?
    ensures var s, s2 := After(false, steps[..k]), After(false, steps[..k + 1]);
      && s.chain != [] && IsPub(s, s.chain[0]) && IsPub(s2, s.chain[0]) && s2.chain == s.chain
      && var id := s.chain[0]; var p := s2.pubs[id];
      && p.channel == s.pubs[id].channel && p.stage == Sent && s2.pending == s.pending + {id}
      && (if steps[k].throws
          then p.cause == Some(ByWriteFailure) && p.outcome == Some(ConnectionLost) && s2.unconfirmed == s.unconfirmed
          else p.outcome.None? && s2.unconfirmed == s.unconfirmed + {id})
  {
    hide After, Legal;
    LegalPrefix(false, steps, k);
    RunKeeps(false, steps[..k]);
    RunIsSingleFlight(steps[..k]);
    var s := After(false, steps[..k]);
    assert PubInvariant(s, s.chain[0]);
  }

  /** The queue is first in, first out. */
  lemma {:induction false} QueueIsInOrder(steps: seq<Step>)
    requires Legal(false, steps)
    ensures var s := After(false, steps);
      forall i, j :: 0 <= i < j < |s.chain| ==> s.chain[i] < s.chain[j] < |s.pubs|
    ensures var s := After(false, steps); s.chain != [] ==> s.chain[0] < |s.pubs|
  {
    hide Apply, Enabled;
    if steps == [] {
      assert After(false, steps) == Initial(false);
    } else {
      var front := steps[..|steps| - 1];
      QueueIsInOrder(front);
      RunIsSingleFlight(front);
      StepKeepsOrder(After(false, front), steps[|steps| - 1]);
    }
  }

  lemma StepKeepsOrder(s: State, e: Step)
    requires Enabled(s, e) && (forall i :: 0 <= i < |s.chain| ==> s.chain[i] < |s.pubs|)
    requires forall i, j :: 0 <= i < j < |s.chain| ==> s.chain[i] < s.chain[j]
    ensures var s2 := Apply(s, e);
      && (forall i :: 0 <= i < |s2.chain| ==> s2.chain[i] < |s2.pubs|)
      && (forall i, j :: 0 <= i < j < |s2.chain| ==> s2.chain[i] < s2.chain[j])
  {
    hide Classified;
    var s2 := Apply(s, e);
    assert s2.chain == s.chain || (s.chain != [] && s2.chain == s.chain[1..]) || s2.chain == s.chain + [|s.pubs|];
  }

  // ---------- what settles a publish ----------

  /** The step settles `id`, for this cause. */
  ghost predicate Causes(s: State, e: Step, id: nat, cause: Cause)
  {
    match cause
    case ByRefusal => e.Publish? && id == |s.pubs| && (s.channel.None? || s.closing)
    case ByWriteFailure =>
      || (e.Publish? && e.throws && id == |s.pubs| && s.channel.Some? && !s.closing && !Queues(s.header, e.mandatory))
      || (e.StartQueued? && e.throws && s.chain != [] && s.chain[0] == id)
    case ByAck => e == Ack(id) && Unsettled(s, id)
    case ByNack(err, closing, channelClosed, swapped) =>
      && e == Nack(id, err) && Unsettled(s, id) && closing == s.closing
      && channelClosed == (s.pubs[id].channel in s.closed) && swapped == (s.channel != Some(s.pubs[id].channel))
    case ByChannelClose(err) =>
      id in s.unconfirmed && Unsettled(s, id) && e == ChannelCloses(s.pubs[id].channel, err)
    case ByTimer => e == Timeout(id)
  }

  lemma StepCauses(s: State, e: Step, id: nat, cause: Cause)
    requires Invariant(s) && Enabled(s, e) && IsPub(Apply(s, e), id)
    requires IsPub(s, id) ==> s.pubs[id].cause != Some(cause)
    ensures Apply(s, e).pubs[id].cause == Some(cause) <==> Causes(s, e, id, cause)
  {
    hide IsConnectionLostError, ClassifyConfirmError;
    if IsPub(s, id) { assert PubInvariant(s, id); }
    if e.StartQueued? { assert PubInvariant(s, s.chain[0]); }
  }

  ghost predicate CausedAt(header: bool, steps: seq<Step>, k: nat, id: nat, cause: Cause)
  {
    k < |steps| && Causes(After(header, steps[..k]), steps[k], id, cause)
  }

  lemma {:induction false} CauseHasAMoment(header: bool, steps: seq<Step>, id: nat, cause: Cause) returns (k: nat)
    requires Legal(header, steps) && id < |After(header, steps).pubs|
    requires After(header, steps).pubs[id].cause == Some(cause)
    ensures CausedAt(header, steps, k, id, cause)
  {
    hide Apply, Enabled, Causes, Invariant;
    var front := steps[..|steps| - 1];
    var s := After(header, front);
    if IsPub(s, id) && s.pubs[id].cause == Some(cause) {
      k := CauseHasAMoment(header, front, id, cause);
      assert front[..k] == steps[..k];
    } else {
      k := |front|;
      assert steps[..k] == front;
      RunKeeps(header, front);
      StepCauses(s, steps[k], id, cause);
    }
  }

  lemma CausedIsPub(s: State, e: Step, id: nat, cause: Cause)
    requires Invariant(s) && Enabled(s, e) && Causes(s, e, id, cause)
    ensures IsPub(Apply(s, e), id) && (IsPub(s, id) ==> s.pubs[id].cause.None?)
  {
    hide Classified;
    if IsPub(s, id) { assert PubInvariant(s, id); }
  }

  lemma CauseLasts(header: bool, steps: seq<Step>, k: nat, id: nat, cause: Cause)
    requires Legal(header, steps) && CausedAt(header, steps, k, id, cause)
    ensures id < |After(header, steps).pubs| && After(header, steps).pubs[id].cause == Some(cause)
  {
    hide After, Legal, Invariant, Causes;
    LegalPrefix(header, steps, k);
    RunKeeps(header, steps[..k]);
    CausedIsPub(After(header, steps[..k]), steps[k], id, cause);
    StepCauses(After(header, steps[..k]), steps[k], id, cause);
    LegalPrefix(header, steps, k + 1);
    RunKeeps(header, steps[..k + 1]);
    SettledByCause(After(header, steps[..k + 1]), id);
    assert steps[..k + 1] + steps[k + 1..] == steps;
    SettlementIsFinal(header, steps[..k + 1], steps[k + 1..], id);
  }

  lemma SettledByCause(s: State, id: nat)
    requires Invariant(s) && IsPub(s, id) && s.pubs[id].cause.Some?
    ensures s.pubs[id].outcome.Some?
  {
    assert PubInvariant(s, id);
  }

  /**
   Over every run of either mode: a publish is settled for a cause exactly when some step was that cause: its own
   call refused, its write threw, the broker acked or nacked it unsettled, its channel closed while its confirm was
   outstanding, or its timer.
   */
  lemma CauseIffMoment(header: bool, steps: seq<Step>, id: nat, cause: Cause)
    requires Legal(header, steps) && id < |After(header, steps).pubs|
    ensures After(header, steps).pubs[id].cause == Some(cause) <==>
      exists k: nat :: CausedAt(header, steps, k, id, cause)
  {
    hide After, Legal;
    if k: nat :| CausedAt(header, steps, k, id, cause) { CauseLasts(header, steps, k, id, cause); }
    if After(header, steps).pubs[id].cause == Some(cause) { var k := CauseHasAMoment(header, steps, id, cause); }
  }

  lemma {:induction false} PublishedGrows(steps: seq<Step>, j: nat, k: nat)
    requires j <= k <= |steps|
    ensures Published(steps[..j]) + (if j < k && steps[j].Publish? then 1 else 0) <= Published(steps[..k])
    decreases k
  {
    if j < k {
      assert steps[..k][..k - 1] == steps[..k - 1];
      PublishedGrows(steps, j, k - 1);
    }
  }

  /**
   Over every run: a publish was refused exactly when at its own call there was no channel or the adapter was
   closing.
   */
  lemma RefusedIff(header: bool, steps: seq<Step>, k: nat)
    requires Legal(header, steps) && k < |steps| && steps[k].Publish?
    ensures var id := Published(steps[..k]);
      && id < |After(header, steps).pubs|
      && (After(header, steps).pubs[id].cause == Some(ByRefusal) <==> Refuses(steps[..k]))
  {
    hide After, Legal;
    var id := Published(steps[..k]);
    SignalsFollowHistory(header, steps);
    PublishedGrows(steps, k, |steps|);
    assert steps[..|steps|] == steps;
    LegalPrefix(header, steps, k);
    SignalsFollowHistory(header, steps[..k]);
    CauseIffMoment(header, steps, id, ByRefusal);
    if Refuses(steps[..k]) {
      assert CausedAt(header, steps, k, id, ByRefusal);
    } else if j: nat :| CausedAt(header, steps, j, id, ByRefusal) {
      LegalPrefix(header, steps, j);
      SignalsFollowHistory(header, steps[..j]);
      if j < k { PublishedGrows(steps, j, k); } else { PublishedGrows(steps, k, j); }
    }
  }

  /** Over every run: a publish that is sent at once failed in writing exactly when the write threw. */
  lemma WriteFailureIff(header: bool, steps: seq<Step>, k: nat)
    requires Legal(header, steps) && k < |steps| && steps[k].Publish?
    requires !Refuses(steps[..k]) && !Queues(header, steps[k].mandatory)
    ensures var id := Published(steps[..k]);
      && id < |After(header, steps).pubs|
      && (After(header, steps).pubs[id].cause == Some(ByWriteFailure) <==> steps[k].throws)
  {
    hide After, Legal;
    var id := Published(steps[..k]);
    SignalsFollowHistory(header, steps);
    PublishedGrows(steps, k, |steps|);
    assert steps[..|steps|] == steps;
    PublishAtItsStep(header, steps, k);
    LegalPrefix(header, steps, k);
    LegalPrefix(header, steps, k + 1);
    assert steps[..k + 1] + steps[k + 1..] == steps;
    CauseIffMoment(header, steps, id, ByWriteFailure);
    RunKeeps(header, steps[..k]);
    SignalsFollowHistory(header, steps[..k]);
    if steps[k].throws {
      assert CausedAt(header, steps, k, id, ByWriteFailure);
    } else if j: nat :| CausedAt(header, steps, j, id, ByWriteFailure) {
      NotLater(header, steps, k, j, id);
    }
  }

  /** A publish sent at once, whose write did not throw, does not fail in writing later. */
  lemma NotLater(header: bool, steps: seq<Step>, k: nat, j: nat, id: nat)
    requires Legal(header, steps) && k < |steps| && j < |steps| && steps[k].Publish? && !steps[k].throws
    requires !Refuses(steps[..k]) && !Queues(header, steps[k].mandatory) && id == Published(steps[..k])
    ensures !CausedAt(header, steps, j, id, ByWriteFailure)
  {
    hide After, Legal;
    LegalPrefix(header, steps, j);
    SignalsFollowHistory(header, steps[..j]);
    RunKeeps(header, steps[..j]);
    if steps[j].Publish? {
      if j < k { PublishedGrows(steps, j, k); } else { PublishedGrows(steps, k, j); }
    } else {
      PublishAtItsStep(header, steps, k);
      if j <= k { PublishedGrows(steps, j, k); } else { StaysUnqueued(header, steps, k + 1, j, id); }
    }
  }

  lemma {:induction false} StaysUnqueued(header: bool, steps: seq<Step>, k: nat, j: nat, id: nat)
    requires Legal(header, steps) && k <= j <= |steps|
    requires IsPub(After(header, steps[..k]), id) && After(header, steps[..k]).pubs[id].stage != Queued
    ensures IsPub(After(header, steps[..j]), id) && After(header, steps[..j]).pubs[id].stage != Queued
    decreases j
  {
    hide After, Legal;
    if k == j {
    } else {
      StaysUnqueued(header, steps, k, j - 1, id);
      LegalPrefix(header, steps, j - 1);
      StepUnqueues(After(header, steps[..j - 1]), steps[j - 1], id);
    }
  }

  lemma StepUnqueues(s: State, e: Step, id: nat)
    requires Enabled(s, e) && IsPub(s, id) && s.pubs[id].stage != Queued
    ensures IsPub(Apply(s, e), id) && Apply(s, e).pubs[id].stage != Queued
  {
    hide Classified;
  }

  // ---------- an accepted publish can go either way ----------

  lemma Extends(header: bool, steps: seq<Step>, e: Step)
    requires Legal(header, steps) && Enabled(After(header, steps), e)
    ensures Legal(header, steps + [e]) && After(header, steps + [e]) == Apply(After(header, steps), e)
  {
    var more := Extend(header, steps, After(header, steps), e);
  }

  /** From any point with a live channel: a publish sent at once is resolved by an ack alone. */
  lemma AckResolves(header: bool, steps: seq<Step>, mandatory: bool)
    requires Legal(header, steps) && !Refuses(steps) && !Queues(header, mandatory)
    requires ChannelOf(steps).value in After(header, steps).live
    ensures var id := Published(steps); var more := steps + [Publish(mandatory, false)] + [Ack(id)];
      Legal(header, more) && IsPub(After(header, more), id) && After(header, more).pubs[id].outcome == Some(Resolved)
  {
    hide After, Legal;
    SignalsFollowHistory(header, steps);
    RunKeeps(header, steps);
    Extends(header, steps, Publish(mandatory, false));
    Extends(header, steps + [Publish(mandatory, false)], Ack(Published(steps)));
  }

  /** And a mandatory one is made unroutable by its return and an ack. */
  lemma ReturnThenAckIsUnroutable(steps: seq<Step>)
    requires Legal(true, steps) && !Refuses(steps) && ChannelOf(steps).value in After(true, steps).live
    ensures var id := Published(steps); var more := steps + [Publish(true, false)] + [Return(id)] + [Ack(id)];
      Legal(true, more) && IsPub(After(true, more), id) && After(true, more).pubs[id].outcome == Some(Unroutable)
  {
    hide After, Legal;
    var id := Published(steps);
    SignalsFollowHistory(true, steps);
    RunKeeps(true, steps);
    Extends(true, steps, Publish(true, false));
    var sent := steps + [Publish(true, false)];
    Extends(true, sent, Return(id));
    Extends(true, sent + [Return(id)], Ack(id));
  }

  /** Such a point is reached as soon as the first channel is ready, in either mode. */
  lemma FirstChannelIsEnough(header: bool)
    ensures Legal(header, [ChannelReady]) && !Refuses([ChannelReady])
    ensures ChannelOf([ChannelReady]) == Some(0) && 0 in After(header, [ChannelReady]).live
  {
    EmptyRun(header);
    hide After, Legal;
    Extends(header, [], ChannelReady);
    assert [] + [ChannelReady] == [ChannelReady];
    assert [ChannelReady][..0] == [];
  }

  /** The head of an idle single-flight queue: sent, returned, acked. */
  lemma SingleFlightGoesEitherWay(steps: seq<Step>, returned: bool)
    requires Legal(false, steps) && !Refuses(steps) && After(false, steps).chain == []
    requires ChannelOf(steps).value in After(false, steps).live
    ensures var id := Published(steps);
      var sent := steps + [Publish(true, false)] + [StartQueued(false)];
      var more := (if returned then sent + [Return(id)] else sent) + [Ack(id)];
      && Legal(false, more) && IsPub(After(false, more), id)
      && After(false, more).pubs[id].outcome == Some(if returned then Unroutable else Resolved)
  {
    hide After, Legal;
    var id := Published(steps);
    SignalsFollowHistory(false, steps);
    RunKeeps(false, steps);
    Extends(false, steps, Publish(true, false));
    Extends(false, steps + [Publish(true, false)], StartQueued(false));
    var sent := steps + [Publish(true, false)] + [StartQueued(false)];
    if returned {
      Extends(false, sent, Return(id));
      Extends(false, sent + [Return(id)], Ack(id));
    } else {
      Extends(false, sent, Ack(id));
    }
  }
}
