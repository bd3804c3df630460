/**
 The AMQP publisher-confirm protocol: client, confirm channels and broker frames as one step system. A step is one
 synchronous stretch of the client (a call of `publish`, a listener, a timer, the `finally` of a publish) together
 with the frame that triggers it. Lemmas quantify over every run.

 Assumptions on the outside, as guards of the steps: a channel delivers the return of a message before its confirm
 (AMQP 0-9-1 with publisher confirms); a channel that is no longer live delivers nothing; the table of pending
 returns is cleared only when no channel is live, which holds where the adapter clears it as long as its callers do
 not overlap calls of `connect` and `disconnect`.
 */
module AmqpConfirms {

  import opened Options

  datatype ConfirmError = ErrorObject(message: string) | OtherValue

  /** What a publish promise ends with. */
  datatype Outcome = Resolved | Unroutable | Nacked | ConnectionLost | TimedOut

  // ---------- classifying a failed confirm ----------

  function LowerChar(c: char): char { if 'A' <= c <= 'Z' then c - 'A' + 'a' else c }

  function Lower(s: string): string { seq(|s|, k requires 0 <= k < |s| => LowerChar(s[k])) }

  predicate Contains(s: string, part: string)
  {
    exists k :: 0 <= k <= |s| - |part| && part <= s[k..]
  }

  /** The text fallback: the message speaks of a closed channel or connection, in any case of letters. */
  predicate IsConnectionLostError(err: ConfirmError)
  {
    && err.ErrorObject?
    && (|| Contains(Lower(err.message), "channel closed")
        || Contains(Lower(err.message), "connection closed")
        || Contains(Lower(err.message), "closed unexpectedly"))
  }

  /** The same character, or the capital of a small letter. */
  predicate SameLetter(c: char, small: char)
  {
    c == small || ('a' <= small <= 'z' && c as int == small as int - 32)
  }

  /** The text occurs in the message, in any case of letters. */
  ghost predicate Mentions(message: string, text: string)
  {
    exists k: nat :: MentionsAt(message, text, k)
  }

  ghost predicate MentionsAt(message: string, text: string, k: nat)
  {
    k + |text| <= |message| && forall j :: 0 <= j < |text| ==> SameLetter(message[k + j], text[j])
  }

  lemma LowerLetter(c: char, small: char)
    requires !('A' <= small <= 'Z')
    ensures LowerChar(c) == small <==> SameLetter(c, small)
  {}

  lemma ContainsIsMentions(message: string, text: string)
    requires forall j :: 0 <= j < |text| ==> !('A' <= text[j] <= 'Z')
    ensures Contains(Lower(message), text) <==> Mentions(message, text)
  {
    var lower := Lower(message);
    forall k: nat | k + |text| <= |message| ensures text <= lower[k..] <==> MentionsAt(message, text, k) {
      assert text <= lower[k..] <==> forall j :: 0 <= j < |text| ==> lower[k + j] == text[j] by {
        assert text <= lower[k..] <==> lower[k..][..|text|] == text;
      }
      forall j | 0 <= j < |text| ensures lower[k + j] == text[j] <==> SameLetter(message[k + j], text[j]) {
        LowerLetter(message[k + j], text[j]);
      }
    }
    if Contains(lower, text) {
      var k :| 0 <= k <= |lower| - |text| && text <= lower[k..];
      assert MentionsAt(message, text, k);
    }
    if k: nat :| MentionsAt(message, text, k) { assert text <= lower[k..]; }
  }

  /** Exactly the error objects whose message has one of three texts in it, in any case of letters. */
  lemma ConnectionLostTexts(err: ConfirmError)
    ensures IsConnectionLostError(err) <==>
      && err.ErrorObject?
      && (|| Mentions(err.message, "channel closed")
          || Mentions(err.message, "connection closed")
          || Mentions(err.message, "closed unexpectedly"))
  {
    hide Contains, Mentions, Lower;
    if err.ErrorObject? {
      ContainsIsMentions(err.message, "channel closed");
      ContainsIsMentions(err.message, "connection closed");
      ContainsIsMentions(err.message, "closed unexpectedly");
    }
  }

  function ClassifyConfirmError(err: ConfirmError, closing: bool, channelClosed: bool, swapped: bool): Outcome
  {
    if closing || channelClosed || swapped || IsConnectionLostError(err) then ConnectionLost else Nacked
  }

  // ---------- state ----------

  /** Why a publish settled; for a nack with the signals the client had at that moment. */
  datatype Cause =
    | ByAck
    | ByNack(err: ConfirmError, closing: bool, channelClosed: bool, swapped: bool)
    | ByChannelClose(err: ConfirmError)
    | ByTimer
    | ByWriteFailure
    | ByRefusal

  datatype Stage = Queued | Sent | Finalized

  datatype Pub = Pub(
    channel: nat,             // the confirm channel captured by the call
    mandatory: bool,
    stage: Stage,
    returned: bool,           // the flag of its pending-return record
    outcome: Option<Outcome>,
    cause: Option<Cause>)

  datatype State = State(
    header: bool,             // correlation by header, else single-flight
    channel: Option<nat>,     // the publish channel
    closing: bool,
    closed: set<nat>,         // channels seen closing
    pending: set<nat>,        // keys of the pending-return table
    pubs: seq<Pub>,           // all publishes so far; the index is the publish id
    chain: seq<nat>,          // single-flight queue of mandatory publishes, head first
    live: set<nat>,           // channels that can still deliver frames
    unconfirmed: set<nat>,    // publishes whose confirm callback is outstanding
    brokerReturned: set<nat>, // publishes whose return frame was delivered
    misdirected: set<nat>,    // publishes still unsettled when the return of another publish was charged to them
    channels: nat)            // channels created so far

  function Initial(header: bool): State
  {
    State(header, None, false, {}, {}, [], [], {}, {}, {}, {}, 0)
  }

  datatype Step =
    | Publish(mandatory: bool, throws: bool)
    | StartQueued(throws: bool)
    | Return(id: nat)
    | Ack(id: nat)
    | Nack(id: nat, err: ConfirmError)
    | ChannelCloses(ch: nat, err: ConfirmError)
    | ConnectionDrops
    | ClearPending
    | ForgetChannel
    | ChannelReady
    | SetClosing(closing: bool)
    | Timeout(id: nat)
    | Finalize(id: nat)

  predicate IsSent(s: State, id: nat) { id < |s.pubs| && s.pubs[id].stage == Sent }

  predicate Unsettled(s: State, id: nat) { id < |s.pubs| && s.pubs[id].outcome.None? }

  /** The broker can still send a frame about `id`. */
  predicate Outstanding(s: State, id: nat)
  {
    id in s.unconfirmed && IsPub(s, id) && s.pubs[id].channel in s.live
  }

  predicate IsPub(s: State, id: nat) { id < |s.pubs| }

  predicate Enabled(s: State, e: Step)
  {
    match e
    case Publish(_, _) => true
    case StartQueued(_) => s.chain != [] && IsPub(s, s.chain[0]) && s.pubs[s.chain[0]].stage == Queued
    case Return(id) => Outstanding(s, id) && s.pubs[id].mandatory
    case Ack(id) => Outstanding(s, id)
    case Nack(id, _) => Outstanding(s, id)
    case ChannelCloses(_, _) => true
    case ConnectionDrops => true
    case ClearPending => s.live == {}
    case ForgetChannel => true
    case ChannelReady => true
    case SetClosing(_) => true
    case Timeout(id) => IsSent(s, id) && Unsettled(s, id)
    case Finalize(id) => IsSent(s, id) && !Unsettled(s, id)
  }

  /** Settle a publish unless it has settled before. */
  function Settle(p: Pub, outcome: Outcome, cause: Cause): Pub
  {
    if p.outcome.Some? then p else p.(outcome := Some(outcome), cause := Some(cause))
  }

  function SettleAt(s: State, id: nat, outcome: Outcome, cause: Cause): State
    requires id < |s.pubs|
  {
    s.(pubs := s.pubs[id := Settle(s.pubs[id], outcome, cause)])
  }

  /** `doPublish`: register for returns if mandatory, write, and have the confirm callback outstanding. */
  function DoPublish(s: State, id: nat, throws: bool): State
    requires id < |s.pubs|
  {
    var sent := s.(
      pubs := s.pubs[id := s.pubs[id].(stage := Sent)],
      pending := if s.pubs[id].mandatory then s.pending + {id} else s.pending);
    if throws then SettleAt(sent, id, ConnectionLost, ByWriteFailure)
    else sent.(unconfirmed := sent.unconfirmed + {id})
  }

  /** The client's view of a failed confirm of a publish on `ch`. */
  function Classified(s: State, ch: nat, err: ConfirmError): Outcome
  {
    ClassifyConfirmError(err, s.closing, ch in s.closed, s.channel != Some(ch))
  }

  /** The close listener put in front marks the channel, then every outstanding confirm callback gets an error. */
  function CloseChannel(s: State, ch: nat, err: ConfirmError): State
  {
    var marked := s.(closed := s.closed + {ch}, live := s.live - {ch});
    marked.(
      pubs := seq(|s.pubs|, k requires 0 <= k < |s.pubs| =>
        if k in s.unconfirmed && s.pubs[k].channel == ch
        then Settle(s.pubs[k], Classified(marked, ch, err), ByChannelClose(err))
        else s.pubs[k]),
      unconfirmed := set k | k in s.unconfirmed && !(k < |s.pubs| && s.pubs[k].channel == ch))
  }

  /** The return listener: by header the one publish meant, without it every pending one. */
  function MarkReturned(s: State, id: nat): State
  {
    s.(
      pubs := seq(|s.pubs|, k requires 0 <= k < |s.pubs| =>
        if k in s.pending && (s.header ==> k == id) then s.pubs[k].(returned := true) else s.pubs[k]),
      brokerReturned := s.brokerReturned + {id},
      misdirected := s.misdirected +
        if s.header then {} else set k | k in s.pending && k != id && Unsettled(s, k))
  }

  function Apply(s: State, e: Step): State
    requires Enabled(s, e)
  {
    match e
    case Publish(mandatory, throws) =>
      var id := |s.pubs|;
      if s.channel.None? || s.closing then
        s.(pubs := s.pubs + [Pub(0, mandatory, Finalized, false, Some(ConnectionLost), Some(ByRefusal))])
      else
        var added := s.(pubs := s.pubs + [Pub(s.channel.value, mandatory, Queued, false, None, None)]);
        if mandatory && !s.header then added.(chain := s.chain + [id]) else DoPublish(added, id, throws)
    case StartQueued(throws) => DoPublish(s, s.chain[0], throws)
    case Return(id) => MarkReturned(s, id)
    case Ack(id) =>
      SettleAt(s.(unconfirmed := s.unconfirmed - {id}), id,
        if s.pubs[id].returned then Unroutable else Resolved, ByAck)
    case Nack(id, err) =>
      var ch := s.pubs[id].channel;
      SettleAt(s.(unconfirmed := s.unconfirmed - {id}), id, Classified(s, ch, err),
        ByNack(err, s.closing, ch in s.closed, s.channel != Some(ch)))
    case ChannelCloses(ch, err) => CloseChannel(s, ch, err)
    case ConnectionDrops => s.(live := {})
    case ClearPending => s.(pending := {})
    case ForgetChannel => s.(channel := None)
    case ChannelReady =>
      s.(channel := Some(s.channels), live := s.live + {s.channels}, channels := s.channels + 1)
    case SetClosing(closing) => s.(closing := closing)
    case Timeout(id) => SettleAt(s, id, TimedOut, ByTimer)
    case Finalize(id) =>
      s.(pubs := s.pubs[id := s.pubs[id].(stage := Finalized)], pending := s.pending - {id},
         chain := if s.chain != [] && s.chain[0] == id then s.chain[1..] else s.chain)
  }

  // ---------- runs ----------

  ghost predicate Legal(header: bool, steps: seq<Step>)
  {
    steps == [] ||
    (Legal(header, steps[..|steps| - 1]) && Enabled(After(header, steps[..|steps| - 1]), steps[|steps| - 1]))
  }

  ghost function After(header: bool, steps: seq<Step>): State
  {
    if steps == [] then Initial(header) else
    var s := After(header, steps[..|steps| - 1]);
    if Enabled(s, steps[|steps| - 1]) then Apply(s, steps[|steps| - 1]) else s
  }

  // ---------- the invariant ----------

  /** What the cause of a settlement makes of a publish, given what the broker has returned. */
  function Verdict(cause: Cause, flagged: bool): Outcome
  {
    match cause
    case ByAck => if flagged then Unroutable else Resolved
    case ByNack(err, closing, channelClosed, swapped) => ClassifyConfirmError(err, closing, channelClosed, swapped)
    case ByChannelClose(_) => ConnectionLost
    case ByTimer => TimedOut
    case ByWriteFailure => ConnectionLost
    case ByRefusal => ConnectionLost
  }

  /** The return of this publish was delivered, or (single-flight) a late return was charged to it. */
  ghost predicate Flagged(s: State, id: nat) { id in s.brokerReturned || id in s.misdirected }

  ghost predicate PubInvariant(s: State, id: nat)
    requires id < |s.pubs|
  {
    var p := s.pubs[id];
    && (p.outcome.Some? <==> p.cause.Some?)
    && (p.stage == Finalized ==> p.outcome.Some?)
    && (p.stage == Queued ==> p.outcome.None? && p.mandatory && !s.header)
    && (p.cause != Some(ByRefusal) ==> p.channel < s.channels)
    && (p.cause == Some(ByRefusal) ==> p.stage == Finalized)
    && (p.cause == Some(ByAck) || p.cause == Some(ByRefusal) || p.stage == Queued ==> id !in s.unconfirmed)
    && (id in s.pending ==> p.stage == Sent && p.mandatory)
    && (Flagged(s, id) ==> p.mandatory && p.stage != Queued)
    // while frames about it can come in, an unsettled mandatory publish is registered ...
    && (p.stage == Sent && p.mandatory && p.outcome.None? && p.channel in s.live ==> id in s.pending)
    // ... so its flag says what was delivered about it, or charged to it
    && (p.outcome.None? ==> (p.returned <==> Flagged(s, id)))
    && (p.outcome.Some? ==> p.outcome.value == Verdict(p.cause.value, Flagged(s, id)))
  }

  ghost predicate Invariant(s: State)
  {
    && (forall id: nat :: id < |s.pubs| ==> PubInvariant(s, id))
    && (forall ch :: ch in s.live ==> ch < s.channels)
    && (s.channel.Some? ==> s.channel.value < s.channels)
    && (forall id :: id in s.unconfirmed ==> IsPub(s, id))
    && (forall id :: id in s.pending ==> IsPub(s, id))
    && (forall id :: id in s.brokerReturned || id in s.misdirected ==> IsPub(s, id))
    && (s.header ==> s.misdirected == {})
    && (forall id :: id in s.chain ==> !s.header && IsPub(s, id))
  }

  lemma PublishKeeps(s: State, e: Step, id: nat)
    requires Invariant(s) && Enabled(s, e) && e.Publish?
    requires id < |Apply(s, e).pubs|
    ensures PubInvariant(Apply(s, e), id)
  {
    if id < |s.pubs| { assert PubInvariant(s, id); }
    assert !IsPub(s, |s.pubs|);
  }

  lemma ReturnKeeps(s: State, e: Step, id: nat)
    requires Invariant(s) && Enabled(s, e) && e.Return? && id < |s.pubs|
    ensures PubInvariant(Apply(s, e), id)
  {
    assert PubInvariant(s, id) && PubInvariant(s, e.id);
  }

  lemma CloseKeeps(s: State, e: Step, id: nat)
    requires Invariant(s) && Enabled(s, e) && e.ChannelCloses? && id < |s.pubs|
    ensures PubInvariant(Apply(s, e), id)
  {
    assert PubInvariant(s, id);
  }

  lemma OneKeeps(s: State, e: Step, id: nat)
    requires Invariant(s) && Enabled(s, e) && id < |s.pubs|
    requires e.StartQueued? || e.Ack? || e.Nack? || e.Timeout? || e.Finalize?
    ensures PubInvariant(Apply(s, e), id)
  {
    hide CloseChannel, MarkReturned, IsConnectionLostError;
    assert PubInvariant(s, id);
  }

  lemma OutsideKeeps(s: State, e: Step, id: nat)
    requires Invariant(s) && Enabled(s, e) && id < |s.pubs|
    requires e.ConnectionDrops? || e.ClearPending? || e.ForgetChannel? || e.ChannelReady? || e.SetClosing?
    ensures PubInvariant(Apply(s, e), id)
  {
    assert PubInvariant(s, id);
  }

  lemma StepKeeps(s: State, e: Step)
    requires Invariant(s) && Enabled(s, e)
    ensures Invariant(Apply(s, e))
  {
    var s2 := Apply(s, e);
    FrameKeeps(s, e);
    forall id: nat | id < |s2.pubs| ensures PubInvariant(s2, id) {
      match e
      case Publish(_, _) => PublishKeeps(s, e, id);
      case Return(_) => ReturnKeeps(s, e, id);
      case ChannelCloses(_, _) => CloseKeeps(s, e, id);
      case _ => if e.StartQueued? || e.Ack? || e.Nack? || e.Timeout? || e.Finalize? { OneKeeps(s, e, id); }
                else { OutsideKeeps(s, e, id); }
    }
  }

  /** The part of the invariant that is not about single publishes. */
  lemma FrameKeeps(s: State, e: Step)
    requires Invariant(s) && Enabled(s, e)
    ensures var s2 := Apply(s, e);
      && (forall ch :: ch in s2.live ==> ch < s2.channels)
      && (s2.channel.Some? ==> s2.channel.value < s2.channels)
      && (forall id :: id in s2.unconfirmed ==> IsPub(s2, id))
      && (forall id :: id in s2.pending ==> IsPub(s2, id))
      && (forall id :: id in s2.brokerReturned || id in s2.misdirected ==> IsPub(s2, id))
      && (s2.header ==> s2.misdirected == {})
      && (forall id :: id in s2.chain ==> !s2.header && IsPub(s2, id))
  {
    hide Classified, PubInvariant;
    var s2 := Apply(s, e);
    assert |s.pubs| <= |s2.pubs| && forall id: nat :: IsPub(s, id) ==> IsPub(s2, id);
    forall id | id in s2.chain ensures !s2.header && IsPub(s2, id) {
      if id !in s.chain { assert e.Publish? && id == |s.pubs|; }
    }
  }

  lemma {:induction false} RunKeeps(header: bool, steps: seq<Step>)
    requires Legal(header, steps)
    ensures Invariant(After(header, steps)) && After(header, steps).header == header
  {
    if steps == [] {
    } else {
      RunKeeps(header, steps[..|steps| - 1]);
      StepKeeps(After(header, steps[..|steps| - 1]), steps[|steps| - 1]);
    }
  }

  // ---------- correlation ----------

  /**
   Every settled publish ended as its cause demands. With header correlation an acked publish is rejected as
   unroutable exactly when the broker returned this very message, and resolves exactly when it did not. Without
   the header the same holds up to returns that were charged to the wrong publish.
   */
  lemma OutcomesFollowCauses(header: bool, steps: seq<Step>, id: nat)
    requires Legal(header, steps) && id < |After(header, steps).pubs|
    ensures var s := After(header, steps); var p := s.pubs[id];
      && (p.outcome.Some? <==> p.cause.Some?)
      && (p.outcome.Some? ==> p.outcome.value == Verdict(p.cause.value, id in s.brokerReturned || id in s.misdirected))
      && (header ==> s.misdirected == {})
      && (id in s.brokerReturned || id in s.misdirected ==> p.mandatory)
  {
    RunKeeps(header, steps);
    assert PubInvariant(After(header, steps), id);
  }

  // ---------- single-flight ----------

  /** The queue holds the mandatory publishes that are not finished, and only its head has been sent. */
  ghost predicate SingleFlight(s: State)
  {
    && (forall i, j :: 0 <= i < j < |s.chain| ==> s.chain[i] != s.chain[j])
    && (forall i :: 0 <= i < |s.chain| ==> IsPub(s, s.chain[i]) && s.pubs[s.chain[i]].mandatory)
    && (forall i :: 1 <= i < |s.chain| ==> s.pubs[s.chain[i]].stage == Queued)
    && (s.chain != [] ==> s.pubs[s.chain[0]].stage != Finalized)
    && (forall id: nat :: id < |s.pubs| && s.pubs[id].mandatory && s.pubs[id].stage == Sent ==>
          s.chain != [] && s.chain[0] == id)
    && (forall id: nat :: id < |s.pubs| && s.pubs[id].stage == Queued ==> id in s.chain)
  }

  /** The publishes keep their stage and kind, and the queue is unchanged. */
  ghost predicate SameStages(s: State, s2: State)
  {
    && s2.header == s.header && s2.chain == s.chain && |s2.pubs| == |s.pubs|
    && forall id: nat :: id < |s.pubs| ==>
         s2.pubs[id].stage == s.pubs[id].stage && s2.pubs[id].mandatory == s.pubs[id].mandatory
  }

  lemma SameStagesKeep(s: State, s2: State)
    requires SingleFlight(s) && SameStages(s, s2)
    ensures SingleFlight(s2)
  {}

  /** One publish more: finished, sent without being mandatory, or mandatory and last in the queue. */
  ghost predicate OneMore(s: State, s2: State)
  {
    var id := |s.pubs|;
    && !s2.header && |s2.pubs| == id + 1 && s2.pubs[..id] == s.pubs
    && var p := s2.pubs[id];
       (|| (s2.chain == s.chain && (p.stage.Finalized? || (p.stage.Sent? && !p.mandatory)))
        || (s2.chain == s.chain + [id] && p.stage.Queued? && p.mandatory))
  }

  lemma PublishAddsOne(s: State, e: Step)
    requires !s.header && Enabled(s, e) && e.Publish?
    ensures OneMore(s, Apply(s, e))
  {}

  lemma OneMoreKeepsFlight(s: State, s2: State)
    requires SingleFlight(s) && OneMore(s, s2)
    ensures SingleFlight(s2)
  {
    var id := |s.pubs|;
    assert forall k :: 0 <= k < id ==> s2.pubs[k] == s.pubs[k];
    assert forall i :: 0 <= i < |s.chain| ==> s.chain[i] < id && s2.chain[i] == s.chain[i];
    if s2.chain == s.chain + [id] { assert s2.chain[|s.chain|] == id; }
  }

  lemma PublishKeepsFlight(s: State, e: Step)
    requires !s.header && SingleFlight(s) && Enabled(s, e) && e.Publish?
    ensures SingleFlight(Apply(s, e))
  {
    hide SingleFlight, OneMore, Apply, Enabled;
    PublishAddsOne(s, e);
    OneMoreKeepsFlight(s, Apply(s, e));
  }

  lemma StartKeepsFlight(s: State, e: Step)
    requires !s.header && SingleFlight(s) && Enabled(s, e) && e.StartQueued?
    ensures SingleFlight(Apply(s, e))
  {}

  lemma FinalizeKeepsFlight(s: State, e: Step)
    requires !s.header && SingleFlight(s) && Enabled(s, e) && e.Finalize?
    ensures SingleFlight(Apply(s, e))
  {
    var s2 := Apply(s, e);
    if s.chain != [] && s.chain[0] == e.id {
      assert forall i :: 0 <= i < |s2.chain| ==> s2.chain[i] == s.chain[i + 1];
      forall id: nat | id < |s.pubs| && s2.pubs[id].stage == Queued ensures id in s2.chain {
        var i :| 0 <= i < |s.chain| && s.chain[i] == id;
        assert s2.chain[i - 1] == id;
      }
    } else {
      assert s2.chain == s.chain;
      forall i | 0 <= i < |s.chain| ensures s.chain[i] != e.id {
        if i > 0 { assert s.pubs[s.chain[i]].stage == Queued; }
      }
    }
  }

  lemma SingleFlightKept(s: State, e: Step)
    requires !s.header && SingleFlight(s) && Enabled(s, e)
    ensures SingleFlight(Apply(s, e))
  {
    hide SingleFlight;
    match e
    case Publish(_, _) => PublishKeepsFlight(s, e);
    case StartQueued(_) => StartKeepsFlight(s, e);
    case Finalize(_) => FinalizeKeepsFlight(s, e);
    case _ =>
      assert SameStages(s, Apply(s, e));
      SameStagesKeep(s, Apply(s, e));
  }

  lemma {:induction false} RunIsSingleFlight(steps: seq<Step>)
    requires Legal(false, steps)
    ensures SingleFlight(After(false, steps))
  {
    if steps == [] {
    } else {
      RunIsSingleFlight(steps[..|steps| - 1]);
      RunKeeps(false, steps[..|steps| - 1]);
      SingleFlightKept(After(false, steps[..|steps| - 1]), steps[|steps| - 1]);
    }
  }

  /** Without the header at most one publish is ever registered for a return: the head of the queue. */
  lemma AtMostOnePending(steps: seq<Step>)
    requires Legal(false, steps)
    ensures var s := After(false, steps);
      |s.pending| <= 1 && (s.pending != {} ==> s.chain != [] && s.pending == {s.chain[0]})
  {
    var s := After(false, steps);
    hide After, Legal;
    RunKeeps(false, steps);
    RunIsSingleFlight(steps);
    forall id | id in s.pending ensures s.chain != [] && id == s.chain[0] {
      assert IsPub(s, id) && PubInvariant(s, id);
    }
    if id :| id in s.pending { assert s.pending == {s.chain[0]}; }
  }

  /** One step changes neither outcome nor cause of a settled publish. */
  lemma StepKeepsSettlement(s: State, e: Step, id: nat)
    requires Enabled(s, e) && id < |s.pubs| && s.pubs[id].outcome.Some?
    ensures id < |Apply(s, e).pubs|
    ensures Apply(s, e).pubs[id].outcome == s.pubs[id].outcome && Apply(s, e).pubs[id].cause == s.pubs[id].cause
    ensures Apply(s, e).pubs[id].mandatory == s.pubs[id].mandatory
  {}

  /** A settlement is final: in every continuation of every run, outcome and cause stay what they are. */
  lemma {:induction false} SettlementIsFinal(header: bool, steps: seq<Step>, more: seq<Step>, id: nat)
    requires Legal(header, steps + more) && id < |After(header, steps).pubs|
    requires After(header, steps).pubs[id].outcome.Some?
    ensures id < |After(header, steps + more).pubs|
    ensures After(header, steps + more).pubs[id].outcome == After(header, steps).pubs[id].outcome
    ensures After(header, steps + more).pubs[id].cause == After(header, steps).pubs[id].cause
    ensures After(header, steps + more).pubs[id].mandatory == After(header, steps).pubs[id].mandatory
  {
    hide Apply, Enabled;
    if more == [] {
      assert steps + more == steps;
    } else {
      var front, last := more[..|more| - 1], more[|more| - 1];
      assert (steps + more)[..|steps + more| - 1] == steps + front;
      SettlementIsFinal(header, steps, front, id);
      StepKeepsSettlement(After(header, steps + front), last, id);
    }
  }

  lemma {:induction false} LegalPrefix(header: bool, steps: seq<Step>, k: nat)
    requires Legal(header, steps) && k <= |steps|
    ensures Legal(header, steps[..k])
    ensures k < |steps| ==>
      Enabled(After(header, steps[..k]), steps[k])
      && After(header, steps[..k + 1]) == Apply(After(header, steps[..k]), steps[k])
  {
    if k == |steps| {
      assert steps[..k] == steps;
    } else {
      var front := steps[..|steps| - 1];
      assert front[..k] == steps[..k] && steps[..k + 1][..k] == steps[..k];
      if k < |front| {
        LegalPrefix(header, front, k);
        assert front[..k + 1] == steps[..k + 1];
      } else {
        assert steps[..k] == front && steps[..k + 1] == steps;
      }
    }
  }

  // ---------- what goes wrong without the header, exactly ----------

  /** A publish that settled while its confirm is outstanding ran into its timeout. */
  ghost predicate OwedMeansTimedOut(s: State)
  {
    forall id: nat :: id in s.unconfirmed && IsPub(s, id) && !Unsettled(s, id) ==> s.pubs[id].cause == Some(ByTimer)
  }

  lemma OwedKept(s: State, e: Step)
    requires Enabled(s, e) && OwedMeansTimedOut(s) && Invariant(s)
    ensures OwedMeansTimedOut(Apply(s, e))
  {
    var s2 := Apply(s, e);
    forall id: nat | id in s2.unconfirmed && IsPub(s2, id) && !Unsettled(s2, id)
      ensures s2.pubs[id].cause == Some(ByTimer)
    {
      if IsPub(s, id) {
        assert PubInvariant(s, id);
        if id in s.unconfirmed && !Unsettled(s, id) { assert s.pubs[id].cause == Some(ByTimer); }
      }
    }
  }

  lemma {:induction false} RunOwes(steps: seq<Step>)
    requires Legal(false, steps)
    ensures OwedMeansTimedOut(After(false, steps))
  {
    hide Apply, Enabled;
    if steps == [] {
      assert After(false, steps) == Initial(false);
    } else {
      RunOwes(steps[..|steps| - 1]);
      RunKeeps(false, steps[..|steps| - 1]);
      OwedKept(After(false, steps[..|steps| - 1]), steps[|steps| - 1]);
    }
  }

  /** The return of another publish, one that has timed out, comes in while `id` is pending and unsettled. */
  ghost predicate LateReturn(s: State, e: Step, id: nat)
  {
    && e.Return? && e.id != id && IsPub(s, e.id) && s.pubs[e.id].cause == Some(ByTimer)
    && id in s.pending && Unsettled(s, id)
  }

  ghost predicate LateReturnAt(steps: seq<Step>, k: nat, id: nat)
  {
    k < |steps| && LateReturn(After(false, steps[..k]), steps[k], id)
  }

  /** Only a late return is charged to the wrong publish, and it always is. */
  lemma StepMisdirects(s: State, e: Step, id: nat)
    requires Invariant(s) && !s.header && SingleFlight(s) && OwedMeansTimedOut(s) && Enabled(s, e)
    ensures id in Apply(s, e).misdirected <==> id in s.misdirected || LateReturn(s, e, id)
  {
    hide Classified;
    if e.Return? {
      assert PubInvariant(s, e.id);
      if id in s.pending {
        assert IsPub(s, id) && PubInvariant(s, id);
        assert id == s.chain[0] && (Unsettled(s, e.id) ==> e.id == id);
      }
    }
  }

  /** A return was charged to a publish exactly when a late return of another one came in while it was pending. */
  lemma {:induction false} MisdirectedIffLateReturn(steps: seq<Step>, id: nat)
    requires Legal(false, steps)
    ensures id in After(false, steps).misdirected <==> exists k: nat :: LateReturnAt(steps, k, id)
  {
    hide Apply, Enabled, LateReturn;
    if steps == [] {
      assert After(false, steps) == Initial(false);
    } else {
      var front, e := steps[..|steps| - 1], steps[|steps| - 1];
      MisdirectedIffLateReturn(front, id);
      RunKeeps(false, front);
      RunIsSingleFlight(front);
      RunOwes(front);
      StepMisdirects(After(false, front), e, id);
      forall k: nat ensures LateReturnAt(steps, k, id) <==>
        LateReturnAt(front, k, id) || (k == |front| && LateReturn(After(false, front), e, id))
      {
        if k < |front| { assert front[..k] == steps[..k]; }
        if k == |front| { assert steps[..k] == front; }
      }
      if LateReturn(After(false, front), e, id) { assert LateReturnAt(steps, |front|, id); }
      if k: nat :| LateReturnAt(front, k, id) { assert LateReturnAt(steps, k, id); }
    }
  }

  /**
   Without the header, for every run and every acked publish: it is unroutable exactly when the broker returned it
   or a late return of another publish, one that had timed out, came in while it was pending. So it is judged by
   its own return exactly when it was returned itself or no such late return came in.
   */
  lemma SingleFlightJudgement(steps: seq<Step>, id: nat)
    requires Legal(false, steps) && id < |After(false, steps).pubs|
    requires After(false, steps).pubs[id].cause == Some(ByAck)
    ensures var s := After(false, steps); var late := exists k: nat :: LateReturnAt(steps, k, id);
      && (s.pubs[id].outcome == Some(Unroutable) <==> id in s.brokerReturned || late)
      && (s.pubs[id].outcome == Some(if id in s.brokerReturned then Unroutable else Resolved) <==>
            id in s.brokerReturned || !late)
  {
    MisdirectedIffLateReturn(steps, id);
    OutcomesFollowCauses(false, steps, id);
  }

  /** No mandatory publish ran into its timeout. */
  ghost predicate NoMandatoryTimeout(s: State)
  {
    forall id: nat :: id < |s.pubs| && s.pubs[id].mandatory ==> s.pubs[id].cause != Some(ByTimer)
  }

  lemma LateReturnNeedsTimeout(steps: seq<Step>, k: nat, id: nat)
    requires Legal(false, steps) && LateReturnAt(steps, k, id)
    ensures !NoMandatoryTimeout(After(false, steps))
  {
    hide After, Legal;
    LegalPrefix(false, steps, k);
    var late, s := steps[k].id, After(false, steps[..k]);
    assert steps[..k] + steps[k..] == steps;
    RunKeeps(false, steps[..k]);
    assert PubInvariant(s, late);
    SettlementIsFinal(false, steps[..k], steps[k..], late);
  }

  /**
   In particular, on runs in which no mandatory publish times out, the correlation is as good as with the header: an
   acked publish is unroutable exactly when the broker returned this very message.
   */
  lemma SingleFlightCorrelates(steps: seq<Step>, id: nat)
    requires Legal(false, steps) && NoMandatoryTimeout(After(false, steps)) && id < |After(false, steps).pubs|
    requires After(false, steps).pubs[id].cause == Some(ByAck)
    ensures var s := After(false, steps);
      s.pubs[id].outcome == Some(if id in s.brokerReturned then Unroutable else Resolved)
  {
    SingleFlightJudgement(steps, id);
    if k: nat :| LateReturnAt(steps, k, id) { LateReturnNeedsTimeout(steps, k, id); }
  }

  // ---------- every publish settles ----------

  lemma Extend(header: bool, steps: seq<Step>, s: State, e: Step) returns (more: seq<Step>)
    requires Legal(header, steps) && After(header, steps) == s && Enabled(s, e)
    ensures more == steps + [e] && Legal(header, more) && After(header, more) == Apply(s, e)
  {
    more := steps + [e];
    assert more[..|more| - 1] == steps;
  }

  /** Steps the client takes by itself: its timers, its `finally` blocks, its queue. */
  predicate Own(e: Step) { e.Timeout? || e.Finalize? || e.StartQueued? }

  ghost predicate OwnContinuation(steps: seq<Step>, more: seq<Step>)
  {
    steps <= more && forall k :: |steps| <= k < |more| ==> Own(more[k])
  }

  /** A publish that was sent settles at its own timer at the latest. */
  lemma SentSettles(header: bool, steps: seq<Step>, id: nat) returns (more: seq<Step>)
    requires Legal(header, steps) && IsSent(After(header, steps), id)
    ensures Legal(header, more) && OwnContinuation(steps, more)
    ensures IsSent(After(header, more), id) && !Unsettled(After(header, more), id)
    ensures After(header, more).chain == After(header, steps).chain
  {
    hide Legal, After;
    more := steps;
    if Unsettled(After(header, steps), id) { more := Extend(header, steps, After(header, steps), Timeout(id)); }
  }

  /** The head of the queue can be sent and settled by the client alone. */
  lemma HeadSettles(steps: seq<Step>) returns (more: seq<Step>)
    requires Legal(false, steps) && After(false, steps).chain != []
    ensures Legal(false, more) && OwnContinuation(steps, more)
    ensures After(false, more).chain == After(false, steps).chain
    ensures var head := After(false, steps).chain[0];
      IsSent(After(false, more), head) && !Unsettled(After(false, more), head)
  {
    RunIsSingleFlight(steps);
    RunKeeps(false, steps);
    hide Legal, After;
    var s := After(false, steps);
    var next := steps;
    if s.pubs[s.chain[0]].stage == Queued { next := Extend(false, steps, s, StartQueued(false)); }
    more := SentSettles(false, next, s.chain[0]);
  }

  /** A queued publish at position `k` of the queue is reached by the client alone. */
  lemma {:induction false} QueuedSettles(steps: seq<Step>, k: nat) returns (more: seq<Step>)
    requires Legal(false, steps) && k < |After(false, steps).chain|
    ensures Legal(false, more) && OwnContinuation(steps, more)
    ensures var id := After(false, steps).chain[k]; IsPub(After(false, more), id) && !Unsettled(After(false, more), id)
    decreases k
  {
    hide Legal, After;
    more := HeadSettles(steps);
    var s := After(false, more);
    if k == 0 {
    } else {
      var next := Extend(false, more, s, Finalize(s.chain[0]));
      assert After(false, next).chain == s.chain[1..];
      more := QueuedSettles(next, k - 1);
    }
  }

  /** Whatever has happened so far, the client's own steps are enough to settle any publish. */
  lemma EveryPublishCanSettle(header: bool, steps: seq<Step>, id: nat) returns (more: seq<Step>)
    requires Legal(header, steps) && id < |After(header, steps).pubs|
    ensures Legal(header, more) && OwnContinuation(steps, more)
    ensures IsPub(After(header, more), id) && !Unsettled(After(header, more), id)
  {
    RunKeeps(header, steps);
    var s := After(header, steps);
    assert PubInvariant(s, id);
    if s.pubs[id].stage == Sent {
      more := SentSettles(header, steps, id);
    } else if s.pubs[id].stage == Queued {
      RunIsSingleFlight(steps);
      var k :| 0 <= k < |s.chain| && s.chain[k] == id;
      more := QueuedSettles(steps, k);
    } else {
      more := steps;
    }
  }

  /** Nothing is left for the client to do. */
  ghost predicate Quiet(s: State) { forall e :: Own(e) ==> !Enabled(s, e) }

  /** Where the client has no step of its own left, every publish is settled and finalized. */
  lemma QuietMeansSettled(header: bool, steps: seq<Step>, id: nat)
    requires Legal(header, steps) && Quiet(After(header, steps)) && id < |After(header, steps).pubs|
    ensures var p := After(header, steps).pubs[id]; p.outcome.Some? && p.stage == Finalized
  {
    hide Legal, After;
    RunKeeps(header, steps);
    var s := After(header, steps);
    NoneSent(s);
    assert PubInvariant(s, id) && !IsSent(s, id);
    if !header {
      RunIsSingleFlight(steps);
      NoneQueued(s);
    }
  }

  lemma NoneQueued(s: State)
    requires Quiet(s) && SingleFlight(s) && forall id: nat :: !IsSent(s, id)
    ensures forall id: nat :: id < |s.pubs| ==> s.pubs[id].stage != Queued
  {
    assert !Enabled(s, StartQueued(false));
    assert s.chain != [] ==> !IsSent(s, s.chain[0]);
  }

  lemma NoneSent(s: State)
    requires Quiet(s)
    ensures forall id: nat :: !IsSent(s, id)
  {
    forall id: nat ensures !IsSent(s, id) { assert !Enabled(s, Timeout(id)) && !Enabled(s, Finalize(id)); }
  }

  /** The own steps that a publish can still need. */
  function Weight(p: Pub): nat
  {
    match p.stage
    case Queued => 3
    case Sent => if p.outcome.None? then 2 else 1
    case Finalized => 0
  }

  function Work(pubs: seq<Pub>): nat
  {
    if pubs == [] then 0 else Weight(pubs[0]) + Work(pubs[1..])
  }

  lemma {:induction false} WorkUpdate(pubs: seq<Pub>, k: nat, p: Pub)
    requires k < |pubs|
    ensures Work(pubs[k := p]) == Work(pubs) - Weight(pubs[k]) + Weight(p)
  {
    hide Weight;
    if k == 0 {
      assert pubs[0 := p][1..] == pubs[1..];
    } else {
      assert pubs[k := p][1..] == pubs[1..][k - 1 := p];
      WorkUpdate(pubs[1..], k - 1, p);
    }
  }

  lemma OwnStepDoesWork(s: State, e: Step)
    requires Enabled(s, e) && Own(e)
    ensures Work(Apply(s, e).pubs) < Work(s.pubs)
  {
    hide Work;
    var id := if e.StartQueued? then s.chain[0] else e.id;
    var s2 := Apply(s, e);
    WorkUpdate(s.pubs, id, s2.pubs[id]);
    assert s2.pubs == s.pubs[id := s2.pubs[id]];
  }

  /** The client cannot go on by itself for ever: at most three steps for each publish. */
  lemma {:induction false} OwnStepsAreFinite(header: bool, steps: seq<Step>, more: seq<Step>)
    requires Legal(header, steps + more) && forall k :: 0 <= k < |more| ==> Own(more[k])
    ensures |more| + Work(After(header, steps + more).pubs) <= Work(After(header, steps).pubs)
  {
    hide Apply, Enabled, Work, Own;
    if more == [] {
      assert steps + more == steps;
    } else {
      var front := more[..|more| - 1];
      assert (steps + more)[..|steps + more| - 1] == steps + front;
      OwnStepsAreFinite(header, steps, front);
      OwnStepDoesWork(After(header, steps + front), more[|more| - 1]);
    }
  }

  lemma {:induction false} WorkIsBounded(pubs: seq<Pub>)
    ensures Work(pubs) <= 3 * |pubs|
  {
    if pubs == [] {} else { WorkIsBounded(pubs[1..]); }
  }

  // ---------- a late return in single-flight mode ----------

  /**
   Without the header, a publish that timed out leaves its return to be charged to the next one: here publish 1 is
   rejected as unroutable although the broker returned only publish 0.
   */
  lemma LateReturnIsMisdirected() returns (steps: seq<Step>)
    ensures Legal(false, steps)
    ensures var s := After(false, steps);
      |s.pubs| == 2 && s.pubs[0].outcome == Some(TimedOut) && s.brokerReturned == {0}
      && s.pubs[1].outcome == Some(Unroutable) && s.pubs[1].cause == Some(ByAck)
  {
    steps := SecondIsPending();
    hide Legal, After, CloseChannel, DoPublish, Classified;
    steps := Extend(false, steps, After(false, steps), Return(0));
    steps := Extend(false, steps, After(false, steps), Ack(1));
  }

  lemma SecondIsPending() returns (steps: seq<Step>)
    ensures Legal(false, steps)
    ensures var s := After(false, steps);
      && s.pubs == [Pub(0, true, Finalized, false, Some(TimedOut), Some(ByTimer)),
                    Pub(0, true, Sent, false, None, None)]
      && s.unconfirmed == {0, 1} && s.pending == {1} && s.live == {0} && !s.header && s.brokerReturned == {}
      && s.channel == Some(0)
  {
    steps := FirstTimedOut();
    hide Legal, After, CloseChannel, MarkReturned, Classified;
    steps := Extend(false, steps, After(false, steps), Publish(true, false));
    steps := Extend(false, steps, After(false, steps), StartQueued(false));
  }

  lemma FirstTimedOut() returns (steps: seq<Step>)
    ensures Legal(false, steps)
    ensures var s := After(false, steps);
      && s.pubs == [Pub(0, true, Finalized, false, Some(TimedOut), Some(ByTimer))]
      && s.unconfirmed == {0} && s.pending == {} && s.live == {0} && !s.header && s.brokerReturned == {}
      && s.channel == Some(0) && !s.closing && s.chain == []
  {
    steps := FirstIsSent();
    hide Legal, After, CloseChannel, MarkReturned, DoPublish, Classified;
    steps := Extend(false, steps, After(false, steps), Timeout(0));
    steps := Extend(false, steps, After(false, steps), Finalize(0));
  }

  lemma FirstIsSent() returns (steps: seq<Step>)
    ensures Legal(false, steps)
    ensures var s := After(false, steps);
      && s.pubs == [Pub(0, true, Sent, false, None, None)]
      && s.unconfirmed == {0} && s.pending == {0} && s.live == {0} && !s.header && s.brokerReturned == {}
      && s.channel == Some(0) && !s.closing && s.chain == [0]
  {
    steps := FirstIsQueued();
    hide Legal, After, CloseChannel, MarkReturned, Classified;
    steps := Extend(false, steps, After(false, steps), StartQueued(false));
  }

  lemma FirstIsQueued() returns (steps: seq<Step>)
    ensures Legal(false, steps)
    ensures var s := After(false, steps);
      && s.pubs == [Pub(0, true, Queued, false, None, None)]
      && s.unconfirmed == {} && s.pending == {} && s.live == {0} && !s.header && s.brokerReturned == {}
      && s.channel == Some(0) && !s.closing && s.chain == [0]
  {
    EmptyRun(false);
    hide Legal, After, CloseChannel, MarkReturned, DoPublish, Classified;
    steps := Extend(false, [], Initial(false), ChannelReady);
    steps := Extend(false, steps, After(false, steps), Publish(true, false));
  }

  lemma EmptyRun(header: bool)
    ensures Legal(header, []) && After(header, []) == Initial(header)
  {}

  // ---------- channel close and broker nack ----------

  /**
   When a channel closes, every publish it still owes a confirm, and that has not settled, ends as a lost
   connection, whatever the text of the error: never as a broker nack.
   */
  lemma CloseIsNeverANack(s: State, ch: nat, err: ConfirmError, id: nat)
    requires id in s.unconfirmed && Unsettled(s, id) && s.pubs[id].channel == ch
    ensures CloseChannel(s, ch, err).pubs[id].outcome == Some(ConnectionLost)
  {}

  /** The order matters: drained before the mark, an ordinary error text on a current channel reads as a nack. */
  lemma DrainBeforeMarkWouldNack(s: State, ch: nat)
    requires !s.closing && ch !in s.closed && s.channel == Some(ch)
    ensures Classified(s, ch, ErrorObject("socket reset")) == Nacked
    ensures Classified(s.(closed := s.closed + {ch}), ch, ErrorObject("socket reset")) == ConnectionLost
  {
    assert |Lower("socket reset")| < |"channel closed"|;
  }

  /**
   The broker nacks `id` while it is unsettled, on an open channel that is the current one, with the adapter not
   closing and no close-like error text.
   */
  ghost predicate PlainNack(s: State, e: Step, id: nat)
  {
    && e.Nack? && e.id == id && Unsettled(s, id)
    && !s.closing && s.pubs[id].channel !in s.closed && s.channel == Some(s.pubs[id].channel)
    && !IsConnectionLostError(e.err)
  }

  /** The broker acks `id` while it is unsettled. */
  ghost predicate PlainAck(s: State, e: Step, id: nat) { e.Ack? && e.id == id && Unsettled(s, id) }

  /** The answer of the broker that ends a publish as `outcome`. */
  ghost predicate Answers(s: State, e: Step, id: nat, outcome: Outcome)
  {
    match outcome
    case Nacked => PlainNack(s, e, id)
    case Resolved => PlainAck(s, e, id) && !Flagged(s, id)
    case Unroutable => PlainAck(s, e, id) && Flagged(s, id)
    case _ => false
  }

  predicate OfBroker(outcome: Outcome) { outcome.Nacked? || outcome.Resolved? || outcome.Unroutable? }

  /** A step makes a publish nacked exactly when it is a plain nack of it. */
  lemma StepNacks(s: State, e: Step, id: nat)
    requires Enabled(s, e) && IsPub(Apply(s, e), id)
    requires IsPub(s, id) ==> s.pubs[id].outcome != Some(Nacked)
    ensures Apply(s, e).pubs[id].outcome == Some(Nacked) <==> PlainNack(s, e, id)
  {
    hide IsConnectionLostError;
  }

  /** A step resolves a publish, or makes it unroutable, exactly when it is an ack of it, by what was returned. */
  lemma StepAcks(s: State, e: Step, id: nat, outcome: Outcome)
    requires Invariant(s) && Enabled(s, e) && IsPub(Apply(s, e), id)
    requires outcome.Resolved? || outcome.Unroutable?
    requires IsPub(s, id) ==> s.pubs[id].outcome != Some(outcome)
    ensures Apply(s, e).pubs[id].outcome == Some(outcome) <==> Answers(s, e, id, outcome)
  {
    hide IsConnectionLostError;
    if IsPub(s, id) { assert PubInvariant(s, id); }
  }

  /** The broker answers `id` with `outcome` at step `k`. */
  ghost predicate AnsweredAt(header: bool, steps: seq<Step>, k: nat, id: nat, outcome: Outcome)
  {
    k < |steps| && Answers(After(header, steps[..k]), steps[k], id, outcome)
  }

  lemma AnswerLasts(header: bool, steps: seq<Step>, k: nat, id: nat, outcome: Outcome)
    requires Legal(header, steps) && AnsweredAt(header, steps, k, id, outcome)
    ensures id < |After(header, steps).pubs| && After(header, steps).pubs[id].outcome == Some(outcome)
  {
    hide After, Legal, Invariant;
    LegalPrefix(header, steps, k);
    RunKeeps(header, steps[..k]);
    var s := After(header, steps[..k]);
    if outcome.Nacked? { StepNacks(s, steps[k], id); } else { StepAcks(s, steps[k], id, outcome); }
    assert steps[..k + 1] + steps[k + 1..] == steps;
    SettlementIsFinal(header, steps[..k + 1], steps[k + 1..], id);
  }

  lemma {:induction false} OutcomeHasAnAnswer(header: bool, steps: seq<Step>, id: nat, outcome: Outcome)
    returns (k: nat)
    requires Legal(header, steps) && id < |After(header, steps).pubs| && OfBroker(outcome)
    requires After(header, steps).pubs[id].outcome == Some(outcome)
    ensures AnsweredAt(header, steps, k, id, outcome)
  {
    hide Apply, Enabled, Answers, Invariant;
    var front := steps[..|steps| - 1];
    var s := After(header, front);
    if IsPub(s, id) && s.pubs[id].outcome == Some(outcome) {
      k := OutcomeHasAnAnswer(header, front, id, outcome);
      assert front[..k] == steps[..k];
    } else {
      k := |front|;
      assert steps[..k] == front;
      RunKeeps(header, front);
      BrokerSettles(s, steps[k], id, outcome);
    }
  }

  lemma BrokerSettles(s: State, e: Step, id: nat, outcome: Outcome)
    requires Invariant(s) && Enabled(s, e) && IsPub(Apply(s, e), id) && OfBroker(outcome)
    requires IsPub(s, id) ==> s.pubs[id].outcome != Some(outcome)
    ensures Apply(s, e).pubs[id].outcome == Some(outcome) ==> Answers(s, e, id, outcome)
  {
    hide Apply, Enabled, Invariant;
    if outcome.Nacked? { StepNacks(s, e, id); } else { StepAcks(s, e, id, outcome); }
  }

  /**
   Over every run: a publish is resolved, unroutable or nacked exactly when at some moment the broker answered so
   while it was unsettled: with an ack and no return delivered or charged to it before, with an ack after such a
   return, or with a plain nack.
   */
  lemma OutcomeIffAnswer(header: bool, steps: seq<Step>, id: nat, outcome: Outcome)
    requires Legal(header, steps) && id < |After(header, steps).pubs| && OfBroker(outcome)
    ensures After(header, steps).pubs[id].outcome == Some(outcome) <==>
      exists k: nat :: AnsweredAt(header, steps, k, id, outcome)
  {
    hide After, Legal;
    if k: nat :| AnsweredAt(header, steps, k, id, outcome) { AnswerLasts(header, steps, k, id, outcome); }
    if After(header, steps).pubs[id].outcome == Some(outcome) {
      var k := OutcomeHasAnAnswer(header, steps, id, outcome);
    }
  }

  /** A return frame of the publish arrives at step `k`. */
  ghost predicate ReturnedAt(steps: seq<Step>, k: nat, id: nat) { k < |steps| && steps[k] == Return(id) }

  lemma StepRecords(s: State, e: Step, id: nat)
    requires Enabled(s, e)
    ensures id in Apply(s, e).brokerReturned <==> id in s.brokerReturned || e == Return(id)
  {
    hide Classified;
  }

  lemma {:induction false} ReturnsAreRecorded(header: bool, steps: seq<Step>, id: nat)
    requires Legal(header, steps)
    ensures id in After(header, steps).brokerReturned <==> exists k: nat :: ReturnedAt(steps, k, id)
  {
    hide Enabled, Apply;
    if steps == [] {
      assert After(header, steps) == Initial(header);
    } else {
      var front, last := steps[..|steps| - 1], steps[|steps| - 1];
      ReturnsAreRecorded(header, front, id);
      StepRecords(After(header, front), last, id);
      if k: nat :| ReturnedAt(front, k, id) { assert ReturnedAt(steps, k, id); }
      if last == Return(id) { assert ReturnedAt(steps, |front|, id); }
      if k: nat :| ReturnedAt(steps, k, id) && k < |front| { assert ReturnedAt(front, k, id); }
    }
  }

  /** The broker acks `id` at step `k`, unsettled, with its return (not) delivered before. */
  ghost predicate AckedAt(header: bool, steps: seq<Step>, k: nat, id: nat, returned: bool)
  {
    && k < |steps| && PlainAck(After(header, steps[..k]), steps[k], id)
    && (returned <==> exists j: nat :: j < k && ReturnedAt(steps, j, id))
  }

  /**
   With header correlation, over every run: a publish is unroutable exactly when the broker acked it unsettled after
   returning this very message, and resolved exactly when it acked it unsettled without returning it.
   */
  lemma UnroutableIffReturnedThenAcked(steps: seq<Step>, id: nat)
    requires Legal(true, steps) && id < |After(true, steps).pubs|
    ensures After(true, steps).pubs[id].outcome == Some(Unroutable) <==>
      exists k: nat :: AckedAt(true, steps, k, id, true)
    ensures After(true, steps).pubs[id].outcome == Some(Resolved) <==>
      exists k: nat :: AckedAt(true, steps, k, id, false)
  {
    hide After, Legal, PlainAck;
    OutcomeIffAnswer(true, steps, id, Unroutable);
    OutcomeIffAnswer(true, steps, id, Resolved);
    forall k: nat
      ensures AnsweredAt(true, steps, k, id, Unroutable) <==> AckedAt(true, steps, k, id, true)
      ensures AnsweredAt(true, steps, k, id, Resolved) <==> AckedAt(true, steps, k, id, false)
    {
      if k < |steps| { FlaggedIffReturned(steps, k, id); }
    }
  }

  lemma FlaggedIffReturned(steps: seq<Step>, k: nat, id: nat)
    requires Legal(true, steps) && k < |steps|
    ensures Flagged(After(true, steps[..k]), id) <==> exists j: nat :: j < k && ReturnedAt(steps, j, id)
  {
    hide After, Legal;
    LegalPrefix(true, steps, k);
    RunKeeps(true, steps[..k]);
    ReturnsAreRecorded(true, steps[..k], id);
    if j: nat :| ReturnedAt(steps[..k], j, id) { assert ReturnedAt(steps, j, id); }
    if j: nat :| j < k && ReturnedAt(steps, j, id) { assert ReturnedAt(steps[..k], j, id); }
  }

  ghost predicate PlainNackAt(header: bool, steps: seq<Step>, k: nat, id: nat)
  {
    k < |steps| && PlainNack(After(header, steps[..k]), steps[k], id)
  }

  /** Over every run: a publish is reported as nacked exactly when the broker nacked it plainly at some moment. */
  lemma NackedOnlyByTheBroker(header: bool, steps: seq<Step>, id: nat)
    requires Legal(header, steps) && id < |After(header, steps).pubs|
    ensures After(header, steps).pubs[id].outcome == Some(Nacked) <==>
      exists k: nat :: PlainNackAt(header, steps, k, id)
  {
    hide After, Legal, PlainNack;
    OutcomeIffAnswer(header, steps, id, Nacked);
    forall k: nat ensures AnsweredAt(header, steps, k, id, Nacked) <==> PlainNackAt(header, steps, k, id) {}
  }
}
