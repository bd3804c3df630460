/**
 The publisher side of the AMQP adapter as the code has it: closure variables reassigned by `publish`, by the
 channel's listeners and by timers. Every method is one synchronous stretch and is proved to be the step of
 `AmqpConfirms` of the same name. Ghost fields are the outside world's share of that state.
 */
module AmqpPublishers {
  import opened Options
  import opened A = AmqpConfirms

  /** The publish after its channel drained: its promise settled if its confirm was outstanding. */
  function Drained(p: Pub, outstanding: bool, outcome: Outcome, err: ConfirmError): Pub
  {
    if outstanding then Settle(p, outcome, ByChannelClose(err)) else p
  }

  class Publisher {
    const header: bool
    var publishChannel: Option<nat>
    var closing: bool
    var closedChannels: set<nat>
    var pendingReturns: set<nat>
    var pubs: seq<Pub>
    var mandatoryChain: seq<nat>
    var unconfirmed: set<nat>  // the client library's outstanding confirm callbacks
    ghost var live: set<nat>
    ghost var brokerReturned: set<nat>
    ghost var misdirected: set<nat>
    ghost var channels: nat

    ghost function View(): State reads this
    {
      State(header, publishChannel, closing, closedChannels, pendingReturns, pubs, mandatoryChain, live,
            unconfirmed, brokerReturned, misdirected, channels)
    }

    constructor (header: bool)
      ensures this.header == header && View() == Initial(header)
    {
      this.header := header;
      publishChannel, closing, closedChannels, pendingReturns, pubs, mandatoryChain := None, false, {}, {}, [], [];
      unconfirmed, live, brokerReturned, misdirected, channels := {}, {}, {}, {}, 0;
    }

    /** Settle the promise of a publish unless it has settled before. */
    method SettlePromise(id: nat, outcome: Outcome, cause: Cause)
      requires id < |pubs|
      modifies `pubs
      ensures View() == SettleAt(old(View()), id, outcome, cause)
    {
      if pubs[id].outcome.None? {
        pubs := pubs[id := pubs[id].(outcome := Some(outcome), cause := Some(cause))];
      }
    }

    method DoPublish(id: nat, throws: bool)
      requires id < |pubs|
      modifies this
      ensures View() == A.DoPublish(old(View()), id, throws)
    {
      pubs := pubs[id := pubs[id].(stage := Sent)];
      if pubs[id].mandatory { pendingReturns := pendingReturns + {id}; }
      if throws {
        SettlePromise(id, ConnectionLost, ByWriteFailure);
      } else {
        unconfirmed := unconfirmed + {id};
      }
    }

    /** `publish()`: refused without a channel, queued in single-flight mode if mandatory, else sent at once. */
    method Publish(mandatory: bool, throws: bool) returns (id: nat)
      modifies this
      ensures View() == Apply(old(View()), Step.Publish(mandatory, throws))
      ensures id == old(|pubs|)
    {
      id := |pubs|;
      if publishChannel.None? || closing {
        pubs := pubs + [Pub(0, mandatory, Finalized, false, Some(ConnectionLost), Some(ByRefusal))];
        return;
      }
      pubs := pubs + [Pub(publishChannel.value, mandatory, Queued, false, None, None)];
      if mandatory && !header {
        mandatoryChain := mandatoryChain + [id];
      } else {
        DoPublish(id, throws);
      }
    }

    /** The head of the single-flight queue gets its turn. */
    method OnTurn(throws: bool)
      requires Enabled(View(), StartQueued(throws))
      modifies this
      ensures View() == Apply(old(View()), StartQueued(throws))
    {
      DoPublish(mandatoryChain[0], throws);
    }

    /** The `return` listener; the frame carries the publish id only in header mode. */
    method OnReturn(id: nat)
      requires Enabled(View(), Return(id))
      modifies this
      ensures View() == Apply(old(View()), Return(id))
    {
      hide Unsettled;
      ghost var before := View();
      brokerReturned := brokerReturned + {id};
      if header {
        if id in pendingReturns { pubs := pubs[id := pubs[id].(returned := true)]; }
        assert misdirected == before.misdirected + {};
        assert pubs == MarkReturned(before, id).pubs;
      } else {
        misdirected := misdirected + set k | k in pendingReturns && k != id && Unsettled(before, k);
        MarkPending();
        assert pubs == MarkReturned(before, id).pubs;
      }
    }

    /** Without a publish id on the frame, every entry of the pending map is marked. */
    method MarkPending()
      modifies `pubs
      ensures |pubs| == old(|pubs|)
      ensures forall j :: 0 <= j < |pubs| ==>
        pubs[j] == if j in pendingReturns then old(pubs)[j].(returned := true) else old(pubs)[j]
    {
      var k := 0;
      while k < |pubs|
        invariant 0 <= k <= |pubs| == |old(pubs)|
        invariant forall j :: 0 <= j < k ==>
          pubs[j] == if j in pendingReturns then old(pubs)[j].(returned := true) else old(pubs)[j]
        invariant forall j :: k <= j < |pubs| ==> pubs[j] == old(pubs)[j]
      {
        if k in pendingReturns { pubs := pubs[k := pubs[k].(returned := true)]; }
        k := k + 1;
      }
    }

    /** The confirm callback of one publish, for an ack (no error) or a nack frame. */
    method OnConfirm(id: nat, err: Option<ConfirmError>)
      requires Outstanding(View(), id)
      modifies this
      ensures View() == Apply(old(View()), if err.None? then Ack(id) else Nack(id, err.value))
    {
      unconfirmed := unconfirmed - {id};
      if err.Some? {
        var ch := pubs[id].channel;
        var outcome := ClassifyConfirmError(err.value, closing, ch in closedChannels, publishChannel != Some(ch));
        SettlePromise(id, outcome, ByNack(err.value, closing, ch in closedChannels, publishChannel != Some(ch)));
      } else if pubs[id].returned {
        SettlePromise(id, Unroutable, ByAck);
      } else {
        SettlePromise(id, Resolved, ByAck);
      }
    }

    /** A channel closes: our listener runs first and marks it, then the library fails every outstanding confirm. */
    method OnChannelClose(ch: nat, err: ConfirmError)
      modifies this
      ensures View() == Apply(old(View()), ChannelCloses(ch, err))
    {
      ghost var before := View();
      closedChannels := closedChannels + {ch};
      live := live - {ch};
      FailConfirms(ch, ClassifyConfirmError(err, closing, ch in closedChannels, publishChannel != Some(ch)), err);
      unconfirmed := set id | id in unconfirmed && !(id < |pubs| && pubs[id].channel == ch);
      hide ClassifyConfirmError;
      assert pubs == CloseChannel(before, ch, err).pubs;
      assert unconfirmed == CloseChannel(before, ch, err).unconfirmed;
    }

    /** Every outstanding confirm callback of a channel fails with the same error. */
    method FailConfirms(ch: nat, outcome: Outcome, err: ConfirmError)
      modifies `pubs
      ensures |pubs| == old(|pubs|)
      ensures forall j :: 0 <= j < |pubs| ==>
        pubs[j] == Drained(old(pubs)[j], j in unconfirmed && old(pubs)[j].channel == ch, outcome, err)
    {
      hide Settle;
      var k := 0;
      while k < |pubs|
        invariant 0 <= k <= |pubs| == |old(pubs)|
        invariant forall j :: 0 <= j < k ==>
          pubs[j] == Drained(old(pubs)[j], j in unconfirmed && old(pubs)[j].channel == ch, outcome, err)
        invariant forall j :: k <= j < |pubs| ==> pubs[j] == old(pubs)[j]
      {
        if k in unconfirmed && pubs[k].channel == ch { SettlePromise(k, outcome, ByChannelClose(err)); }
        k := k + 1;
      }
    }

    method OnTimeout(id: nat)
      requires Enabled(View(), Timeout(id))
      modifies this
      ensures View() == Apply(old(View()), Timeout(id))
    {
      SettlePromise(id, TimedOut, ByTimer);
    }

    /** The `finally` of `doPublish`; in single-flight mode the queue moves on. */
    method OnFinally(id: nat)
      requires Enabled(View(), Finalize(id))
      modifies this
      ensures View() == Apply(old(View()), Finalize(id))
    {
      pubs := pubs[id := pubs[id].(stage := Finalized)];
      pendingReturns := pendingReturns - {id};
      if mandatoryChain != [] && mandatoryChain[0] == id { mandatoryChain := mandatoryChain[1..]; }
    }

    /** `failPendingReturns`; the step system has it where the connection life cycle calls it, with no live channel. */
    method FailPendingReturns()
      modifies this
      ensures View() == old(View()).(pending := {})
      ensures old(live) == {} ==> View() == Apply(old(View()), ClearPending)
    {
      pendingReturns := {};
    }

    /** A confirm channel has been created; `ch` is its identity. */
    method SetupPublishChannel(ch: nat)
      requires ch == channels
      modifies this
      ensures View() == Apply(old(View()), ChannelReady)
    {
      publishChannel := Some(ch);
      live := live + {ch};
      channels := channels + 1;
    }

    method ClearPublishChannel()
      modifies this
      ensures View() == Apply(old(View()), ForgetChannel)
    {
      publishChannel := None;
    }

    /** `connect` and `disconnect` set the flag. */
    method MarkClosing(value: bool)
      modifies this
      ensures View() == Apply(old(View()), SetClosing(value))
    {
      closing := value;
    }
  }
}
