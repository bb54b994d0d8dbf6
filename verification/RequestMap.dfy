/**
 The request map as the object the client holds.  Every method is proved to be a sequence of
 steps of RequestProtocol, taken here by one thread while others may be part-way through theirs.
 */
module RequestMap {
  import opened Wrappers
  import opened RequestProtocol
  import opened RequestRuns

  /** A channel of capacity 1.  Sending on or closing a closed channel would panic, sending to a full one would block. */
  class Channel {
    var buffer: seq<Result>
    var closed: bool

    constructor ()
      ensures buffer == [] && !closed
    {
      buffer, closed := [], false;
    }

    method Send(result: Result)
      requires !closed && buffer == []
      modifies this
      ensures buffer == [result] && !closed
    {
      buffer := [result];
    }

    method Close()
      requires !closed
      modifies this
      ensures buffer == old(buffer) && closed
    {
      closed := true;
    }
  }

  lemma StartAdds(s: Sys, reqID: int)
    ensures OnStart(s, reqID).chans == s.chans + [Chan([], false, [])]
    ensures OnStart(s, reqID).pending == s.pending[reqID := |s.chans|]
  {
  }

  lemma DrainTakes(s: Sys, t: int, order: seq<int>, result: Result)
    requires t !in s.threads && forall i :: 0 <= i < |order| ==> order[i] in s.pending
    ensures var s', held := OnDrain(s, t, order, result), ChansOf(s.pending, order, |order|);
            && s'.chans == s.chans && s'.pending == map[]
            && (if held == [] then t !in s'.threads else t in s'.threads && s'.threads[t] == Sending(held, result))
  {
  }

  class RequestMap {
    var pending: map<int, Channel>
    /** The protocol state this map, its channels and the other threads are in. */
    ghost var sys: Sys
    /** Every channel ever made, by number. */
    ghost var all: seq<Channel>

    ghost predicate ChannelsMatch()
      reads this, all
    {
      && |all| == |sys.chans|
      && (forall c :: 0 <= c < |all| ==> all[c].buffer == sys.chans[c].buffer && all[c].closed == sys.chans[c].closed)
    }

    ghost predicate Apart()
      reads this
    {
      forall c, d :: 0 <= c < d < |all| ==> all[c] != all[d]
    }

    /** The channels stand under their keys for the numbers that `numbers` gives. */
    ghost predicate Paired(channels: map<int, Channel>, numbers: map<int, nat>)
      reads this
    {
      && channels.Keys == numbers.Keys
      && forall r :: r in channels ==> numbers[r] < |all| && channels[r] == all[numbers[r]]
    }

    ghost predicate PendingMatches()
      reads this
    {
      Paired(pending, sys.pending)
    }

    ghost predicate Valid()
      reads this, all
    {
      Inv(sys) && ChannelsMatch() && Apart() && PendingMatches()
    }

    constructor ()
      ensures Valid() && sys == INIT && all == []
    {
      pending, sys, all := map[], INIT, [];
    }

    method Start(reqID: int) returns (ch: Channel)
      requires Valid()
      modifies this
      ensures Valid() && sys == OnStart(old(sys), reqID)
      ensures fresh(ch) && all == old(all) + [ch] && pending == old(pending)[reqID := ch]
    {
      hide Inv, OnStart;
      ch := new Channel();
      StartKeepsInv(sys, reqID);
      StartAdds(sys, reqID);
      pending := pending[reqID := ch];
      sys, all := OnStart(sys, reqID), all + [ch];
    }

    /** The lock section of `Complete`, for a pending request. */
    method TakePending(reqID: int, ghost t: int, ghost result: Result) returns (ch: Channel)
      requires Valid() && t !in sys.threads && reqID in pending
      modifies this
      ensures Valid() && sys == OnTake(old(sys), t, reqID, result) && all == old(all)
      ensures pending == old(pending) - {reqID} && ch == old(pending[reqID])
      ensures sys.pending == old(sys.pending) - {reqID} && old(sys.pending[reqID]) < |all| && ch == all[old(sys.pending[reqID])]
      ensures t in sys.threads && sys.threads[t] == Sending([old(sys.pending[reqID])], result)
    {
      TakeKeepsInv(sys, t, reqID, result);
      ch := pending[reqID];
      pending := pending - {reqID};
      sys := OnTake(sys, t, reqID, result);
    }

    /** Thread `t` sends to the next channel on its list. */
    method SendNext(ch: Channel, ghost t: int, result: Result)
      requires Valid() && t in sys.threads && sys.threads[t].Sending? && sys.threads[t].result == result
      requires sys.threads[t].todo[0] < |all| && ch == all[sys.threads[t].todo[0]]
      modifies this`sys, ch
      ensures Valid() && OnSend(old(sys), t) == Ok(sys)
      ensures ch.buffer == [result] && !ch.closed
    {
      SendKeepsInv(sys, t);
      ch.Send(result);
      sys := OnSend(sys, t).sys;
    }

    /** Thread `t` closes the channel it sent to. */
    method CloseCurrent(ch: Channel, ghost t: int)
      requires Valid() && t in sys.threads && sys.threads[t].Closing?
      requires sys.threads[t].ch < |all| && ch == all[sys.threads[t].ch]
      modifies this`sys, ch
      ensures Valid() && OnClose(old(sys), t) == Ok(sys)
      ensures ch.buffer == old(ch.buffer) && ch.closed
    {
      CloseKeepsInv(sys, t);
      ch.Close();
      sys := OnClose(sys, t).sys;
    }

    /** Resolves a pending request; completing one that is not pending changes nothing. */
    method Complete(reqID: int, result: Result, ghost t: int)
      requires Valid() && t !in sys.threads
      modifies this, all
      ensures Valid() && all == old(all)
      ensures reqID !in old(pending) ==> sys == old(sys) && pending == old(pending)
      ensures reqID in old(pending) ==>
                && Completed(old(sys), t, reqID, result) == Ok(sys)
                && pending == old(pending) - {reqID} && t !in sys.threads
                && old(pending[reqID]).buffer == [result] && old(pending[reqID]).closed
    {
      hide Placed, SentOnce;
      if reqID in pending {
        var ch := TakePending(reqID, t, result);
        SendNext(ch, t, result);
        CloseCurrent(ch, t);
      }
    }

    /** Removes and closes a pending request, without a result. */
    method Cancel(reqID: int)
      requires Valid()
      modifies this, all
      ensures Valid() && all == old(all)
      ensures Then(Ok(old(sys)), RequestProtocol.Cancel(reqID)) == Ok(sys)
      ensures pending == old(pending) - {reqID}
      ensures reqID in old(pending) ==> old(pending[reqID]).closed && old(pending[reqID]).buffer == []
    {
      if reqID in pending {
        var ch := pending[reqID];
        CancelKeepsInv(sys, reqID);
        pending := pending - {reqID};
        ch.Close();
        sys := OnCancel(sys, reqID).sys;
      }
    }

    /** The order in which a loop over the map meets its keys: any order, each key once. */
    method RangeOrder() returns (order: seq<int>)
      requires Valid()
      ensures Ranges(order, sys.pending)
    {
      order := [];
      var todo := pending;
      while |todo| > 0
        invariant todo.Keys <= pending.Keys
        invariant forall i :: 0 <= i < |order| ==> order[i] in pending && order[i] !in todo
        invariant forall r :: r in pending ==> r in todo || r in order
        invariant forall i, j :: 0 <= i < j < |order| ==> order[i] != order[j]
        decreases |todo|
      {
        assert todo.Items != {};
        var item :| item in todo.Items;
        order := order + [item.0];
        todo := todo - {item.0};
      }
    }

    /** `held` numbers the taken channels in the order of their keys. */
    ghost predicate Numbered(order: seq<int>, taken: map<int, Channel>, held: seq<nat>)
      reads this
    {
      && |held| == |order|
      && forall j :: 0 <= j < |order| ==> order[j] in taken && held[j] < |all| && taken[order[j]] == all[held[j]]
    }

    lemma PendingNumbered(order: seq<int>)
      requires PendingMatches() && forall i :: 0 <= i < |order| ==> order[i] in sys.pending
      ensures Numbered(order, pending, ChansOf(sys.pending, order, |order|))
    {
      var held := ChansOf(sys.pending, order, |order|);
      forall j | 0 <= j < |order| ensures order[j] in pending && held[j] < |all| && pending[order[j]] == all[held[j]] {
        PendingAt(order[j]);
      }
    }

    lemma PendingAt(r: int)
      requires PendingMatches() && r in sys.pending
      ensures r in pending && sys.pending[r] < |all| && pending[r] == all[sys.pending[r]]
    {
      assert r in pending.Keys;
    }

    /** The lock section of `DrainAll`. */
    method TakeAll(order: seq<int>, ghost t: int, ghost result: Result)
      returns (taken: map<int, Channel>, ghost held: seq<nat>)
      requires Valid() && t !in sys.threads && Ranges(order, sys.pending)
      modifies this
      ensures Valid() && Then(Ok(old(sys)), Drain(t, order, result)) == Ok(sys)
      ensures all == old(all) && pending == map[]
      ensures taken == old(pending) && Numbered(order, taken, held) && Draining(held, 0, t, result)
      ensures Paired(taken, old(sys).pending)
    {
      hide Placed, SentOnce, OnDrain;
      taken, held := pending, ChansOf(sys.pending, order, |order|);
      PendingNumbered(order);
      DrainKeepsInv(sys, t, order, result);
      DrainTakes(sys, t, order, result);
      hide Inv;
      pending := map[];
      sys := OnDrain(sys, t, order, result);
    }

    /** Thread `t` still has the channels from the `n`th on to resolve. */
    ghost predicate Draining(held: seq<nat>, n: nat, t: int, result: Result)
      requires n <= |held|
      reads this
    {
      if n == |held| then t !in sys.threads else t in sys.threads && sys.threads[t] == Sending(held[n..], result)
    }

    /** The body of the loop of `DrainAll`. */
    method DrainOne(
      order: seq<int>, taken: map<int, Channel>, ghost held: seq<nat>, i: nat, ghost t: int, result: Result)
      requires Valid() && Numbered(order, taken, held) && i < |order| && Draining(held, i, t, result)
      modifies this`sys, all
      ensures Valid() && Then(Then(Ok(old(sys)), Send(t)), Close(t)) == Ok(sys)
      ensures Numbered(order, taken, held) && Draining(held, i + 1, t, result)
      ensures all == old(all) && pending == old(pending)
    {
      hide Placed, SentOnce;
      var ch := taken[order[i]];
      SendNext(ch, t, result);
      CloseCurrent(ch, t);
      assert i + 1 < |held| ==> held[i..][1..] == held[i + 1..];
    }

    /** The loop of `DrainAll`. */
    method DrainLoop(order: seq<int>, taken: map<int, Channel>, ghost held: seq<nat>, ghost t: int, result: Result)
      requires Valid() && Numbered(order, taken, held) && Draining(held, 0, t, result)
      modifies this`sys, all
      ensures Valid() && Drained(Ok(old(sys)), t, |order|) == Ok(sys)
      ensures all == old(all) && pending == old(pending)
    {
      var i := 0;
      while i < |order|
        modifies this`sys, all
        invariant i <= |order|
        invariant Valid() && Numbered(order, taken, held)
        invariant all == old(all) && pending == old(pending)
        invariant Drained(Ok(old(sys)), t, i) == Ok(sys)
        invariant Draining(held, i, t, result)
      {
        DrainOne(order, taken, held, i, t, result);
        i := i + 1;
      }
    }

    /** Resolves every pending request with an error. */
    method DrainAll(err: string, ghost t: int) returns (order: seq<int>)
      requires Valid() && t !in sys.threads
      modifies this, all
      ensures Valid() && all == old(all) && pending == map[] && t !in sys.threads
      ensures Ranges(order, old(sys.pending))
      ensures Drained(Then(Ok(old(sys)), Drain(t, order, Result(None, Some(err)))), t, |order|) == Ok(sys)
      ensures forall r :: r in old(pending) ==>
                            old(pending)[r].buffer == [Result(None, Some(err))] && old(pending)[r].closed
    {
      order := RangeOrder();
      hide *;
      DrainInOrder(order, t, Result(None, Some(err)));
    }

    method DrainInOrder(order: seq<int>, ghost t: int, result: Result)
      requires Valid() && t !in sys.threads && Ranges(order, sys.pending)
      modifies this, all
      ensures Valid() && all == old(all) && pending == map[] && t !in sys.threads
      ensures Drained(Then(Ok(old(sys)), Drain(t, order, result)), t, |order|) == Ok(sys)
      ensures forall r :: r in old(pending) ==> old(pending)[r].buffer == [result] && old(pending)[r].closed
    {
      hide WF, ChannelsMatch, Apart, Then, OnDrain, Pending, Placed, SentOnce;
      DrainResolvesPending(sys, t, order, result);
      hide *;
      ghost var s := sys;
      var taken, held := TakeAll(order, t, result);
      DrainLoop(order, taken, held, t, result);
      TakenResolved(taken, s, result);
    }

    lemma TakenResolved(taken: map<int, Channel>, s: Sys, result: Result)
      requires Valid() && Paired(taken, s.pending) && |sys.chans| == |s.chans|
      requires forall c :: 0 <= c < |s.chans| ==>
                             sys.chans[c] == if Pending(s, c) then ResolvedWith(result) else s.chans[c]
      ensures forall r :: r in taken ==> taken[r].buffer == [result] && taken[r].closed
    {
      forall r | r in taken ensures taken[r].buffer == [result] && taken[r].closed {
        assert s.pending[r] < |all| && Pending(s, s.pending[r]);
      }
    }

    method Has(reqID: int) returns (has: bool)
      requires Valid()
      ensures has <==> reqID in sys.pending
    {
      has := reqID in pending;
    }

    method Len() returns (n: nat)
      requires Valid()
      ensures n == |sys.pending|
    {
      n := |pending|;
      assert |pending| == |pending.Keys| && |sys.pending| == |sys.pending.Keys|;
    }
  }
}
