/**
 The part of the state manager that runs request-response cycles, as an object over the request
 map.  Each call runs to its end before the next, so every method is one step of Results.
 */
module ResultManager {
  import opened Wrappers
  import opened RequestProtocol
  import opened RequestRuns
  import opened RequestMap
  import S = Results

  /** What became of a channel, read off everything sent to it. */
  function FateOf(ch: Chan): S.Fate {
    if !ch.closed then S.Waiting else if ch.sent == [] then S.Cancelled else S.Delivered(ch.sent[0])
  }

  /** No call is under way, the same requests are pending, and every channel met its fate. */
  ghost predicate Agree(b: S.State, s: Sys) {
    && s.threads == map[] && b.pending == s.pending && |b.fates| == |s.chans|
    && forall c :: 0 <= c < |s.chans| ==> b.fates[c] == FateOf(s.chans[c])
  }

  lemma CompleteAgrees(b: S.State, s: Sys, reqID: int, result: Result)
    requires Inv(s) && Agree(b, s) && reqID in s.pending
    ensures Completed(s, 0, reqID, result).Ok?
    ensures Agree(S.Settle(b, reqID, S.Delivered(result)), Completed(s, 0, reqID, result).sys)
  {
    CompletedResolvesOne(s, 0, reqID, result);
  }

  lemma CancelAgrees(b: S.State, s: Sys, reqID: int)
    requires Inv(s) && Agree(b, s)
    ensures Exec(s, Cancel(reqID)).Ok?
    ensures Agree(S.Settle(b, reqID, S.Cancelled), Exec(s, Cancel(reqID)).sys)
  {
    ExecKeepsInv(s, Cancel(reqID));
    if reqID in s.pending { PendingIsFresh(s, reqID); }
  }

  lemma DrainAgrees(b: S.State, s: Sys, order: seq<int>, result: Result)
    requires Inv(s) && Agree(b, s) && Ranges(order, s.pending)
    ensures Drained(Then(Ok(s), Drain(0, order, result)), 0, |order|).Ok?
    ensures Agree(S.Drained(b, result), Drained(Then(Ok(s), Drain(0, order, result)), 0, |order|).sys)
  {
    DrainResolvesPending(s, 0, order, result);
  }

  class Manager {
    var results: map<int, Option<seq<int>>>
    var contracts: map<int, int>
    const requests: RequestMap
    ghost var book: S.State

    ghost predicate Valid()
      reads this, requests, requests.all
    {
      && requests.Valid() && Agree(book, requests.sys)
      && results == book.results && contracts == book.contracts
    }

    constructor ()
      ensures Valid() && fresh(requests) && requests.all == [] && book == S.INIT_STATE
    {
      results, contracts, book := map[], map[], S.INIT_STATE;
      requests := new RequestMap();
    }

    method StartReq(reqID: int, con: Option<int>) returns (ch: Channel)
      requires Valid()
      modifies this, requests
      ensures Valid() && book == S.Step(old(book), S.StartReq(reqID, con))
      ensures fresh(ch) && requests.all == old(requests.all) + [ch]
    {
      hide Placed, SentOnce;
      if con.Some? {
        contracts := contracts[reqID := con.value];
      }
      results := results[reqID := None];
      ch := requests.Start(reqID);
      book := S.Step(book, S.StartReq(reqID, con));
    }

    method AppendResult(reqID: int, item: int)
      requires Valid()
      modifies this
      ensures Valid() && book == S.Step(old(book), S.AppendResult(reqID, item))
    {
      if reqID !in results {
        return;
      }
      var existing := results[reqID];
      if existing.None? {
        results := results[reqID := Some([item])];
      } else {
        results := results[reqID := Some(existing.value + [item])];
      }
      book := S.Step(book, S.AppendResult(reqID, item));
    }

    /** `Complete` on the request map, which settles the book's pending channel. */
    method Complete(reqID: int, result: Result)
      requires Valid()
      modifies this`book, requests, requests.all
      ensures Valid() && book == S.Settle(old(book), reqID, S.Delivered(result))
      ensures results == old(results) && contracts == old(contracts) && requests.all == old(requests.all)
    {
      hide Placed, SentOnce, Exec, Completed, Drained;
      ghost var s := requests.sys;
      if reqID in s.pending { CompleteAgrees(book, s, reqID, result); }
      requests.Complete(reqID, result, 0);
      book := S.Settle(book, reqID, S.Delivered(result));
    }

    method EndReq(reqID: int, value: Option<Value>, err: Option<string>)
      requires Valid()
      modifies this, requests, requests.all
      ensures Valid() && book == S.Step(old(book), S.EndReq(reqID, value, err))
      ensures requests.all == old(requests.all)
    {
      hide Inv, WF;
      contracts := contracts - {reqID};
      var result := if reqID in results then results[reqID] else None;
      results := results - {reqID};
      ghost var ended := book;
      book := book.(contracts := book.contracts - {reqID}, results := book.results - {reqID});
      var v := value;
      if v.None? {
        v := S.AsValue(result);
      }
      Complete(reqID, Result(v, err));
      assert book == S.OnEndReq(ended, reqID, value, err);
    }

    method CancelReq(reqID: int)
      requires Valid()
      modifies this`book, requests, requests.all
      ensures Valid() && book == S.Step(old(book), S.CancelReq(reqID))
      ensures requests.all == old(requests.all)
    {
      hide Placed, SentOnce, Exec;
      CancelAgrees(book, requests.sys, reqID);
      requests.Cancel(reqID);
      book := S.Step(book, S.CancelReq(reqID));
    }

    method DrainReqs(reason: string)
      requires Valid()
      modifies this`book, requests, requests.all
      ensures Valid() && book == S.Step(old(book), S.DrainReqs(reason))
      ensures requests.all == old(requests.all)
    {
      hide Placed, SentOnce, Exec, Drained;
      ghost var s := requests.sys;
      var order := requests.DrainAll(reason, 0);
      DrainAgrees(book, s, order, Result(None, Some(reason)));
      book := S.Step(book, S.DrainReqs(reason));
    }

    method Reset()
      requires Valid()
      modifies this
      ensures Valid() && book == S.Step(old(book), S.Reset)
    {
      results, contracts := map[], map[];
      book := S.Step(book, S.Reset);
    }
  }
}
