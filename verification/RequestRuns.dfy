/**
 Uninterrupted calls on the request map: what `Complete` and `DrainAll` come to when no other
 thread's step falls between theirs.
 */
module RequestRuns {
  import opened Wrappers
  import opened RequestProtocol

  /** A channel that was resolved with `result`. */
  function ResolvedWith(result: Result): Chan {
    Chan([result], true, [result])
  }

  /** The steps of `Complete` for a pending request. */
  ghost function Completed(s: Sys, t: int, reqID: int, result: Result): Outcome {
    Then(Then(Then(Ok(s), Take(t, reqID, result)), Send(t)), Close(t))
  }

  /** Thread `t` sends to and closes `k` channels of its list. */
  ghost function Drained(o: Outcome, t: int, k: nat): Outcome {
    if k == 0 then o else Then(Then(Drained(o, t, k - 1), Send(t)), Close(t))
  }

  lemma PendingIsFresh(s: Sys, reqID: int)
    requires Inv(s) && reqID in s.pending
    ensures s.chans[s.pending[reqID]] == Chan([], false, [])
  {
  }

  /** A send and a close by the same thread resolve a fresh channel and touch nothing else. */
  lemma SendThenClose(s: Sys, t: int)
    requires Inv(s) && t in s.threads && s.threads[t].Sending?
    requires s.chans[s.threads[t].todo[0]] == Chan([], false, [])
    ensures var Sending(todo, result) := s.threads[t];
            var o := Then(Then(Ok(s), Send(t)), Close(t));
            && o.Ok? && Inv(o.sys) && o.sys.pending == s.pending
            && o.sys.chans == s.chans[todo[0] := ResolvedWith(result)]
            && o.sys.threads == if |todo| == 1 then s.threads - {t} else s.threads[t := Sending(todo[1..], result)]
  {
    var Sending(todo, result) := s.threads[t];
    SendKeepsInv(s, t);
    var s2 := OnSend(s, t).sys;
    assert [] + [result] == [result];
    assert s2.chans == s.chans[todo[0] := Chan([result], false, [result])];
    CloseKeepsInv(s2, t);
    var s3 := OnClose(s2, t).sys;
    assert s3.chans == s.chans[todo[0] := ResolvedWith(result)];
    assert |todo| == 1 ==> todo[1..] == [];
    assert s3.threads == if |todo| == 1 then s.threads - {t} else s.threads[t := Sending(todo[1..], result)];
  }

  /** An uninterrupted `Complete` resolves the pending channel and touches nothing else. */
  lemma CompletedResolvesOne(s: Sys, t: int, reqID: int, result: Result)
    requires Inv(s) && t !in s.threads && reqID in s.pending
    ensures Completed(s, t, reqID, result).Ok?
    ensures var s' := Completed(s, t, reqID, result).sys;
            && s'.chans == s.chans[s.pending[reqID] := ResolvedWith(result)]
            && s'.pending == s.pending - {reqID} && s'.threads == s.threads
  {
    PendingIsFresh(s, reqID);
    TakeKeepsInv(s, t, reqID, result);
    var s1 := OnTake(s, t, reqID, result);
    SendThenClose(s1, t);
    assert s1.threads - {t} == s.threads;
  }

  /** `Cancel` closes the pending channel without a result, and touches nothing else. */
  lemma CancelClosesOne(s: Sys, reqID: int)
    requires Inv(s) && reqID in s.pending
    ensures Exec(s, Cancel(reqID)).Ok?
    ensures var s' := Exec(s, Cancel(reqID)).sys;
            && s'.chans == s.chans[s.pending[reqID] := Chan([], true, [])]
            && s'.pending == s.pending - {reqID} && s'.threads == s.threads
  {
    PendingIsFresh(s, reqID);
  }

  ghost predicate InFirst(held: seq<nat>, k: nat, c: nat) {
    exists j :: 0 <= j < k && j < |held| && held[j] == c
  }

  /** State `s'` of a drain that began in `s`, with `k` of the held channels resolved. */
  ghost predicate DrainedTo(s: Sys, s': Sys, held: seq<nat>, k: nat, t: int, result: Result)
    requires k <= |held|
  {
    && s'.pending == map[] && |s'.chans| == |s.chans|
    && (forall c :: 0 <= c < |s.chans| ==> s'.chans[c] == if InFirst(held, k, c) then ResolvedWith(result) else s.chans[c])
    && s'.threads == if k < |held| then s.threads[t := Sending(held[k..], result)] else s.threads
  }

  ghost predicate AllFresh(s: Sys, held: seq<nat>) {
    forall j :: 0 <= j < |held| ==> held[j] < |s.chans| && s.chans[held[j]] == Chan([], false, [])
  }

  lemma DrainStep(s: Sys, s1: Sys, held: seq<nat>, k: nat, t: int, result: Result) returns (s2: Sys)
    requires t !in s.threads && k < |held| && Distinct(held) && AllFresh(s, held)
    requires Inv(s1) && DrainedTo(s, s1, held, k, t, result)
    ensures Then(Then(Ok(s1), Send(t)), Close(t)) == Ok(s2)
    ensures Inv(s2) && DrainedTo(s, s2, held, k + 1, t, result)
  {
    var c := held[k];
    assert !InFirst(held, k, c);
    assert s1.chans[c] == Chan([], false, []);
    SendThenClose(s1, t);
    s2 := Then(Then(Ok(s1), Send(t)), Close(t)).sys;
    assert held[k..][1..] == held[k + 1..];
    assert k + 1 == |held| ==> s1.threads - {t} == s.threads;
    forall d | 0 <= d < |s.chans| ensures InFirst(held, k + 1, d) <==> InFirst(held, k, d) || d == c {
      if d == c { assert held[k] == d; }
    }
  }

  lemma TakenAreFresh(s: Sys, order: seq<int>)
    requires Inv(s) && Ranges(order, s.pending)
    ensures AllFresh(s, ChansOf(s.pending, order, |order|))
  {
    var held := ChansOf(s.pending, order, |order|);
    forall j | 0 <= j < |held| ensures held[j] < |s.chans| && s.chans[held[j]] == Chan([], false, []) {
      PendingIsFresh(s, order[j]);
    }
  }

  lemma DrainStart(s: Sys, t: int, order: seq<int>, result: Result)
    requires Inv(s) && t !in s.threads && Ranges(order, s.pending)
    ensures Inv(OnDrain(s, t, order, result))
    ensures DrainedTo(s, OnDrain(s, t, order, result), ChansOf(s.pending, order, |order|), 0, t, result)
  {
    DrainKeepsInv(s, t, order, result);
    NothingResolvedYet(s, t, order, result);
  }

  lemma NothingResolvedYet(s: Sys, t: int, order: seq<int>, result: Result)
    requires t !in s.threads && forall i :: 0 <= i < |order| ==> order[i] in s.pending
    ensures DrainedTo(s, OnDrain(s, t, order, result), ChansOf(s.pending, order, |order|), 0, t, result)
  {
    var held := ChansOf(s.pending, order, |order|);
    var s' := OnDrain(s, t, order, result);
    if held == [] {
      WithoutAbsent(s.threads, t);
    } else {
      assert held[0..] == held;
    }
    assert s'.chans == s.chans;
  }

  lemma WithoutAbsent(m: map<int, Thread>, t: int)
    requires t !in m
    ensures m - {t} == m
  {
  }

  lemma {:induction false} DrainedRun(s: Sys, s0: Sys, held: seq<nat>, k: nat, t: int, result: Result)
    returns (sk: Sys)
    requires t !in s.threads && k <= |held| && Distinct(held) && AllFresh(s, held)
    requires Inv(s0) && DrainedTo(s, s0, held, 0, t, result)
    ensures Drained(Ok(s0), t, k) == Ok(sk)
    ensures Inv(sk) && DrainedTo(s, sk, held, k, t, result)
  {
    hide Exec, Then, Inv, DrainedTo, AllFresh;
    if k == 0 {
      sk := s0;
    } else {
      var s1 := DrainedRun(s, s0, held, k - 1, t, result);
      sk := DrainStep(s, s1, held, k - 1, t, result);
    }
  }

  lemma HeldIffPending(s: Sys, order: seq<int>, c: nat)
    requires Ranges(order, s.pending)
    ensures InFirst(ChansOf(s.pending, order, |order|), |order|, c) <==> Pending(s, c)
  {
    var held := ChansOf(s.pending, order, |order|);
    if InFirst(held, |order|, c) {
      var j :| 0 <= j < |order| && held[j] == c;
      assert s.pending[order[j]] == c;
    }
    if Pending(s, c) {
      var r :| r in s.pending && s.pending[r] == c;
      var j :| 0 <= j < |order| && order[j] == r;
      assert held[j] == c;
    }
  }

  /** An uninterrupted `DrainAll` resolves exactly the pending channels, in whatever order it meets them. */
  lemma DrainResolvesPending(s: Sys, t: int, order: seq<int>, result: Result)
    requires Inv(s) && t !in s.threads && Ranges(order, s.pending)
    ensures var o := Drained(Then(Ok(s), Drain(t, order, result)), t, |order|);
            && o.Ok? && o.sys.pending == map[] && o.sys.threads == s.threads && |o.sys.chans| == |s.chans|
            && forall c :: 0 <= c < |s.chans| ==>
                             o.sys.chans[c] == if Pending(s, c) then ResolvedWith(result) else s.chans[c]
  {
    var held := ChansOf(s.pending, order, |order|);
    TakenOnce(s, order);
    TakenAreFresh(s, order);
    DrainStart(s, t, order, result);
    var sk := DrainedRun(s, OnDrain(s, t, order, result), held, |order|, t, result);
    forall c | 0 <= c < |s.chans| ensures InFirst(held, |order|, c) <==> Pending(s, c) {
      HeldIffPending(s, order, c);
    }
  }
}
