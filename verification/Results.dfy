/**
 Request-response cycles: partial results accumulate under a request ID and are delivered to
 the request's channel when it ends.  Each call is one step; any number of requests interleave.
 */
module Results {
  import opened Wrappers
  import opened RequestProtocol

  /** What became of a request's channel. */
  datatype Fate = Waiting | Delivered(result: Result) | Cancelled

  /** `results[r]` is None until the first item arrives (the source's nil). */
  datatype State = State(
    results: map<int, Option<seq<int>>>, contracts: map<int, int>, pending: map<int, nat>, fates: seq<Fate>)

  const INIT_STATE := State(map[], map[], map[], [])

  datatype Event =
    | StartReq(reqID: int, con: Option<int>)
    | AppendResult(reqID: int, item: int)
    | EndReq(reqID: int, value: Option<Value>, err: Option<string>)
    | CancelReq(reqID: int)
    | DrainReqs(reason: string)
    | Reset

  function OnStartReq(s: State, reqID: int, con: Option<int>): State {
    State(s.results[reqID := None], if con.Some? then s.contracts[reqID := con.value] else s.contracts,
          s.pending[reqID := |s.fates|], s.fates + [Waiting])
  }

  function Extended(list: Option<seq<int>>, item: int): Option<seq<int>> {
    Some(if list.None? then [item] else list.value + [item])
  }

  function OnAppend(s: State, reqID: int, item: int): State {
    if reqID in s.results then s.(results := s.results[reqID := Extended(s.results[reqID], item)]) else s
  }

  function AsValue(list: Option<seq<int>>): Option<Value> {
    if list.None? then None else Some(Items(list.value))
  }

  /** The value an ending request delivers: the given one, or else the accumulated items, or else nothing. */
  function EndValue(s: State, reqID: int, value: Option<Value>): Option<Value> {
    if value.Some? then value else if reqID in s.results then AsValue(s.results[reqID]) else None
  }

  /** The pending channel of `reqID`, if any, meets its fate. */
  function Settle(s: State, reqID: int, fate: Fate): State {
    if reqID in s.pending && s.pending[reqID] < |s.fates|
    then s.(pending := s.pending - {reqID}, fates := s.fates[s.pending[reqID] := fate]) else s
  }

  function OnEndReq(s: State, reqID: int, value: Option<Value>, err: Option<string>): State {
    Settle(s.(contracts := s.contracts - {reqID}, results := s.results - {reqID}), reqID,
           Delivered(Result(EndValue(s, reqID, value), err)))
  }

  predicate IsPending(s: State, c: nat) {
    exists r :: r in s.pending && s.pending[r] == c
  }

  function Drained(s: State, result: Result): State {
    s.(pending := map[],
       fates := seq(|s.fates|, c requires 0 <= c < |s.fates| => if IsPending(s, c) then Delivered(result) else s.fates[c]))
  }

  function Step(s: State, e: Event): State {
    match e
    case StartReq(reqID, con) => OnStartReq(s, reqID, con)
    case AppendResult(reqID, item) => OnAppend(s, reqID, item)
    case EndReq(reqID, value, err) => OnEndReq(s, reqID, value, err)
    case CancelReq(reqID) => Settle(s, reqID, Cancelled)
    case DrainReqs(reason) => Drained(s, Result(None, Some(reason)))
    case Reset => s.(results := map[], contracts := map[])
  }

  function Run(es: seq<Event>, n: nat): State
    requires n <= |es|
  {
    if n == 0 then INIT_STATE else Step(Run(es, n - 1), es[n - 1])
  }

  // ----- What a trace says about one request -----

  predicate Starts(e: Event, r: int) { e.StartReq? && e.reqID == r }

  /** Does the event throw away what has accumulated for `r`? */
  predicate Forgets(e: Event, r: int) { (e.EndReq? && e.reqID == r) || e.Reset? }

  /** Does the event end the wait of a reader of `r`? */
  predicate Settles(e: Event, r: int) { ((e.EndReq? || e.CancelReq?) && e.reqID == r) || e.DrainReqs? }

  /** The step that last started `r`, if nothing has been forgotten since. */
  function Recording(es: seq<Event>, n: nat, r: int): (i: Option<nat>)
    requires n <= |es|
    ensures i.Some? ==> i.value < n && Starts(es[i.value], r)
  {
    if n == 0 || Forgets(es[n - 1], r) then None
    else if Starts(es[n - 1], r) then Some(n - 1)
    else Recording(es, n - 1, r)
  }

  /** The step that last started `r`, if nothing has settled it since. */
  function Awaiting(es: seq<Event>, n: nat, r: int): (i: Option<nat>)
    requires n <= |es|
    ensures i.Some? ==> i.value < n && Starts(es[i.value], r)
  {
    if n == 0 || Settles(es[n - 1], r) then None
    else if Starts(es[n - 1], r) then Some(n - 1)
    else Awaiting(es, n - 1, r)
  }

  /** The items appended for `r` in steps `i` to `n - 1`, in order. */
  function Appended(es: seq<Event>, i: nat, n: nat, r: int): seq<int>
    requires i <= n <= |es|
    decreases n
  {
    if n == i then []
    else if es[n - 1].AppendResult? && es[n - 1].reqID == r then Appended(es, i, n - 1, r) + [es[n - 1].item]
    else Appended(es, i, n - 1, r)
  }

  function NilIfEmpty(items: seq<int>): Option<seq<int>> {
    if items == [] then None else Some(items)
  }

  /** What the trace says is recorded for `r`; the outer None means nothing is. */
  function Recorded(es: seq<Event>, n: nat, r: int): Option<Option<seq<int>>>
    requires n <= |es|
  {
    var i := Recording(es, n, r);
    if i.None? then None else Some(NilIfEmpty(Appended(es, i.value + 1, n, r)))
  }

  /** The number of channels made before step `n`, which is the number of the one step `n` makes. */
  function ChannelOf(es: seq<Event>, n: nat): nat
    requires n <= |es|
  {
    if n == 0 then 0 else ChannelOf(es, n - 1) + (if es[n - 1].StartReq? then 1 else 0)
  }

  lemma RecordStep(s: State, e: Event, r: int)
    ensures Lookup(Step(s, e).results, r) ==
            if Forgets(e, r) then None
            else if Starts(e, r) then Some(None)
            else if e.AppendResult? && e.reqID == r && r in s.results then Some(Extended(s.results[r], e.item))
            else Lookup(s.results, r)
  {
  }

  lemma RecordedStep(es: seq<Event>, n: nat, r: int)
    requires n < |es|
    ensures Recorded(es, n + 1, r) ==
            if Forgets(es[n], r) then None
            else if Starts(es[n], r) then Some(None)
            else if es[n].AppendResult? && es[n].reqID == r && Recorded(es, n, r).Some?
            then Some(Extended(Recorded(es, n, r).value, es[n].item))
            else Recorded(es, n, r)
  {
    hide Run, Step;
    if !Forgets(es[n], r) && !Starts(es[n], r) && Recording(es, n, r).Some? {
      StillRecorded(es, n, r, Recording(es, n, r).value);
    }
  }

  lemma StillRecorded(es: seq<Event>, n: nat, r: int, i: nat)
    requires n < |es| && !Forgets(es[n], r) && !Starts(es[n], r) && Recording(es, n, r) == Some(i)
    ensures Recorded(es, n + 1, r)
            == if es[n].AppendResult? && es[n].reqID == r then Some(Extended(Recorded(es, n, r).value, es[n].item))
               else Recorded(es, n, r)
  {
    hide Extended, NilIfEmpty;
    assert Recording(es, n + 1, r) == Some(i);
    if es[n].AppendResult? && es[n].reqID == r {
      ExtendsItems(Appended(es, i + 1, n, r), es[n].item);
    }
  }

  lemma ExtendsItems(items: seq<int>, item: int)
    ensures NilIfEmpty(items + [item]) == Extended(NilIfEmpty(items), item)
  {
    assert [] + [item] == [item];
  }

  /** Whatever else is in flight, exactly the items appended for `r` since its last start are recorded for it. */
  lemma {:induction false} EveryRunRecords(es: seq<Event>, n: nat, r: int)
    requires n <= |es|
    ensures Lookup(Run(es, n).results, r) == Recorded(es, n, r)
  {
    hide Step, Forgets, Starts, Recording;
    if n > 0 {
      EveryRunRecords(es, n - 1, r);
      RecordStep(Run(es, n - 1), es[n - 1], r);
      RecordedStep(es, n - 1, r);
    }
  }

  /** An item for a request that was never started, or has ended, changes nothing. */
  lemma StrayItemChangesNothing(es: seq<Event>, n: nat, r: int, item: int)
    requires n <= |es| && Recording(es, n, r).None?
    ensures Step(Run(es, n), AppendResult(r, item)) == Run(es, n)
  {
    EveryRunRecords(es, n, r);
  }

  // ----- Which channel a request's reader waits on -----

  ghost predicate PendingDistinct(s: State) {
    && (forall r :: r in s.pending ==> s.pending[r] < |s.fates| && s.fates[s.pending[r]] == Waiting)
    && (forall q, r :: q in s.pending && r in s.pending && s.pending[q] == s.pending[r] ==> q == r)
  }

  lemma StepKeepsDistinct(s: State, e: Event)
    requires PendingDistinct(s)
    ensures PendingDistinct(Step(s, e))
  {
  }

  lemma {:induction false} EveryRunDistinct(es: seq<Event>, n: nat)
    requires n <= |es|
    ensures PendingDistinct(Run(es, n))
  {
    if n > 0 {
      EveryRunDistinct(es, n - 1);
      StepKeepsDistinct(Run(es, n - 1), es[n - 1]);
    }
  }

  function AwaitedChannel(es: seq<Event>, n: nat, r: int): Option<nat>
    requires n <= |es|
  {
    var i := Awaiting(es, n, r);
    if i.None? then None else Some(ChannelOf(es, i.value))
  }

  lemma PendingStep(s: State, e: Event, r: int)
    requires PendingDistinct(s)
    ensures Lookup(Step(s, e).pending, r) ==
            if Settles(e, r) then None else if Starts(e, r) then Some(|s.fates|) else Lookup(s.pending, r)
    ensures |Step(s, e).fates| == |s.fates| + (if e.StartReq? then 1 else 0)
  {
  }

  lemma {:induction false} EveryRunAwaits(es: seq<Event>, n: nat, r: int)
    requires n <= |es|
    ensures Lookup(Run(es, n).pending, r) == AwaitedChannel(es, n, r)
    ensures |Run(es, n).fates| == ChannelOf(es, n)
  {
    if n > 0 {
      EveryRunAwaits(es, n - 1, r);
      EveryRunDistinct(es, n - 1);
      PendingStep(Run(es, n - 1), es[n - 1], r);
    }
  }

  // ----- Exact delivery -----

  lemma FateStep(s: State, e: Event, c: nat)
    requires PendingDistinct(s) && c < |s.fates|
    ensures c < |Step(s, e).fates|
    ensures s.fates[c] != Waiting ==> Step(s, e).fates[c] == s.fates[c]
  {  }

  /** A channel's fate is final. */
  lemma {:induction false} FatesAreFinal(es: seq<Event>, n: nat, m: nat, c: nat)
    requires n <= m <= |es| && c < |Run(es, n).fates| && Run(es, n).fates[c] != Waiting
    ensures c < |Run(es, m).fates| && Run(es, m).fates[c] == Run(es, n).fates[c]
    decreases m
  {
    hide Step, PendingDistinct;
    if n < m {
      FatesAreFinal(es, n, m - 1, c);
      EveryRunDistinct(es, m - 1);
      FateStep(Run(es, m - 1), es[m - 1], c);
    }
  }

  /** Without a reset in between, the items are recorded since the very start whose reader waits. */
  lemma {:induction false} RecordingIsAwaited(es: seq<Event>, n: nat, r: int)
    requires n <= |es| && Recording(es, n, r).Some? && Awaiting(es, n, r).Some?
    ensures Recording(es, n, r) == Awaiting(es, n, r)
  {
    if !Starts(es[n - 1], r) {
      RecordingIsAwaited(es, n - 1, r);
    } else {
      assert Awaiting(es, n, r) == Some(n - 1);
    }
  }

  /** What the end of a request started at step `i` should deliver at step `n`. */
  function Due(es: seq<Event>, i: nat, n: nat): Option<Value>
    requires i < n < |es| && es[n].EndReq?
  {
    if es[n].value.Some? then es[n].value
    else if Recording(es, n, es[n].reqID).None? || Appended(es, i + 1, n, es[n].reqID) == [] then None
    else Some(Items(Appended(es, i + 1, n, es[n].reqID)))
  }

  /**
   Exact delivery: the reader of a request started at step `i` and ended at step `n` gets, then
   and for ever, the value the ending gives, or else precisely the items appended for its own ID
   since its start, in order (nothing if there were none, or if a reset came between).
   */
  lemma ExactDelivery(es: seq<Event>, i: nat, n: nat, m: nat)
    requires n < m <= |es| && es[n].EndReq? && Awaiting(es, n, es[n].reqID) == Some(i)
    ensures ChannelOf(es, i) < |Run(es, m).fates|
    ensures Run(es, m).fates[ChannelOf(es, i)] == Delivered(Result(Due(es, i, n), es[n].err))
  {
    var r := es[n].reqID;
    EveryRunAwaits(es, n, r);
    EveryRunDistinct(es, n);
    EveryRunRecords(es, n, r);
    if Recording(es, n, r).Some? {
      RecordingIsAwaited(es, n, r);
    }
    FatesAreFinal(es, n + 1, m, ChannelOf(es, i));
  }

  /** The reader of a request that is cancelled, or that a drain finds waiting, learns that and nothing else. */
  lemma CutShort(es: seq<Event>, i: nat, n: nat, m: nat, r: int)
    requires n < m <= |es| && Awaiting(es, n, r) == Some(i)
    requires es[n] == CancelReq(r) || es[n].DrainReqs?
    ensures ChannelOf(es, i) < |Run(es, m).fates|
    ensures Run(es, m).fates[ChannelOf(es, i)]
            == if es[n].DrainReqs? then Delivered(Result(None, Some(es[n].reason))) else Cancelled
  {
    EveryRunAwaits(es, n, r);
    EveryRunDistinct(es, n);
    FatesAreFinal(es, n + 1, m, ChannelOf(es, i));
  }

  // ----- Contracts of requests -----

  /** The contract last given for an ID, unless its request ended since or a reset came between. */
  function ContractOf(es: seq<Event>, n: nat, r: int): Option<int>
    requires n <= |es|
  {
    if n == 0 || Forgets(es[n - 1], r) then None
    else if Starts(es[n - 1], r) && es[n - 1].con.Some? then es[n - 1].con
    else ContractOf(es, n - 1, r)
  }

  lemma {:induction false} EveryRunContracts(es: seq<Event>, n: nat, r: int)
    requires n <= |es|
    ensures Lookup(Run(es, n).contracts, r) == ContractOf(es, n, r)
  {
    if n > 0 {
      EveryRunContracts(es, n - 1, r);
    }
  }

  lemma {:induction false} ChannelsAreNumbered(es: seq<Event>, i: nat, j: nat)
    requires i < j <= |es| && es[i].StartReq?
    ensures ChannelOf(es, i) < ChannelOf(es, j)
    decreases j
  {
    if i < j - 1 {
      ChannelsAreNumbered(es, i, j - 1);
    }
  }

  lemma SettledStep(s: State, e: Event, c: nat) returns (r: int)
    requires PendingDistinct(s) && c < |s.fates| && s.fates[c] == Waiting
    requires c < |Step(s, e).fates| && Step(s, e).fates[c] != Waiting
    ensures Settles(e, r) && Lookup(s.pending, r) == Some(c)
  {
    if e.DrainReqs? {
      r :| r in s.pending && s.pending[r] == c;
    } else {
      r := e.reqID;
    }
  }

  lemma AwaitedBy(es: seq<Event>, i: nat, n: nat, r: int)
    requires i < n <= |es| && es[i].StartReq? && Lookup(Run(es, n).pending, r) == Some(ChannelOf(es, i))
    ensures es[i].reqID == r && Awaiting(es, n, r) == Some(i)
  {
    EveryRunAwaits(es, n, r);
    SameChannelSameStart(es, i, Awaiting(es, n, r).value);
  }

  predicate Settled(s: State, c: nat) {
    c < |s.fates| && s.fates[c] != Waiting
  }

  lemma SettledNow(es: seq<Event>, i: nat, n: nat)
    requires i < n < |es| && es[i].StartReq?
    requires !Settled(Run(es, n), ChannelOf(es, i)) && Settled(Run(es, n + 1), ChannelOf(es, i))
    ensures Settles(es[n], es[i].reqID) && Awaiting(es, n, es[i].reqID) == Some(i)
  {
    EveryRunAwaits(es, n, es[i].reqID);
    EveryRunDistinct(es, n);
    ChannelsAreNumbered(es, i, n);
    var r := SettledStep(Run(es, n), es[n], ChannelOf(es, i));
    AwaitedBy(es, i, n, r);
  }

  lemma FreshIsWaiting(es: seq<Event>, i: nat)
    requires i < |es| && es[i].StartReq?
    ensures !Settled(Run(es, i + 1), ChannelOf(es, i))
  {
    EveryRunAwaits(es, i, 0);
  }

  /** Nothing settles a channel but an event for the very request whose reader waits on it (or a drain). */
  lemma {:induction false} SettledByItsOwn(es: seq<Event>, i: nat, n: nat) returns (k: nat)
    requires i < n <= |es| && es[i].StartReq? && Settled(Run(es, n), ChannelOf(es, i))
    ensures i < k < n && Settles(es[k], es[i].reqID) && Awaiting(es, k, es[i].reqID) == Some(i)
    decreases n
  {
    hide Step, Run, ChannelOf;
    FreshIsWaiting(es, i);
    if i < n - 1 && Settled(Run(es, n - 1), ChannelOf(es, i)) {
      k := SettledByItsOwn(es, i, n - 1);
    } else {
      SettledNow(es, i, n - 1);
      k := n - 1;
    }
  }

  lemma SameChannelSameStart(es: seq<Event>, i: nat, j: nat)
    requires i < |es| && j < |es| && es[i].StartReq? && es[j].StartReq? && ChannelOf(es, i) == ChannelOf(es, j)
    ensures i == j
  {
    if i < j { ChannelsAreNumbered(es, i, j); }
    if j < i { ChannelsAreNumbered(es, j, i); }
  }
}
