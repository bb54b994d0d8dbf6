/**
 Market-data tickers: which are subscribed, which have something new, and how the ticks of a
 network batch reach the subscribers.

 `Market` is the state as a value; tickers are numbered in order of creation.
 */
module Tickers {
  import opened Wrappers

  datatype Tick = Tick(tickType: int, price: real, size: real)

  /** A ticker: the contract key and request ID it was made for, and its tick list. */
  datatype TickerRec = TickerRec(key: int, reqID: int, ticks: seq<Tick>)

  /** One firing of a ticker's UpdateEvent and the tick list visible to its subscribers. */
  datatype Update = Update(ticker: nat, ticks: seq<Tick>)

  datatype Market = Market(
    heap: seq<TickerRec>,
    tickers: map<int, nat>,
    reqID2Ticker: map<int, nat>,
    pending: set<nat>,
    updates: seq<Update>)

  const EMPTY := Market([], map[], map[], {}, [])

  datatype Event =
    | Subscribe(key: int, reqID: int)
    | SubscribeFailed(key: int, reqID: int)
    | Cancel(key: int)
    | TickMsg(reqID: int, tick: Option<Tick>)
    | Processed(order: seq<nat>)
    | Reset

  predicate WF(m: Market) {
    && (forall k :: k in m.tickers ==> m.tickers[k] < |m.heap|)
    && (forall r :: r in m.reqID2Ticker ==> m.reqID2Ticker[r] < |m.heap|)
    && (forall t :: t in m.pending ==> t < |m.heap|)
  }

  /** The list that ranging over a map of pending tickers may produce: each once, in any order. */
  ghost predicate Enumerates(order: seq<nat>, s: set<nat>) {
    && (forall t :: t in order <==> t in s)
    && (forall i, j :: 0 <= i < j < |order| ==> order[i] != order[j])
  }

  function WithTicks(r: TickerRec, tick: Option<Tick>): TickerRec {
    match tick case Some(x) => r.(ticks := r.ticks + [x]) case None => r
  }

  /** The first lock section of `ReqMktData`. */
  function OnSubscribe(m: Market, key: int, reqID: int): Market {
    var t := |m.heap|;
    m.(heap := m.heap + [TickerRec(key, reqID, [])],
       tickers := m.tickers[key := t], reqID2Ticker := m.reqID2Ticker[reqID := t])
  }

  /** The second one, when the request could not be sent. */
  function OnSubscribeFailed(m: Market, key: int, reqID: int): Market {
    m.(tickers := m.tickers - {key}, reqID2Ticker := m.reqID2Ticker - {reqID})
  }

  /** `CancelMktData` drops the ticker from both indexes. */
  function OnCancel(m: Market, key: int): Market
    requires WF(m)
  {
    if key !in m.tickers then m
    else m.(tickers := m.tickers - {key}, reqID2Ticker := m.reqID2Ticker - {m.heap[m.tickers[key]].reqID})
  }

  /** Any tick message: an RT-volume one may append a tick, and every one marks its ticker pending. */
  function OnTick(m: Market, reqID: int, tick: Option<Tick>): Market
    requires WF(m)
  {
    if reqID !in m.reqID2Ticker then m
    else
      var t := m.reqID2Ticker[reqID];
      m.(heap := m.heap[t := WithTicks(m.heap[t], tick)], pending := m.pending + {t})
  }

  function Updates(heap: seq<TickerRec>, order: seq<nat>, n: nat): seq<Update>
    requires n <= |order| && forall i :: 0 <= i < |order| ==> order[i] < |heap|
  {
    if n == 0 then [] else Updates(heap, order, n - 1) + [Update(order[n - 1], heap[order[n - 1]].ticks)]
  }

  /** The heap with the tick lists of some tickers emptied. */
  function Cleared(heap: seq<TickerRec>, s: set<nat>): (r: seq<TickerRec>)
    ensures |r| == |heap|
    ensures forall t :: 0 <= t < |heap| ==> r[t] == if t in s then heap[t].(ticks := []) else heap[t]
  {
    seq(|heap|, t requires 0 <= t < |heap| => if t in s then heap[t].(ticks := []) else heap[t])
  }

  /** `OnDataProcessed`: every pending ticker fires, then the pending tick lists are cleared. */
  function OnProcessed(m: Market, order: seq<nat>): Market
    requires WF(m)
    requires forall i :: 0 <= i < |order| ==> order[i] < |m.heap|
  {
    m.(heap := Cleared(m.heap, m.pending), pending := {}, updates := m.updates + Updates(m.heap, order, |order|))
  }

  function OnReset(m: Market): Market {
    m.(tickers := map[], reqID2Ticker := map[], pending := {})
  }

  /** What the client guarantees of the next event: request IDs are new, and a batch ends with the pending tickers. */
  ghost predicate Enabled(m: Market, used: set<int>, e: Event) {
    match e
    case Subscribe(key, reqID) => reqID !in used
    case SubscribeFailed(key, reqID) =>
      reqID in m.reqID2Ticker && m.reqID2Ticker[reqID] < |m.heap| ==> m.heap[m.reqID2Ticker[reqID]].key == key
    case Processed(order) => Enumerates(order, m.pending)
    case _ => true
  }

  function Used(es: seq<Event>, n: nat): set<int>
    requires n <= |es|
  {
    if n == 0 then {}
    else if es[n - 1].Subscribe? then Used(es, n - 1) + {es[n - 1].reqID}
    else Used(es, n - 1)
  }

  function Step(m: Market, e: Event): Market
    requires WF(m)
  {
    match e
    case Subscribe(key, reqID) => OnSubscribe(m, key, reqID)
    case SubscribeFailed(key, reqID) => OnSubscribeFailed(m, key, reqID)
    case Cancel(key) => OnCancel(m, key)
    case TickMsg(reqID, tick) => OnTick(m, reqID, tick)
    case Processed(order) => if forall i :: 0 <= i < |order| ==> order[i] < |m.heap| then OnProcessed(m, order) else m
    case Reset => OnReset(m)
  }

  lemma StepKeepsWF(m: Market, e: Event)
    requires WF(m)
    ensures WF(Step(m, e)) && |m.heap| <= |Step(m, e).heap|
  {
    match e
    case Subscribe(_, _) =>
    case SubscribeFailed(_, _) =>
    case Cancel(_) =>
    case TickMsg(_, _) =>
    case Processed(_) =>
    case Reset =>
  }

  function Run(es: seq<Event>, n: nat): (m: Market)
    requires n <= |es|
    ensures WF(m)
  {
    if n == 0 then EMPTY
    else
      StepKeepsWF(Run(es, n - 1), es[n - 1]);
      Step(Run(es, n - 1), es[n - 1])
  }

  ghost predicate Proper(es: seq<Event>, n: nat)
    requires n <= |es|
  {
    n == 0 || (Proper(es, n - 1) && Enabled(Run(es, n - 1), Used(es, n - 1), es[n - 1]))
  }

  // ----- RT volume -----

  /**
   The tick that `processRtVolumeTick` appends, given the value split at the semicolons: none
   with fewer than six parts, without a price, or when price or size is no number.
   */
  function RtVolumeTick(tickType: int, parts: seq<string>, parse: string -> Option<real>): Option<Tick> {
    if (tickType != 48 && tickType != 77) || |parts| < 6 || parts[0] == "" then None
    else match (parse(parts[0]), parse(parts[1]))
      case (Some(price), Some(size)) => Some(Tick(tickType, price, size))
      case _ => None
  }

  /** Price and size of the tick are the first two parts, and it keeps the tick type. */
  lemma RtVolumeTickIff(tickType: int, parts: seq<string>, parse: string -> Option<real>, tick: Tick)
    ensures RtVolumeTick(tickType, parts, parse) == Some(tick) <==>
            && tickType in {48, 77} && tick.tickType == tickType && |parts| >= 6
            && parts[0] != "" && parse(parts[0]) == Some(tick.price) && parse(parts[1]) == Some(tick.size)
  {
  }

  // ----- What the events tell -----

  /** How many tickers have been made. */
  function Made(es: seq<Event>, n: nat): nat
    requires n <= |es|
  {
    if n == 0 then 0 else Made(es, n - 1) + if es[n - 1].Subscribe? then 1 else 0
  }

  /** The request ID that ticker `t` was made for. */
  function RequestOf(es: seq<Event>, n: nat, t: nat): int
    requires n <= |es|
  {
    if n == 0 then 0
    else if es[n - 1].Subscribe? && Made(es, n - 1) == t then es[n - 1].reqID
    else RequestOf(es, n - 1, t)
  }

  /** The ticker subscribed under a key, unless it failed or was cancelled since, or a reset came between. */
  function ByKey(es: seq<Event>, n: nat, k: int): Option<nat>
    requires n <= |es|
  {
    if n == 0 then None else
    match es[n - 1]
    case Subscribe(key, _) => if key == k then Some(Made(es, n - 1)) else ByKey(es, n - 1, k)
    case SubscribeFailed(key, _) => if key == k then None else ByKey(es, n - 1, k)
    case Cancel(key) => if key == k then None else ByKey(es, n - 1, k)
    case Reset => None
    case _ => ByKey(es, n - 1, k)
  }

  /** The ticker whose ticks come under a request ID, unless it failed, its key was cancelled, or a reset came between. */
  function ByRequest(es: seq<Event>, n: nat, r: int): Option<nat>
    requires n <= |es|
  {
    if n == 0 then None else
    match es[n - 1]
    case Subscribe(_, reqID) => if reqID == r then Some(Made(es, n - 1)) else ByRequest(es, n - 1, r)
    case SubscribeFailed(_, reqID) => if reqID == r then None else ByRequest(es, n - 1, r)
    case Cancel(key) =>
      var t := ByKey(es, n - 1, key);
      if t.Some? && RequestOf(es, n - 1, t.value) == r then None else ByRequest(es, n - 1, r)
    case Reset => None
    case _ => ByRequest(es, n - 1, r)
  }

  /** The tickers a tick message reached, with or without a tick for their list, since the last batch end or reset. */
  function Touched(es: seq<Event>, n: nat): set<nat>
    requires n <= |es|
  {
    if n == 0 then {} else
    match es[n - 1]
    case TickMsg(r, _) =>
      var t := ByRequest(es, n - 1, r);
      if t.Some? then Touched(es, n - 1) + {t.value} else Touched(es, n - 1)
    case Processed(_) => {}
    case Reset => {}
    case _ => Touched(es, n - 1)
  }

  /** The indexes are those the events tell. */
  ghost predicate IndexesTold(m: Market, es: seq<Event>, n: nat)
    requires n <= |es|
  {
    && |m.heap| == Made(es, n)
    && (forall t :: 0 <= t < |m.heap| ==> m.heap[t].reqID == RequestOf(es, n, t))
    && (forall k :: Lookup(m.tickers, k) == ByKey(es, n, k))
    && (forall r :: Lookup(m.reqID2Ticker, r) == ByRequest(es, n, r))
  }

  lemma HeapStep(es: seq<Event>, n: nat)
    requires n < |es| && IndexesTold(Run(es, n), es, n)
    ensures |Run(es, n + 1).heap| == Made(es, n + 1)
    ensures var heap := Run(es, n + 1).heap;
            forall t :: 0 <= t < |heap| ==> heap[t].reqID == RequestOf(es, n + 1, t)
  {
    hide ByKey, ByRequest;
  }

  lemma KeyStep(es: seq<Event>, n: nat, k: int)
    requires n < |es| && IndexesTold(Run(es, n), es, n)
    ensures Lookup(Run(es, n + 1).tickers, k) == ByKey(es, n + 1, k)
  {
    hide ByRequest, RequestOf;
    assert Lookup(Run(es, n).tickers, k) == ByKey(es, n, k);
  }

  lemma RequestStep(es: seq<Event>, n: nat, r: int)
    requires n < |es| && IndexesTold(Run(es, n), es, n)
    ensures Lookup(Run(es, n + 1).reqID2Ticker, r) == ByRequest(es, n + 1, r)
  {
    hide ByKey, RequestOf;
    assert Lookup(Run(es, n).reqID2Ticker, r) == ByRequest(es, n, r);
    if es[n].Cancel? { assert Lookup(Run(es, n).tickers, es[n].key) == ByKey(es, n, es[n].key); }
  }

  /** Over every run a ticker is found by key, and by request ID, exactly as the events tell. */
  lemma {:induction false} EveryRunIndexes(es: seq<Event>, n: nat)
    requires n <= |es|
    ensures IndexesTold(Run(es, n), es, n)
  {
    if n > 0 {
      hide Step, ByKey, ByRequest, Made, RequestOf, WF;
      EveryRunIndexes(es, n - 1);
      HeapStep(es, n - 1);
      forall k ensures Lookup(Run(es, n).tickers, k) == ByKey(es, n, k) { KeyStep(es, n - 1, k); }
      forall r ensures Lookup(Run(es, n).reqID2Ticker, r) == ByRequest(es, n, r) { RequestStep(es, n - 1, r); }
    }
  }

  lemma PendingStep(es: seq<Event>, n: nat)
    requires n < |es| && IndexesTold(Run(es, n), es, n) && Enabled(Run(es, n), Used(es, n), es[n])
    requires Run(es, n).pending == Touched(es, n)
    ensures Run(es, n + 1).pending == Touched(es, n + 1)
  {
    hide ByKey, ByRequest;
    if es[n].TickMsg? {
      assert Lookup(Run(es, n).reqID2Ticker, es[n].reqID) == ByRequest(es, n, es[n].reqID);
    }
    if es[n].Processed? { EnumeratedExist(Run(es, n), es[n].order); }
  }

  /** Over every run exactly the tickers that a tick message reached since the last batch end or reset are pending. */
  lemma {:induction false} EveryRunPending(es: seq<Event>, n: nat)
    requires n <= |es| && Proper(es, n)
    ensures Run(es, n).pending == Touched(es, n)
  {
    hide Step, IndexesTold, Enabled;
    if n > 0 {
      EveryRunPending(es, n - 1);
      EveryRunIndexes(es, n - 1);
      PendingStep(es, n - 1);
    }
  }

  lemma {:induction false} UpdatesAre(heap: seq<TickerRec>, order: seq<nat>, n: nat)
    requires n <= |order| && forall i :: 0 <= i < |order| ==> order[i] < |heap|
    ensures |Updates(heap, order, n)| == n
    ensures forall i :: 0 <= i < n ==> Updates(heap, order, n)[i] == Update(order[i], heap[order[i]].ticks)
  {
    if n > 0 { UpdatesAre(heap, order, n - 1); }
  }

  /**
   A batch end fires UpdateEvent of exactly the tickers that a tick message reached since the last
   one, each once and with the ticks it then holds; no other event fires any.
   */
  lemma BatchEndFires(es: seq<Event>, n: nat) returns (us: seq<Update>)
    requires n < |es| && Proper(es, n + 1)
    ensures Run(es, n + 1).updates == Run(es, n).updates + us
    ensures !es[n].Processed? ==> us == []
    ensures es[n].Processed? ==> forall t :: t in Touched(es, n) <==> exists i :: 0 <= i < |us| && us[i].ticker == t
    ensures forall i, j :: 0 <= i < j < |us| ==> us[i].ticker != us[j].ticker
    ensures forall i :: 0 <= i < |us| ==> us[i].ticks == Current(Run(es, n), us[i].ticker)
  {
    us := [];
    if es[n].Processed? {
      EveryRunPending(es, n);
      EnumeratedExist(Run(es, n), es[n].order);
      us := PendingFire(Run(es, n), es[n].order);
    } else {
      OthersFireNothing(Run(es, n), es[n]);
      hide Step;
    }
  }

  lemma OthersFireNothing(m: Market, e: Event)
    requires WF(m) && !e.Processed?
    ensures Step(m, e).updates == m.updates
  {
  }

  lemma PendingFire(m: Market, order: seq<nat>) returns (us: seq<Update>)
    requires WF(m) && Enumerates(order, m.pending) && forall i :: 0 <= i < |order| ==> order[i] < |m.heap|
    ensures OnProcessed(m, order).updates == m.updates + us
    ensures forall t :: t in m.pending <==> exists i :: 0 <= i < |us| && us[i].ticker == t
    ensures forall i, j :: 0 <= i < j < |us| ==> us[i].ticker != us[j].ticker
    ensures forall i :: 0 <= i < |us| ==> us[i].ticks == Current(m, us[i].ticker)
  {
    us := Updates(m.heap, order, |order|);
    UpdatesAre(m.heap, order, |order|);
    hide Updates, Cleared;
    forall t ensures t in m.pending <==> exists i :: 0 <= i < |us| && us[i].ticker == t {
      if t in order {
        var i :| 0 <= i < |order| && order[i] == t;
        assert us[i].ticker == t;
      }
    }
  }

  // ----- Tick conservation -----

  /** All ticks appended to ticker `t`, told from the events. */
  function Appended(es: seq<Event>, n: nat, t: nat): seq<Tick>
    requires n <= |es|
  {
    if n == 0 then []
    else
      var m, e := Run(es, n - 1), es[n - 1];
      if e.TickMsg? && e.tick.Some? && e.reqID in m.reqID2Ticker && m.reqID2Ticker[e.reqID] == t
      then Appended(es, n - 1, t) + [e.tick.value]
      else Appended(es, n - 1, t)
  }

  /** All ticks that were visible at the first `n` updates, for ticker `t`. */
  function Delivered(us: seq<Update>, n: nat, t: nat): seq<Tick>
    requires n <= |us|
  {
    if n == 0 then []
    else if us[n - 1].ticker == t then Delivered(us, n - 1, t) + us[n - 1].ticks
    else Delivered(us, n - 1, t)
  }

  function Current(m: Market, t: nat): seq<Tick> {
    if t < |m.heap| then m.heap[t].ticks else []
  }

  /** Delivered and still held together are what was appended. */
  ghost predicate Conserves(m: Market, appended: seq<Tick>, t: nat) {
    Delivered(m.updates, |m.updates|, t) + Current(m, t) == appended
  }

  lemma {:induction false} DeliveredAppend(us: seq<Update>, vs: seq<Update>, n: nat, t: nat)
    requires n <= |vs|
    ensures Delivered(us + vs, |us| + n, t) == Delivered(us, |us|, t) + Delivered(vs, n, t)
  {
    if n > 0 {
      DeliveredAppend(us, vs, n - 1, t);
    } else {
      DeliveredPrefix(us, vs, |us|, t);
    }
  }

  lemma {:induction false} DeliveredPrefix(us: seq<Update>, vs: seq<Update>, n: nat, t: nat)
    requires n <= |us|
    ensures Delivered(us + vs, n, t) == Delivered(us, n, t)
  {
    if n > 0 { DeliveredPrefix(us, vs, n - 1, t); }
  }

  /** A batch delivers the current list of `t` once if `t` is listed, and nothing otherwise. */
  lemma {:induction false} BatchDelivers(heap: seq<TickerRec>, order: seq<nat>, n: nat, t: nat)
    requires n <= |order| && forall i :: 0 <= i < |order| ==> order[i] < |heap|
    requires forall i, j :: 0 <= i < j < |order| ==> order[i] != order[j]
    ensures |Updates(heap, order, n)| == n
    ensures Delivered(Updates(heap, order, n), n, t) == if t in order[..n] && t < |heap| then heap[t].ticks else []
  {
    if n > 0 {
      BatchDelivers(heap, order, n - 1, t);
      var us := Updates(heap, order, n - 1);
      DeliveredPrefix(us, [Update(order[n - 1], heap[order[n - 1]].ticks)], n - 1, t);
      assert order[..n] == order[..n - 1] + [order[n - 1]];
    }
  }

  lemma EnumeratedExist(m: Market, order: seq<nat>)
    requires WF(m) && Enumerates(order, m.pending)
    ensures forall i :: 0 <= i < |order| ==> order[i] < |m.heap|
  {
    assert forall i :: 0 <= i < |order| ==> order[i] in order;
  }

  lemma ProcessedConserves(m: Market, order: seq<nat>, appended: seq<Tick>, t: nat)
    requires WF(m) && Enumerates(order, m.pending) && Conserves(m, appended, t)
    requires forall i :: 0 <= i < |order| ==> order[i] < |m.heap|
    ensures Conserves(OnProcessed(m, order), appended, t)
  {
    WholeBatchDelivers(m, order, t);
    var before, after := Delivered(m.updates, |m.updates|, t), OnProcessed(m, order);
    if t in order {
      assert Delivered(after.updates, |after.updates|, t) == before + Current(m, t);
      assert Current(after, t) == [];
    } else {
      assert Delivered(after.updates, |after.updates|, t) == before + [] == before;
      assert Current(after, t) == Current(m, t);
    }
  }

  lemma WholeBatchDelivers(m: Market, order: seq<nat>, t: nat)
    requires WF(m) && Enumerates(order, m.pending)
    requires forall i :: 0 <= i < |order| ==> order[i] < |m.heap|
    ensures var us := OnProcessed(m, order).updates;
            Delivered(us, |us|, t)
            == Delivered(m.updates, |m.updates|, t) + (if t in order && t < |m.heap| then m.heap[t].ticks else [])
  {
    hide Delivered, Updates, Cleared;
    var us := Updates(m.heap, order, |order|);
    BatchDelivers(m.heap, order, |order|, t);
    assert order[..|order|] == order;
    DeliveredAppend(m.updates, us, |us|, t);
  }

  lemma TickConserves(m: Market, reqID: int, tick: Option<Tick>, appended: seq<Tick>, t: nat)
    requires WF(m) && Conserves(m, appended, t)
    ensures Conserves(OnTick(m, reqID, tick),
                      if tick.Some? && reqID in m.reqID2Ticker && m.reqID2Ticker[reqID] == t
                      then appended + [tick.value] else appended, t)
  {
  }

  lemma RunStepConserves(es: seq<Event>, n: nat, t: nat)
    requires n < |es| && Conserves(Run(es, n), Appended(es, n, t), t)
    requires Enabled(Run(es, n), Used(es, n), es[n])
    ensures Conserves(Run(es, n + 1), Appended(es, n + 1, t), t)
  {
    var m := Run(es, n);
    match es[n]
    case Subscribe(_, _) =>
    case SubscribeFailed(_, _) =>
    case Cancel(_) =>
    case TickMsg(reqID, tick) => TickConserves(m, reqID, tick, Appended(es, n, t), t);
    case Processed(order) =>
      EnumeratedExist(m, order);
      ProcessedConserves(m, order, Appended(es, n, t), t);
    case Reset =>
  }

  /**
   Tick conservation: for every ticker and every run, the tick lists visible at its successive
   updates followed by its current list are exactly the ticks appended to it, in order.
   */
  lemma {:induction false} TicksAreConserved(es: seq<Event>, n: nat, t: nat)
    requires n <= |es| && Proper(es, n)
    ensures Conserves(Run(es, n), Appended(es, n, t), t)
  {
    if n > 0 {
      TicksAreConserved(es, n - 1, t);
      RunStepConserves(es, n - 1, t);
    }
  }

  // ----- No tick is held back -----

  /** The first ticker made since the last reset; 0 when there was none. */
  function Oldest(es: seq<Event>, n: nat): nat
    requires n <= |es|
  {
    if n == 0 then 0 else if es[n - 1].Reset? then |Run(es, n - 1).heap| else Oldest(es, n - 1)
  }

  lemma {:induction false} OldestWithoutReset(es: seq<Event>, n: nat)
    requires n <= |es| && forall i :: 0 <= i < n ==> !es[i].Reset?
    ensures Oldest(es, n) == 0
  {
    if n > 0 {
      OldestWithoutReset(es, n - 1);
    }
  }

  /** From ticker `oldest` on, one that holds ticks is pending, subscribed or not; no other receives any. */
  ghost predicate HeldIsPending(m: Market, oldest: nat) {
    && (forall r :: r in m.reqID2Ticker ==> m.reqID2Ticker[r] >= oldest)
    && (forall t :: oldest <= t < |m.heap| && m.heap[t].ticks != [] ==> t in m.pending)
  }

  lemma StepKeepsHeld(m: Market, e: Event, oldest: nat)
    requires WF(m) && HeldIsPending(m, oldest) && oldest <= |m.heap|
    ensures HeldIsPending(Step(m, e), if e.Reset? then |m.heap| else oldest)
  {
    match e
    case Subscribe(_, _) =>
    case SubscribeFailed(_, _) =>
    case Cancel(_) =>
    case TickMsg(_, _) =>
    case Processed(_) =>
    case Reset =>
  }

  /** Every ticker made since the last reset that holds ticks is pending, cancelled or not. */
  lemma {:induction false} HeldTicksArePending(es: seq<Event>, n: nat)
    requires n <= |es|
    ensures Oldest(es, n) <= |Run(es, n).heap| && HeldIsPending(Run(es, n), Oldest(es, n))
  {
    if n > 0 {
      HeldTicksArePending(es, n - 1);
      StepKeepsHeld(Run(es, n - 1), es[n - 1], Oldest(es, n - 1));
      StepKeepsWF(Run(es, n - 1), es[n - 1]);
    }
  }

  /**
   When a batch has been processed, every tick ever appended to a ticker made since the last
   reset (to any ticker, if there was none) has been delivered, cancelled or not.
   */
  lemma BatchEndDeliversAll(es: seq<Event>, n: nat, t: nat)
    requires n < |es| && Proper(es, n + 1) && es[n].Processed? && t >= Oldest(es, n + 1)
    ensures var m := Run(es, n + 1); Delivered(m.updates, |m.updates|, t) == Appended(es, n + 1, t)
  {
    TicksAreConserved(es, n + 1, t);
    BatchEndHoldsNothing(es, n, t);
    hide Run, Delivered, Appended, Current;
  }

  lemma BatchEndHoldsNothing(es: seq<Event>, n: nat, t: nat)
    requires n < |es| && Proper(es, n + 1) && es[n].Processed? && t >= Oldest(es, n + 1)
    ensures Current(Run(es, n + 1), t) == []
  {
    hide *;
    HeldTicksArePending(es, n + 1);
    BatchEndEmpties(es, n);
    NothingHeld(Run(es, n + 1), Oldest(es, n + 1), t);
  }

  lemma BatchEndEmpties(es: seq<Event>, n: nat)
    requires n < |es| && Proper(es, n + 1) && es[n].Processed?
    ensures Run(es, n + 1).pending == {}
  {
    EnumeratedExist(Run(es, n), es[n].order);
    hide Updates, Cleared, Enumerates;
  }

  lemma NothingHeld(m: Market, oldest: nat, t: nat)
    requires HeldIsPending(m, oldest) && m.pending == {} && t >= oldest
    ensures Current(m, t) == []
  {
  }

  // ----- The registry -----

  /**
   A ticker sits under the key and the request ID it was made for, so no two request IDs share
   a ticker; and every ticker found by key is also found by its request ID, which is its only one.
   */
  ghost predicate Registered(m: Market, used: set<int>)
    requires WF(m)
  {
    && (forall k :: k in m.tickers ==> m.heap[m.tickers[k]].key == k)
    && (forall r :: r in m.reqID2Ticker ==> m.heap[m.reqID2Ticker[r]].reqID == r && r in used)
    && (forall k :: k in m.tickers ==>
                      var r := m.heap[m.tickers[k]].reqID;
                      r in m.reqID2Ticker && m.reqID2Ticker[r] == m.tickers[k])
  }

  lemma SubscribeKeepsRegistered(m: Market, used: set<int>, key: int, reqID: int)
    requires WF(m) && Registered(m, used) && reqID !in used
    ensures WF(OnSubscribe(m, key, reqID)) && Registered(OnSubscribe(m, key, reqID), used + {reqID})
  {
  }

  lemma FailureKeepsRegistered(m: Market, used: set<int>, key: int, reqID: int)
    requires WF(m) && Registered(m, used)
    requires reqID in m.reqID2Ticker ==> m.heap[m.reqID2Ticker[reqID]].key == key
    ensures WF(OnSubscribeFailed(m, key, reqID)) && Registered(OnSubscribeFailed(m, key, reqID), used)
  {
  }

  lemma CancelKeepsRegistered(m: Market, used: set<int>, key: int)
    requires WF(m) && Registered(m, used)
    ensures WF(OnCancel(m, key)) && Registered(OnCancel(m, key), used)
  {
    if key in m.tickers { FailureKeepsRegistered(m, used, key, m.heap[m.tickers[key]].reqID); }
  }

  lemma OthersKeepRegistered(m: Market, used: set<int>, e: Event)
    requires WF(m) && Registered(m, used) && (e.TickMsg? || e.Processed? || e.Reset?)
    ensures WF(Step(m, e)) && Registered(Step(m, e), used)
  {
    StepKeepsWF(m, e);
  }

  lemma RunKeepsRegistered(es: seq<Event>, n: nat)
    requires n < |es| && Registered(Run(es, n), Used(es, n)) && Enabled(Run(es, n), Used(es, n), es[n])
    ensures Registered(Run(es, n + 1), Used(es, n + 1))
  {
    var m, used := Run(es, n), Used(es, n);
    match es[n]
    case Subscribe(key, reqID) => SubscribeKeepsRegistered(m, used, key, reqID);
    case SubscribeFailed(key, reqID) => FailureKeepsRegistered(m, used, key, reqID);
    case Cancel(key) => CancelKeepsRegistered(m, used, key);
    case TickMsg(_, _) => OthersKeepRegistered(m, used, es[n]);
    case Processed(_) => OthersKeepRegistered(m, used, es[n]);
    case Reset => OthersKeepRegistered(m, used, es[n]);
  }

  lemma {:induction false} EveryRunRegistered(es: seq<Event>, n: nat)
    requires n <= |es| && Proper(es, n)
    ensures Registered(Run(es, n), Used(es, n))
  {
    if n > 0 {
      EveryRunRegistered(es, n - 1);
      RunKeepsRegistered(es, n - 1);
    }
  }

  /**
   Ticker registry: in every run the request index is injective and a ticker found by key has
   exactly one request ID; cancelling its key leaves the ticker in neither index.
   */
  lemma RegistryIsOneToOne(es: seq<Event>, n: nat, key: int, r1: int, r2: int)
    requires n <= |es| && Proper(es, n)
    requires key in Run(es, n).tickers
    ensures var m := Run(es, n); var t := m.tickers[key];
            && (r1 in m.reqID2Ticker && r2 in m.reqID2Ticker && m.reqID2Ticker[r1] == m.reqID2Ticker[r2] ==> r1 == r2)
            && (r1 in m.reqID2Ticker && m.reqID2Ticker[r1] == t <==> r1 == m.heap[t].reqID)
            && (forall k :: k in OnCancel(m, key).tickers ==> OnCancel(m, key).tickers[k] != t)
            && (forall r :: r in OnCancel(m, key).reqID2Ticker ==> OnCancel(m, key).reqID2Ticker[r] != t)
  {
    EveryRunRegistered(es, n);
  }
}
