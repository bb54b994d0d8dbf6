/**
 Orders, trades and fills: what each handler of the client does to the state it keeps.

 `Book` is the state as a value.  Trades and fills are numbered in the order the client
 creates them, so an index holds numbers where the client holds pointers, and two indexes
 may name the same trade.  Quantities are exact (`real`); times are left out.
 */
module OrderBook {
  import opened Wrappers

  datatype OrderKey = OrderKey(clientID: int, orderID: int)

  datatype OrderStatus = OrderStatus(
    orderID: int, status: string, filled: real, remaining: real, avgFillPrice: real, permID: int,
    parentID: int, lastFillPrice: real, clientID: int, whyHeld: string, mktCapPrice: real)

  const PENDING_SUBMIT := "PendingSubmit"
  const CANCELLED := "Cancelled"
  const FILLED := "Filled"
  const BAG := "BAG"
  /** IB sends 2^31-1 for an integer it leaves unset. */
  const UNSET_INTEGER: int := 0x7fff_ffff

  /** A status object as `PlaceOrder`, `handleOpenOrder` and `handleCompletedOrder` create it. */
  function NewStatus(orderID: int, status: string): OrderStatus {
    OrderStatus(orderID, status, 0.0, 0.0, 0.0, 0, 0, 0.0, 0, "", 0.0)
  }

  datatype LogMessage = Plain | Modify | FillOf(shares: real, price: real)
  datatype LogEntry = LogEntry(status: string, message: LogMessage)

  /** The order fields that later messages read or overwrite. */
  datatype OrderFields = OrderFields(
    permID: int, totalQuantity: real, lmtPrice: real, auxPrice: real, orderType: string, orderRef: string)

  datatype Execution = Execution(
    execID: string, permID: int, clientID: int, orderID: int, secType: string, shares: real, price: real)

  datatype CommissionReport = CommissionReport(
    execID: string, commission: real, currency: string, realizedPNL: real, yield_: real)

  const NO_COMMISSION := CommissionReport("", 0.0, "", 0.0, 0.0)

  datatype FillRec = FillRec(exec: Execution, commission: CommissionReport)

  datatype TradeRec = TradeRec(
    secType: string, order: OrderFields, status: OrderStatus, fills: seq<nat>, log: seq<LogEntry>)

  datatype Emission =
    | OrderStatusEvent(trade: nat)
    | StatusEvent(trade: nat)
    | FilledEvent(trade: nat)
    | CancelledEvent(trade: nat)
    | ModifyEvent(trade: nat)
    | NewOrderEvent(trade: nat)
    | ExecDetailsEvent(fill: FillRec)
    | FillEvent(trade: nat, fill: FillRec)
    | CommissionReportEvent(trade: nat, fill: FillRec)

  datatype Book = Book(
    heap: seq<TradeRec>,
    fillHeap: seq<FillRec>,
    trades: map<OrderKey, nat>,
    permID2Trade: map<int, nat>,
    fills: map<string, nat>,
    emitted: seq<Emission>)

  const EMPTY := Book([], [], map[], map[], map[], [])

  datatype Msg =
    | StatusMsg(status: OrderStatus)
    | OpenOrderMsg(orderID: int, clientID: int, order: OrderFields, secType: string, state: string)
    | ExecMsg(exec: Execution, live: bool)
    | CommissionMsg(report: CommissionReport, noPNL: bool, noYield: bool)
    | CompletedMsg(order: OrderFields, secType: string, state: string)
    | BoundMsg(permID: int, clientID: int, orderID: int)
    | PlaceCall(orderID: int, clientID: int, order: OrderFields, secType: string, sent: bool)
    | ResetCall

  // ----- Keys and lookups -----

  /** An order without a positive ID (placed by hand in TWS) is keyed by its permID. */
  function KeyOf(clientID: int, orderID: int, permID: int): OrderKey {
    if orderID <= 0 then OrderKey(0, permID) else OrderKey(clientID, orderID)
  }

  /** `handleOrderStatus` looks under the key first and then, unless it is 0, under the permID. */
  function StatusLookup(b: Book, key: OrderKey, permID: int): Option<nat> {
    if key in b.trades then Some(b.trades[key])
    else if permID != 0 && permID in b.permID2Trade then Some(b.permID2Trade[permID])
    else None
  }

  /** `handleExecDetails` looks under the permID first and then under the key. */
  function ExecLookup(b: Book, key: OrderKey, permID: int): Option<nat> {
    if permID in b.permID2Trade then Some(b.permID2Trade[permID])
    else if key in b.trades then Some(b.trades[key])
    else None
  }

  /** Executions of orders placed by hand carry the unset order ID. */
  function Normalized(e: Execution): Execution {
    if e.orderID == UNSET_INTEGER then e.(orderID := 0) else e
  }

  function ExecKey(e: Execution): OrderKey {
    KeyOf(e.clientID, e.orderID, e.permID)
  }

  // ----- Handlers -----

  /** The indexes point into the heaps. */
  predicate WF(b: Book) {
    && (forall k :: k in b.trades ==> b.trades[k] < |b.heap|)
    && (forall p :: p in b.permID2Trade ==> b.permID2Trade[p] < |b.heap|)
    && (forall x :: x in b.fills ==> b.fills[x] < |b.fillHeap|)
    && (forall t, i :: 0 <= t < |b.heap| && 0 <= i < |b.heap[t].fills| ==> b.heap[t].fills[i] < |b.fillHeap|)
  }

  function Emit(b: Book, es: seq<Emission>): Book {
    b.(emitted := b.emitted + es)
  }

  function Logged(r: TradeRec, message: LogMessage): TradeRec {
    r.(log := r.log + [LogEntry(r.status.status, message)])
  }

  function WithStatus(r: TradeRec, st: OrderStatus): TradeRec {
    var r' := r.(status := st);
    if st.status != r.status.status then Logged(r', Plain) else r'
  }

  /** The events a status message fires, given the trade's status before it. */
  function StatusEvents(t: nat, was: string, now: string): seq<Emission> {
    [OrderStatusEvent(t), StatusEvent(t)] +
    if now == was then [] else if now == FILLED then [FilledEvent(t)]
    else if now == CANCELLED then [CancelledEvent(t)] else []
  }

  function OnStatus(b: Book, st: OrderStatus): Book
    requires WF(b)
  {
    match StatusLookup(b, KeyOf(st.clientID, st.orderID, st.permID), st.permID)
    case None => b
    case Some(t) =>
      Emit(b.(heap := b.heap[t := WithStatus(b.heap[t], st)]),
           StatusEvents(t, b.heap[t].status.status, st.status))
  }

  function Indexed(b: Book, permID: int, t: nat): Book {
    if permID != 0 then b.(permID2Trade := b.permID2Trade[permID := t]) else b
  }

  /** A new trade stored under `key`. */
  function Stored(b: Book, key: OrderKey, r: TradeRec): Book {
    b.(heap := b.heap + [r], trades := b.trades[key := |b.heap|])
  }

  function OnOpenOrder(b: Book, orderID: int, clientID: int, o: OrderFields, secType: string, state: string): Book
    requires WF(b)
  {
    var key := KeyOf(clientID, orderID, o.permID);
    if key in b.trades then
      var t := b.trades[key];
      Emit(Indexed(b.(heap := b.heap[t := b.heap[t].(order := o)]), o.permID, t), [OrderStatusEvent(t)])
    else
      var t := |b.heap|;
      Emit(Indexed(Stored(b, key, TradeRec(secType, o, NewStatus(orderID, state), [], [])), o.permID, t),
           [OrderStatusEvent(t)])
  }

  function OnExec(b: Book, raw: Execution, live: bool): Book
    requires WF(b)
  {
    var e := Normalized(raw);
    var fill := FillRec(e, NO_COMMISSION);
    var dest := ExecLookup(b, ExecKey(e), e.permID);
    var b' := if e.execID in b.fills then b else Recorded(b, fill, dest);
    if live && dest.Some? then Emit(b', [ExecDetailsEvent(fill), FillEvent(dest.value, fill)]) else b'
  }

  /** A fill seen for the first time, attached to the trade found for it. */
  function Recorded(b: Book, fill: FillRec, dest: Option<nat>): Book
    requires dest.Some? ==> dest.value < |b.heap|
  {
    var f := |b.fillHeap|;
    var b' := b.(fillHeap := b.fillHeap + [fill], fills := b.fills[fill.exec.execID := f]);
    match dest
    case None => b'
    case Some(t) =>
      var r := b.heap[t].(fills := b.heap[t].fills + [f]);
      b'.(heap := b.heap[t := Logged(r, FillOf(fill.exec.shares, fill.exec.price))])
  }

  function OnCommission(b: Book, raw: CommissionReport, noPNL: bool, noYield: bool): Book
    requires WF(b)
  {
    if raw.execID !in b.fills then b
    else
      var r1 := if noPNL then raw.(realizedPNL := 0.0) else raw;
      var r2 := if noYield then r1.(yield_ := 0.0) else r1;
      var f := b.fills[raw.execID];
      var fill := b.fillHeap[f].(commission := r2);
      var b' := b.(fillHeap := b.fillHeap[f := fill]);
      var p := fill.exec.permID;
      if p in b.permID2Trade then Emit(b', [CommissionReportEvent(b.permID2Trade[p], fill)]) else b'
  }

  function OnCompleted(b: Book, o: OrderFields, secType: string, state: string): Book
    requires WF(b)
  {
    var t := |b.heap|;
    var key := OrderKey(0, o.permID);
    var r := TradeRec(secType, o, NewStatus(0, state), [], []);
    if o.permID != 0 && o.permID !in b.permID2Trade then Indexed(Stored(b, key, r), o.permID, t)
    else b.(heap := b.heap + [r])
  }

  function OnBound(b: Book, permID: int, clientID: int, orderID: int): Book
    requires WF(b)
  {
    var key := OrderKey(clientID, orderID);
    if permID != 0 && orderID != 0 && key in b.trades then
      var t := b.trades[key];
      Indexed(b.(heap := b.heap[t := b.heap[t].(order := b.heap[t].order.(permID := permID))]), permID, t)
    else b
  }

  /** A trade as `PlaceOrder` creates it, its first log entry written. */
  function PlacedTrade(orderID: int, o: OrderFields, secType: string): TradeRec {
    TradeRec(secType, o, NewStatus(orderID, PENDING_SUBMIT), [], [LogEntry(PENDING_SUBMIT, Plain)])
  }

  /** `PlaceOrder` as one step; `sent` says whether the connection took the message. */
  function OnPlace(b: Book, orderID: int, clientID: int, o: OrderFields, secType: string, sent: bool): Book
    requires WF(b)
  {
    var key := KeyOf(clientID, orderID, o.permID);
    if key in b.trades then
      var t := b.trades[key];
      Emit(b.(heap := b.heap[t := Logged(b.heap[t], Modify)]), [ModifyEvent(t)])
    else
      var t := |b.heap|;
      var r := PlacedTrade(orderID, o, secType);
      if sent then Emit(Stored(b, key, r), [NewOrderEvent(t)])
      else b.(heap := b.heap + [r])
  }

  /** `Reset` forgets the indexes; the trades and fills already handed out live on. */
  function OnReset(b: Book): Book {
    b.(trades := map[], permID2Trade := map[], fills := map[])
  }

  function Step(b: Book, m: Msg): (r: Book)
    requires WF(b)
  {
    match m
    case StatusMsg(st) => OnStatus(b, st)
    case OpenOrderMsg(orderID, clientID, o, secType, state) => OnOpenOrder(b, orderID, clientID, o, secType, state)
    case ExecMsg(e, live) => OnExec(b, e, live)
    case CommissionMsg(r, noPNL, noYield) => OnCommission(b, r, noPNL, noYield)
    case CompletedMsg(o, secType, state) => OnCompleted(b, o, secType, state)
    case BoundMsg(permID, clientID, orderID) => OnBound(b, permID, clientID, orderID)
    case PlaceCall(orderID, clientID, o, secType, sent) => OnPlace(b, orderID, clientID, o, secType, sent)
    case ResetCall => OnReset(b)
  }

  /** Replacing a trade by one with the same fills keeps every index pointing into the heaps. */
  lemma UpdateKeepsWF(b: Book, t: nat, r: TradeRec)
    requires WF(b) && t < |b.heap| && r.fills == b.heap[t].fills
    ensures WF(b.(heap := b.heap[t := r]))
  {
  }

  lemma AddKeepsWF(b: Book, r: TradeRec)
    requires WF(b) && r.fills == []
    ensures WF(b.(heap := b.heap + [r]))
  {
  }

  lemma RecordedKeepsWF(b: Book, fill: FillRec, dest: Option<nat>)
    requires WF(b) && (dest.Some? ==> dest.value < |b.heap|)
    ensures WF(Recorded(b, fill, dest))
  {
    var b' := b.(fillHeap := b.fillHeap + [fill], fills := b.fills[fill.exec.execID := |b.fillHeap|]);
    assert WF(b');
    if dest.Some? {
      var fs, fs' := b.heap[dest.value].fills, Recorded(b, fill, dest).heap[dest.value].fills;
      assert fs' == fs + [|b.fillHeap|];
    }
  }

  lemma StatusKeepsWF(b: Book, st: OrderStatus)
    requires WF(b)
    ensures WF(OnStatus(b, st)) && |OnStatus(b, st).heap| == |b.heap|
  {
    var d := StatusLookup(b, KeyOf(st.clientID, st.orderID, st.permID), st.permID);
    if d.Some? { UpdateKeepsWF(b, d.value, WithStatus(b.heap[d.value], st)); }
  }

  lemma OpenOrderKeepsWF(b: Book, orderID: int, clientID: int, o: OrderFields, secType: string, state: string)
    requires WF(b)
    ensures var b' := OnOpenOrder(b, orderID, clientID, o, secType, state);
            WF(b') && |b.heap| <= |b'.heap| <= |b.heap| + 1
  {
    var key := KeyOf(clientID, orderID, o.permID);
    if key in b.trades {
      UpdateKeepsWF(b, b.trades[key], b.heap[b.trades[key]].(order := o));
    } else {
      AddKeepsWF(b, TradeRec(secType, o, NewStatus(orderID, state), [], []));
    }
  }

  lemma ExecKeepsWF(b: Book, raw: Execution, live: bool)
    requires WF(b)
    ensures WF(OnExec(b, raw, live)) && |OnExec(b, raw, live).heap| == |b.heap|
  {
    var e := Normalized(raw);
    if e.execID !in b.fills {
      RecordedKeepsWF(b, FillRec(e, NO_COMMISSION), ExecLookup(b, ExecKey(e), e.permID));
    }
  }

  lemma BoundKeepsWF(b: Book, permID: int, clientID: int, orderID: int)
    requires WF(b)
    ensures WF(OnBound(b, permID, clientID, orderID)) && |OnBound(b, permID, clientID, orderID).heap| == |b.heap|
  {
    var key := OrderKey(clientID, orderID);
    if key in b.trades {
      var r := b.heap[b.trades[key]];
      UpdateKeepsWF(b, b.trades[key], r.(order := r.order.(permID := permID)));
    }
  }

  lemma PlaceKeepsWF(b: Book, orderID: int, clientID: int, o: OrderFields, secType: string, sent: bool)
    requires WF(b)
    ensures var b' := OnPlace(b, orderID, clientID, o, secType, sent);
            WF(b') && |b.heap| <= |b'.heap| <= |b.heap| + 1
  {
    var key := KeyOf(clientID, orderID, o.permID);
    if key in b.trades {
      UpdateKeepsWF(b, b.trades[key], Logged(b.heap[b.trades[key]], Modify));
    } else {
      AddKeepsWF(b, PlacedTrade(orderID, o, secType));
    }
  }

  lemma CompletedKeepsWF(b: Book, o: OrderFields, secType: string, state: string)
    requires WF(b)
    ensures WF(OnCompleted(b, o, secType, state)) && |OnCompleted(b, o, secType, state).heap| == |b.heap| + 1
  {
    AddKeepsWF(b, TradeRec(secType, o, NewStatus(0, state), [], []));
  }

  lemma StepKeepsWF(b: Book, m: Msg)
    requires WF(b)
    ensures WF(Step(b, m))
    ensures |b.heap| <= |Step(b, m).heap| <= |b.heap| + 1
  {
    match m
    case StatusMsg(st) => StatusKeepsWF(b, st);
    case OpenOrderMsg(orderID, clientID, o, secType, state) => OpenOrderKeepsWF(b, orderID, clientID, o, secType, state);
    case ExecMsg(e, live) => ExecKeepsWF(b, e, live);
    case CommissionMsg(r, noPNL, noYield) =>
    case CompletedMsg(o, secType, state) => CompletedKeepsWF(b, o, secType, state);
    case BoundMsg(permID, clientID, orderID) => BoundKeepsWF(b, permID, clientID, orderID);
    case PlaceCall(orderID, clientID, o, secType, sent) => PlaceKeepsWF(b, orderID, clientID, o, secType, sent);
    case ResetCall =>
  }

  // ----- What a handler leaves of a trade that already exists -----

  /** The same status, and the log extended by at most one entry with this message. */
  predicate KeepsStatus(r: TradeRec, r': TradeRec, message: LogMessage) {
    r'.status == r.status && (r'.log == r.log || r'.log == r.log + [LogEntry(r.status.status, message)])
  }

  lemma StatusOld(b: Book, st: OrderStatus, t: nat)
    requires WF(b) && t < |b.heap|
    ensures |OnStatus(b, st).heap| == |b.heap|
    ensures OnStatus(b, st).heap[t]
            == if StatusLookup(b, KeyOf(st.clientID, st.orderID, st.permID), st.permID) == Some(t)
               then WithStatus(b.heap[t], st) else b.heap[t]
  {
    hide KeyOf, WithStatus, StatusEvents;
  }

  lemma OpenOrderOld(b: Book, orderID: int, clientID: int, o: OrderFields, secType: string, state: string, t: nat)
    requires WF(b) && t < |b.heap|
    ensures t < |OnOpenOrder(b, orderID, clientID, o, secType, state).heap|
    ensures KeepsStatus(b.heap[t], OnOpenOrder(b, orderID, clientID, o, secType, state).heap[t], Modify)
    ensures OnOpenOrder(b, orderID, clientID, o, secType, state).heap[t].fills == b.heap[t].fills
  {
    hide KeyOf;
  }

  lemma ExecOld(b: Book, raw: Execution, live: bool, t: nat)
    requires WF(b) && t < |b.heap|
    ensures t < |OnExec(b, raw, live).heap|
    ensures KeepsStatus(b.heap[t], OnExec(b, raw, live).heap[t], FillOf(raw.shares, raw.price))
  {
    hide KeyOf;
  }

  lemma CompletedOld(b: Book, o: OrderFields, secType: string, state: string, t: nat)
    requires WF(b) && t < |b.heap|
    ensures t < |OnCompleted(b, o, secType, state).heap|
    ensures KeepsStatus(b.heap[t], OnCompleted(b, o, secType, state).heap[t], Modify)
    ensures OnCompleted(b, o, secType, state).heap[t].fills == b.heap[t].fills
  {
  }

  lemma BoundOld(b: Book, permID: int, clientID: int, orderID: int, t: nat)
    requires WF(b) && t < |b.heap|
    ensures t < |OnBound(b, permID, clientID, orderID).heap|
    ensures KeepsStatus(b.heap[t], OnBound(b, permID, clientID, orderID).heap[t], Modify)
    ensures OnBound(b, permID, clientID, orderID).heap[t].fills == b.heap[t].fills
  {
  }

  lemma PlaceOld(b: Book, orderID: int, clientID: int, o: OrderFields, secType: string, sent: bool, t: nat)
    requires WF(b) && t < |b.heap|
    ensures t < |OnPlace(b, orderID, clientID, o, secType, sent).heap|
    ensures KeepsStatus(b.heap[t], OnPlace(b, orderID, clientID, o, secType, sent).heap[t], Modify)
    ensures OnPlace(b, orderID, clientID, o, secType, sent).heap[t].fills == b.heap[t].fills
  {
    hide KeyOf;
  }

  /** The state after the first `n` messages. */
  function Run(ms: seq<Msg>, n: nat): (b: Book)
    requires n <= |ms|
    ensures WF(b)
  {
    if n == 0 then EMPTY
    else
      var b := Run(ms, n - 1);
      StepKeepsWF(b, ms[n - 1]);
      Step(b, ms[n - 1])
  }

  // ----- Quantities -----

  /** `Trade.FilledQty`: shares of the first `n` fills; a BAG trade counts only its BAG fills. */
  function FilledUpTo(r: TradeRec, fillHeap: seq<FillRec>, n: nat): real
    requires n <= |r.fills|
    requires forall i :: 0 <= i < |r.fills| ==> r.fills[i] < |fillHeap|
  {
    if n == 0 then 0.0
    else FilledUpTo(r, fillHeap, n - 1) + Counted(r.secType, fillHeap[r.fills[n - 1]].exec)
  }

  function Counted(secType: string, e: Execution): real {
    if secType == BAG && e.secType != BAG then 0.0 else e.shares
  }

  function FilledQty(b: Book, t: nat): real
    requires WF(b) && t < |b.heap|
  {
    FilledUpTo(b.heap[t], b.fillHeap, |b.heap[t].fills|)
  }
}
