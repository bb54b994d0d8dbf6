/**
 The handlers as the client runs them: trades and fills are objects that several maps and
 lists point to and that the handlers update in place.  Each method is proved to do to the
 ghost `book` what the corresponding function of `OrderBook` says.
 */
module OrderManager {
  import opened Wrappers
  import opened OrderBook

  class Fill {
    const exec: Execution
    var commission: CommissionReport

    constructor (exec: Execution)
      ensures this.exec == exec && commission == NO_COMMISSION
    {
      this.exec := exec;
      commission := NO_COMMISSION;
    }
  }

  class Trade {
    /** Position in the order of creation. */
    ghost const id: nat
    const secType: string
    var order: OrderFields
    var status: OrderStatus
    var fills: seq<Fill>
    var log: seq<LogEntry>

    constructor (ghost id: nat, secType: string, order: OrderFields, status: OrderStatus, log: seq<LogEntry>)
      ensures this.id == id && this.secType == secType && this.order == order
      ensures this.status == status && this.fills == [] && this.log == log
    {
      this.id, this.secType, this.order, this.status := id, secType, order, status;
      this.fills, this.log := [], log;
    }

    /** This object holds what the record says. */
    ghost predicate Shows(r: TradeRec, allFills: seq<Fill>)
      reads this
    {
      && secType == r.secType && order == r.order && status == r.status && log == r.log
      && |fills| == |r.fills|
      && forall j :: 0 <= j < |fills| ==> r.fills[j] < |allFills| && fills[j] == allFills[r.fills[j]]
    }

    /** Shares filled: every fill of the list, except that a BAG trade passes over fills of its legs. */
    method FilledQty(ghost r: TradeRec, ghost fillHeap: seq<FillRec>) returns (total: real)
      requires |fills| == |r.fills| && secType == r.secType
      requires forall j :: 0 <= j < |fills| ==> r.fills[j] < |fillHeap| && fills[j].exec == fillHeap[r.fills[j]].exec
      ensures total == FilledUpTo(r, fillHeap, |r.fills|)
    {
      total := 0.0;
      for i := 0 to |fills|
        invariant total == FilledUpTo(r, fillHeap, i)
      {
        var f := fills[i];
        if secType == BAG && f.exec.secType != BAG {
          continue;
        }
        total := total + f.exec.shares;
      }
    }
  }

  /** The objects, in order of creation, hold what the heaps of the book say. */
  ghost predicate HeapsShow(ts: seq<Trade>, fs: seq<Fill>, heap: seq<TradeRec>, fillHeap: seq<FillRec>)
    reads ts, fs
  {
    && |ts| == |heap| && |fs| == |fillHeap|
    && (forall t :: 0 <= t < |ts| ==> ts[t].id == t && ts[t].Shows(heap[t], fs))
    && (forall f :: 0 <= f < |fs| ==> FillRec(fs[f].exec, fs[f].commission) == fillHeap[f])
    && (forall f, g :: 0 <= f < g < |fs| ==> fs[f] != fs[g])
  }

  lemma AppendKeepsWF(b: Book, t: nat, f: nat)
    requires WF(b) && t < |b.heap| && f < |b.fillHeap|
    ensures WF(b.(heap := b.heap[t := b.heap[t].(fills := b.heap[t].fills + [f])]))
  {
  }

  /** The map of fills holds the objects whose numbers the map of the book holds. */
  ghost predicate FillsShow(m: map<string, Fill>, numbers: map<string, nat>, fs: seq<Fill>) {
    m.Keys == numbers.Keys && forall x :: x in m ==> numbers[x] < |fs| && m[x] == fs[numbers[x]]
  }

  lemma OneMoreID(m: map<string, Fill>, numbers: map<string, nat>, fs: seq<Fill>, execID: string, fill: Fill)
    requires FillsShow(m, numbers, fs)
    ensures FillsShow(m[execID := fill], numbers[execID := |fs|], fs + [fill])
  {
  }

  lemma OneMoreFill(ts: seq<Trade>, fs: seq<Fill>, heap: seq<TradeRec>, fillHeap: seq<FillRec>, fill: Fill)
    requires HeapsShow(ts, fs, heap, fillHeap) && fill !in fs
    ensures HeapsShow(ts, fs + [fill], heap, fillHeap + [FillRec(fill.exec, fill.commission)])
  {
  }

  lemma StoreUnstore(m: map<OrderKey, nat>, key: OrderKey, t: nat)
    requires key !in m
    ensures m[key := t] - {key} == m
  {
  }

  class OrderState {
    var trades: map<OrderKey, Trade>
    var permID2Trade: map<int, Trade>
    var fills: map<string, Fill>

    /** The state as a value, and the objects its numbers stand for. */
    ghost var book: Book
    ghost var allTrades: seq<Trade>
    ghost var allFills: seq<Fill>

    ghost predicate Valid()
      reads this, allTrades, allFills
    {
      && WF(book) && HeapsShow(allTrades, allFills, book.heap, book.fillHeap)
      && trades.Keys == book.trades.Keys
      && (forall k :: k in trades ==> trades[k] == allTrades[book.trades[k]])
      && permID2Trade.Keys == book.permID2Trade.Keys
      && (forall p :: p in permID2Trade ==> permID2Trade[p] == allTrades[book.permID2Trade[p]])
      && FillsShow(fills, book.fills, allFills)
    }

    constructor ()
      ensures Valid() && book == EMPTY && allTrades == [] && allFills == []
    {
      trades, permID2Trade, fills := map[], map[], map[];
      book, allTrades, allFills := EMPTY, [], [];
    }

    // ----- What the maps hold -----

    lemma Keys()
      requires Valid()
      ensures trades.Keys == book.trades.Keys && permID2Trade.Keys == book.permID2Trade.Keys && fills.Keys == book.fills.Keys
    {
    }

    lemma HeapSize()
      requires Valid()
      ensures |allTrades| == |book.heap|
    {
    }

    lemma FillCount()
      requires Valid()
      ensures |allFills| == |book.fillHeap|
    {
    }

    lemma Known(trade: Trade)
      requires Valid() && trade in allTrades
      ensures trade.id < |book.heap| && WF(book)
    {
    }

    lemma StoredAt(key: OrderKey)
      requires Valid() && key in trades
      ensures trades[key] in allTrades && key in book.trades && trades[key].id == book.trades[key] < |book.heap|
      ensures trades[key].order == book.heap[trades[key].id].order
    {
    }

    lemma IndexedAt(p: int)
      requires Valid() && p in permID2Trade
      ensures permID2Trade[p] in allTrades && p in book.permID2Trade && permID2Trade[p].id == book.permID2Trade[p]
    {
    }

    lemma FillAt(x: string)
      requires Valid() && x in fills
      ensures x in book.fills && book.fills[x] < |allFills| == |book.fillHeap| && fills[x] == allFills[book.fills[x]]
      ensures book.fillHeap[book.fills[x]] == FillRec(fills[x].exec, fills[x].commission)
    {
    }

    // ----- Single changes, each mirrored in the book -----

    method SetStatus(trade: Trade, st: OrderStatus)
      requires Valid() && trade in allTrades
      modifies this`book, trade
      ensures Valid() && book == old(book.(heap := book.heap[trade.id := WithStatus(book.heap[trade.id], st)]))
    {
      UpdateKeepsWF(book, trade.id, WithStatus(book.heap[trade.id], st));
      var oldStatus := trade.status.status;
      trade.status := st;
      if st.status != oldStatus {
        trade.log := trade.log + [LogEntry(st.status, Plain)];
      }
      book := book.(heap := book.heap[trade.id := WithStatus(book.heap[trade.id], st)]);
    }

    method SetOrder(trade: Trade, o: OrderFields)
      requires Valid() && trade in allTrades
      modifies this`book, trade
      ensures Valid() && book == old(book.(heap := book.heap[trade.id := book.heap[trade.id].(order := o)]))
    {
      UpdateKeepsWF(book, trade.id, book.heap[trade.id].(order := o));
      trade.order := o;
      book := book.(heap := book.heap[trade.id := book.heap[trade.id].(order := o)]);
    }

    method AppendLog(trade: Trade, message: LogMessage)
      requires Valid() && trade in allTrades
      modifies this`book, trade
      ensures Valid() && book == old(book.(heap := book.heap[trade.id := Logged(book.heap[trade.id], message)]))
    {
      UpdateKeepsWF(book, trade.id, Logged(book.heap[trade.id], message));
      trade.log := trade.log + [LogEntry(trade.status.status, message)];
      book := book.(heap := book.heap[trade.id := Logged(book.heap[trade.id], message)]);
    }

    method NewTrade(secType: string, o: OrderFields, st: OrderStatus, log: seq<LogEntry>) returns (trade: Trade)
      requires Valid()
      modifies this`book, this`allTrades
      ensures Valid() && fresh(trade) && trade.id == |old(allTrades)| && allTrades == old(allTrades) + [trade]
      ensures book == old(book).(heap := old(book).heap + [TradeRec(secType, o, st, [], log)])
    {
      AddKeepsWF(book, TradeRec(secType, o, st, [], log));
      trade := new Trade(|allTrades|, secType, o, st, log);
      allTrades := allTrades + [trade];
      book := book.(heap := book.heap + [TradeRec(secType, o, st, [], log)]);
    }

    method Store(key: OrderKey, trade: Trade)
      requires Valid() && trade in allTrades
      modifies this`book, this`trades
      ensures Valid() && trades == old(trades)[key := trade]
      ensures book == old(book).(trades := old(book).trades[key := trade.id])
    {
      trades := trades[key := trade];
      book := book.(trades := book.trades[key := trade.id]);
    }

    method Unstore(key: OrderKey)
      requires Valid()
      modifies this`book, this`trades
      ensures Valid() && book == old(book).(trades := old(book).trades - {key})
    {
      trades := trades - {key};
      book := book.(trades := book.trades - {key});
    }

    method Index(permID: int, trade: Trade)
      requires Valid() && trade in allTrades
      modifies this`book, this`permID2Trade
      ensures Valid() && book == old(book).(permID2Trade := old(book).permID2Trade[permID := trade.id])
    {
      permID2Trade := permID2Trade[permID := trade];
      book := book.(permID2Trade := book.permID2Trade[permID := trade.id]);
    }

    method RecordFill(fill: Fill)
      requires Valid() && fill !in allFills
      modifies this`book, this`fills, this`allFills
      ensures Valid() && allFills == old(allFills) + [fill]
      ensures book == Recorded(old(book), FillRec(fill.exec, fill.commission), None)
    {
      RecordedKeepsWF(book, FillRec(fill.exec, fill.commission), None);
      OneMoreFill(allTrades, allFills, book.heap, book.fillHeap, fill);
      OneMoreID(fills, book.fills, allFills, fill.exec.execID, fill);
      FillCount();
      hide HeapsShow, FillsShow, WF;
      fills := fills[fill.exec.execID := fill];
      allFills := allFills + [fill];
      book := Recorded(book, FillRec(fill.exec, fill.commission), None);
    }

    method AppendFill(trade: Trade, fill: Fill, ghost f: nat)
      requires Valid() && trade in allTrades && f < |allFills| && allFills[f] == fill
      modifies this`book, trade
      ensures Valid()
      ensures book == old(book.(heap := book.heap[trade.id := book.heap[trade.id].(fills := book.heap[trade.id].fills + [f])]))
    {
      AppendKeepsWF(book, trade.id, f);
      hide WF;
      trade.fills := trade.fills + [fill];
      book := book.(heap := book.heap[trade.id := book.heap[trade.id].(fills := book.heap[trade.id].fills + [f])]);
    }

    method SetCommission(fill: Fill, cr: CommissionReport, ghost f: nat)
      requires Valid() && f < |allFills| && allFills[f] == fill
      modifies this`book, fill
      ensures Valid()
      ensures book == old(book).(fillHeap := old(book).fillHeap[f := old(book).fillHeap[f].(commission := cr)])
    {
      fill.commission := cr;
      book := book.(fillHeap := book.fillHeap[f := book.fillHeap[f].(commission := cr)]);
    }

    /** Records the events a handler fires at the end. */
    ghost method Fire(es: seq<Emission>)
      requires Valid()
      modifies this`book
      ensures Valid() && book == Emit(old(book), es)
    {
      book := Emit(book, es);
    }

    // ----- Lookups -----

    method FindByKeyFirst(key: OrderKey, permID: int) returns (trade: Trade?)
      requires Valid()
      ensures trade == null <==> StatusLookup(book, key, permID).None?
      ensures trade != null ==> trade in allTrades && StatusLookup(book, key, permID) == Some(trade.id)
    {
      if key in trades {
        return trades[key];
      }
      if permID != 0 && permID in permID2Trade {
        return permID2Trade[permID];
      }
      return null;
    }

    method FindByPermIDFirst(key: OrderKey, permID: int) returns (trade: Trade?)
      requires Valid()
      ensures trade == null <==> ExecLookup(book, key, permID).None?
      ensures trade != null ==> trade in allTrades && ExecLookup(book, key, permID) == Some(trade.id)
    {
      if permID in permID2Trade {
        return permID2Trade[permID];
      }
      return if key in trades then trades[key] else null;
    }

    // ----- Handlers -----

    /** `handleOrderStatus` */
    method HandleOrderStatus(st: OrderStatus)
      requires Valid()
      modifies this`book, allTrades
      ensures Valid() && book == OnStatus(old(book), st)
    {
      var key := KeyOf(st.clientID, st.orderID, st.permID);
      var trade := FindByKeyFirst(key, st.permID);
      if trade != null {
        var oldStatus := trade.status.status;
        SetStatus(trade, st);
        Fire(StatusEvents(trade.id, oldStatus, st.status));
      }
    }

    /** `handleOpenOrder`, once the message is decoded */
    method HandleOpenOrder(orderID: int, clientID: int, o: OrderFields, secType: string, state: string)
      requires Valid()
      modifies this, allTrades
      ensures Valid() && book == OnOpenOrder(old(book), orderID, clientID, o, secType, state)
      ensures old(allTrades) <= allTrades && forall t :: t in allTrades && t !in old(allTrades) ==> fresh(t)
    {
      hide Valid, HeapsShow, WF;
      Keys();
      var key := KeyOf(clientID, orderID, o.permID);
      var trade := UpdateOrCreate(key, orderID, o, secType, state);
      if o.permID != 0 {
        Index(o.permID, trade);
      }
      Fire([OrderStatusEvent(trade.id)]);
    }

    method UpdateOrCreate(key: OrderKey, orderID: int, o: OrderFields, secType: string, state: string)
      returns (trade: Trade)
      requires Valid()
      modifies this`book, this`trades, this`allTrades, allTrades
      ensures Valid() && trade in allTrades
      ensures old(allTrades) <= allTrades && forall t :: t in allTrades && t !in old(allTrades) ==> fresh(t)
      ensures if key in old(trades)
              then trade.id == old(book).trades[key]
                   && book == old(book).(heap := old(book).heap[trade.id := old(book).heap[trade.id].(order := o)])
              else trade.id == |old(book).heap|
                   && book == Stored(old(book), key, TradeRec(secType, o, NewStatus(orderID, state), [], []))
    {
      hide Valid, HeapsShow, WF;
      Keys();
      HeapSize();
      if key in trades {
        StoredAt(key);
        trade := trades[key];
        SetOrder(trade, o);
      } else {
        trade := NewTrade(secType, o, NewStatus(orderID, state), []);
        Store(key, trade);
      }
    }

    /** `handleExecDetails`, once the message is decoded; `live` when no request waits for it */
    method HandleExecDetails(raw: Execution, live: bool)
      requires Valid()
      modifies this, allTrades
      ensures Valid() && book == OnExec(old(book), raw, live)
      ensures allTrades == old(allTrades)
    {
      hide Valid, HeapsShow, WF, Recorded;
      Keys();
      var e := Normalized(raw);
      var fill := new Fill(e);
      var key := ExecKey(e);
      var trade := FindByPermIDFirst(key, e.permID);
      if e.execID !in fills {
        Attach(fill, trade);
      }
      if live && trade != null {
        Fire([ExecDetailsEvent(FillRec(e, NO_COMMISSION)), FillEvent(trade.id, FillRec(e, NO_COMMISSION))]);
      }
    }

    /** Records a new fill and hands it to the trade found for it, if any. */
    method Attach(fill: Fill, trade: Trade?)
      requires Valid() && fill !in allFills && fill.commission == NO_COMMISSION
      requires trade != null ==> trade in allTrades
      modifies this`book, this`fills, this`allFills, allTrades
      ensures Valid() && allFills == old(allFills) + [fill]
      ensures book == Recorded(old(book), FillRec(fill.exec, NO_COMMISSION),
                               if trade == null then None else Some(trade.id))
    {
      hide Valid, HeapsShow, WF;
      ghost var f := |allFills|;
      FillCount();
      RecordFill(fill);
      if trade != null {
        Known(trade);
        AppendFill(trade, fill, f);
        AppendLog(trade, FillOf(fill.exec.shares, fill.exec.price));
      }
    }

    /** `handleCommissionReport`, once the message is decoded */
    method HandleCommissionReport(raw: CommissionReport, noPNL: bool, noYield: bool)
      requires Valid()
      modifies this`book, allFills
      ensures Valid() && book == OnCommission(old(book), raw, noPNL, noYield)
    {
      hide Valid, HeapsShow, WF;
      Keys();
      var cr := raw;
      if noPNL {
        cr := cr.(realizedPNL := 0.0);
      }
      if noYield {
        cr := cr.(yield_ := 0.0);
      }
      if cr.execID in fills {
        FillAt(cr.execID);
        var fill := fills[cr.execID];
        ghost var f := book.fills[cr.execID];
        SetCommission(fill, cr, f);
        if fill.exec.permID in permID2Trade {
          IndexedAt(fill.exec.permID);
          Fire([CommissionReportEvent(permID2Trade[fill.exec.permID].id, book.fillHeap[f])]);
        }
      }
    }

    /** `handleCompletedOrder`, once the message is decoded */
    method HandleCompletedOrder(o: OrderFields, secType: string, state: string) returns (trade: Trade)
      requires Valid()
      modifies this
      ensures Valid() && book == OnCompleted(old(book), o, secType, state)
      ensures fresh(trade) && allTrades == old(allTrades) + [trade]
    {
      hide Valid, HeapsShow, WF;
      Keys();
      HeapSize();
      trade := NewTrade(secType, o, NewStatus(0, state), []);
      if o.permID != 0 {
        if o.permID !in permID2Trade {
          Store(OrderKey(0, o.permID), trade);
          Index(o.permID, trade);
        }
      }
    }

    /** `handleOrderBound` */
    method HandleOrderBound(permID: int, clientID: int, orderID: int)
      requires Valid()
      modifies this, allTrades
      ensures Valid() && book == OnBound(old(book), permID, clientID, orderID)
      ensures allTrades == old(allTrades)
    {
      hide Valid, HeapsShow, WF;
      Keys();
      if permID != 0 && orderID != 0 {
        var key := OrderKey(clientID, orderID);
        if key in trades {
          StoredAt(key);
          var trade := trades[key];
          SetOrder(trade, trade.order.(permID := permID));
          Index(permID, trade);
        }
      }
    }

    /** `PlaceOrder` in one step: null when the message could not be sent */
    method PlaceOrder(orderID: int, clientID: int, o: OrderFields, secType: string, sent: bool) returns (result: Trade?)
      requires Valid()
      modifies this, allTrades
      ensures Valid() && book == OnPlace(old(book), orderID, clientID, o, secType, sent)
      ensures old(allTrades) <= allTrades && forall t :: t in allTrades && t !in old(allTrades) ==> fresh(t)
      ensures (result == null) == !sent
      ensures sent ==> KeyOf(clientID, orderID, o.permID) in trades && result == trades[KeyOf(clientID, orderID, o.permID)]
    {
      hide Valid, HeapsShow, WF;
      Keys();
      var key := KeyOf(clientID, orderID, o.permID);
      if key in trades {
        StoredAt(key);
        var trade := trades[key];
        AppendLog(trade, Modify);
        Fire([ModifyEvent(trade.id)]);
        return if sent then trade else null;
      }
      result := PlaceNew(key, orderID, o, secType, sent);
    }

    method PlaceNew(key: OrderKey, orderID: int, o: OrderFields, secType: string, sent: bool) returns (result: Trade?)
      requires Valid() && key !in trades
      modifies this`book, this`trades, this`allTrades
      ensures Valid() && (result == null) == !sent && (sent ==> key in trades && result == trades[key])
      ensures old(allTrades) <= allTrades && forall t :: t in allTrades && t !in old(allTrades) ==> fresh(t)
      ensures var r := PlacedTrade(orderID, o, secType);
              book == if sent then Emit(Stored(old(book), key, r), [NewOrderEvent(|old(book).heap|)])
                      else old(book).(heap := old(book).heap + [r])
    {
      hide Valid, HeapsShow, WF;
      Keys();
      HeapSize();
      var trade := NewTrade(secType, o, NewStatus(orderID, PENDING_SUBMIT), [LogEntry(PENDING_SUBMIT, Plain)]);
      Store(key, trade);
      if !sent {
        Unstore(key);
        StoreUnstore(old(book).trades, key, trade.id);
        return null;
      }
      Fire([NewOrderEvent(trade.id)]);
      return trade;
    }

    /** `OrderState.reset` */
    method Reset()
      requires Valid()
      modifies this`trades, this`permID2Trade, this`fills, this`book
      ensures Valid() && book == OnReset(old(book))
    {
      trades, permID2Trade, fills := map[], map[], map[];
      book := OnReset(book);
    }

    /** The filled quantity of any trade object is the one the book gives it. */
    method FilledQtyOf(trade: Trade) returns (total: real)
      requires Valid() && trade in allTrades
      ensures total == FilledQty(book, trade.id)
    {
      total := trade.FilledQty(book.heap[trade.id], book.fillHeap);
    }
  }
}
