/**
 What the messages of a run tell of its trades, by looking back: under which key and permID a trade
 is found, what it shows, what was reported of its fills, and which events fired.  The handlers
 look forward, one message at a time; over every run both come to the same.
 */
module OrderHistory {
  import opened Wrappers
  import opened OrderBook
  import opened FillConservation
  import opened LogRefinement

  // ----- Where a trade is found -----

  /** The key an order is known by: the API key of a positive order ID, else the permID of an order placed by hand. */
  function Name(clientID: int, orderID: int, permID: int): OrderKey {
    if orderID > 0 then OrderKey(clientID, orderID) else OrderKey(0, permID)
  }

  /** The key by which a message asks for a trade or makes one. */
  function NameIn(m: Msg): Option<OrderKey> {
    match m
    case StatusMsg(st) => Some(Name(st.clientID, st.orderID, st.permID))
    case OpenOrderMsg(orderID, clientID, o, _, _) => Some(Name(clientID, orderID, o.permID))
    case ExecMsg(e, _) => Some(Name(e.clientID, if e.orderID == 0x7fff_ffff then 0 else e.orderID, e.permID))
    case PlaceCall(orderID, clientID, o, _, _) => Some(Name(clientID, orderID, o.permID))
    case BoundMsg(permID, clientID, orderID) =>
      if permID != 0 && orderID != 0 then Some(OrderKey(clientID, orderID)) else None
    case _ => None
  }

  /** How many trades the first `n` messages make. */
  function Made(ms: seq<Msg>, n: nat): nat
    requires n <= |ms|
    decreases n, 0
  {
    if n == 0 then 0 else Made(ms, n - 1) + if Makes(ms, n - 1) then 1 else 0
  }

  /** Does message `n` make a trade? */
  predicate Makes(ms: seq<Msg>, n: nat)
    requires n < |ms|
    decreases n, 3
  {
    match ms[n]
    case OpenOrderMsg(_, _, _, _, _) => ByKey(ms, n, NameIn(ms[n]).value).None?
    case PlaceCall(_, _, _, _, _) => ByKey(ms, n, NameIn(ms[n]).value).None?
    case CompletedMsg(_, _, _) => true
    case _ => false
  }

  /** The trade stored under a key: the first one made for it since the last reset, or a later completion under its permID. */
  function ByKey(ms: seq<Msg>, n: nat, k: OrderKey): Option<nat>
    requires n <= |ms|
    decreases n, 1
  {
    if n == 0 || ms[n - 1].ResetCall? then None else
    var stored := match ms[n - 1]
      case OpenOrderMsg(_, _, _, _, _) => NameIn(ms[n - 1]) == Some(k) && ByKey(ms, n - 1, k).None?
      case PlaceCall(_, _, _, _, sent) => sent && NameIn(ms[n - 1]) == Some(k) && ByKey(ms, n - 1, k).None?
      case CompletedMsg(o, _, _) => o.permID != 0 && ByPermID(ms, n - 1, o.permID).None? && k == OrderKey(0, o.permID)
      case _ => false;
    if stored then Some(Made(ms, n - 1)) else ByKey(ms, n - 1, k)
  }

  /** The trade indexed under a permID: the one that openOrder, orderBound or a first completion last named by it. */
  function ByPermID(ms: seq<Msg>, n: nat, p: int): Option<nat>
    requires n <= |ms|
    decreases n, 2
  {
    if n == 0 || ms[n - 1].ResetCall? then None else
    var before := ByPermID(ms, n - 1, p);
    match ms[n - 1]
    case OpenOrderMsg(_, _, o, _, _) => if o.permID == p != 0 then ByKey(ms, n, NameIn(ms[n - 1]).value) else before
    case CompletedMsg(o, _, _) => if o.permID == p != 0 && before.None? then Some(Made(ms, n - 1)) else before
    case BoundMsg(permID, clientID, orderID) =>
      if permID == p && NameIn(ms[n - 1]).Some? && ByKey(ms, n - 1, OrderKey(clientID, orderID)).Some?
      then ByKey(ms, n - 1, OrderKey(clientID, orderID)) else before
    case _ => before
  }

  /** The trade that message `n` finds: executions ask by permID first, status messages second, the others not at all. */
  function Found(ms: seq<Msg>, n: nat): Option<nat>
    requires n < |ms|
  {
    match ms[n]
    case StatusMsg(st) =>
      if ByKey(ms, n, NameIn(ms[n]).value).Some? then ByKey(ms, n, NameIn(ms[n]).value)
      else if st.permID != 0 then ByPermID(ms, n, st.permID) else None
    case ExecMsg(e, _) =>
      if ByPermID(ms, n, e.permID).Some? then ByPermID(ms, n, e.permID) else ByKey(ms, n, NameIn(ms[n]).value)
    case _ => if NameIn(ms[n]).Some? then ByKey(ms, n, NameIn(ms[n]).value) else None
  }

  /** The indexes are what the messages tell. */
  ghost predicate IndexesTold(b: Book, ms: seq<Msg>, n: nat)
    requires n <= |ms|
  {
    && |b.heap| == Made(ms, n)
    && (forall k :: Lookup(b.trades, k) == ByKey(ms, n, k))
    && (forall p :: Lookup(b.permID2Trade, p) == ByPermID(ms, n, p))
  }

  /** How the indexes of a state come from those before a message that asks for the key `k`. */
  ghost predicate StoresUnder(b: Book, b': Book, k: OrderKey, stored: bool) {
    if k !in b.trades
    then |b'.heap| == |b.heap| + 1 && b'.trades == if stored then b.trades[k := |b.heap|] else b.trades
    else |b'.heap| == |b.heap| && b'.trades == b.trades
  }

  lemma NamesAgree(m: Msg)
    ensures m.OpenOrderMsg? ==> NameIn(m) == Some(KeyOf(m.clientID, m.orderID, m.order.permID))
    ensures m.PlaceCall? ==> NameIn(m) == Some(KeyOf(m.clientID, m.orderID, m.order.permID))
    ensures m.StatusMsg? ==> NameIn(m) == Some(KeyOf(m.status.clientID, m.status.orderID, m.status.permID))
    ensures m.ExecMsg? ==> NameIn(m) == Some(ExecKey(Normalized(m.exec)))
  {
  }

  lemma OpenOrderIndexes(b: Book, m: Msg)
    requires WF(b) && m.OpenOrderMsg?
    ensures StoresUnder(b, Step(b, m), NameIn(m).value, true)
    ensures var p, t := m.order.permID, Step(b, m).trades[NameIn(m).value];
            Step(b, m).permID2Trade == if p != 0 then b.permID2Trade[p := t] else b.permID2Trade
  {
    NamesAgree(m);
    hide KeyOf, NameIn;
  }

  lemma PlaceIndexes(b: Book, m: Msg)
    requires WF(b) && m.PlaceCall?
    ensures StoresUnder(b, Step(b, m), NameIn(m).value, m.sent) && Step(b, m).permID2Trade == b.permID2Trade
  {
    NamesAgree(m);
    hide KeyOf, NameIn;
  }

  lemma CompletedIndexes(b: Book, m: Msg)
    requires WF(b) && m.CompletedMsg?
    ensures var b', p := Step(b, m), m.order.permID;
            && |b'.heap| == |b.heap| + 1
            && if p != 0 && p !in b.permID2Trade
               then b'.trades == b.trades[OrderKey(0, p) := |b.heap|] && b'.permID2Trade == b.permID2Trade[p := |b.heap|]
               else b'.trades == b.trades && b'.permID2Trade == b.permID2Trade
  {
  }

  lemma BoundIndexes(b: Book, m: Msg)
    requires WF(b) && m.BoundMsg?
    ensures var b', k := Step(b, m), OrderKey(m.clientID, m.orderID);
            && |b'.heap| == |b.heap| && b'.trades == b.trades
            && b'.permID2Trade == if NameIn(m).Some? && k in b.trades then b.permID2Trade[m.permID := b.trades[k]]
                                  else b.permID2Trade
  {
  }

  lemma OthersIndex(b: Book, m: Msg)
    requires WF(b) && (m.StatusMsg? || m.ExecMsg? || m.CommissionMsg?)
    ensures var b' := Step(b, m); |b'.heap| == |b.heap| && b'.trades == b.trades && b'.permID2Trade == b.permID2Trade
  {
    hide KeyOf, WithStatus, StatusEvents, Normalized;
    match m
    case StatusMsg(_) =>
    case ExecMsg(_, _) =>
    case CommissionMsg(_, _, _) =>
  }

  lemma ByName(b: Book, ms: seq<Msg>, n: nat, k: OrderKey)
    requires n <= |ms| && IndexesTold(b, ms, n)
    ensures k in b.trades <==> ByKey(ms, n, k).Some?
    ensures k in b.trades ==> ByKey(ms, n, k) == Some(b.trades[k])
  {
    hide ByKey;
    assert Lookup(b.trades, k) == ByKey(ms, n, k);
  }

  lemma ByNumber(b: Book, ms: seq<Msg>, n: nat, p: int)
    requires n <= |ms| && IndexesTold(b, ms, n)
    ensures p in b.permID2Trade <==> ByPermID(ms, n, p).Some?
    ensures p in b.permID2Trade ==> ByPermID(ms, n, p) == Some(b.permID2Trade[p])
  {
    hide ByPermID;
    assert Lookup(b.permID2Trade, p) == ByPermID(ms, n, p);
  }

  lemma MadeStep(b: Book, ms: seq<Msg>, n: nat)
    requires n < |ms| && WF(b) && IndexesTold(b, ms, n)
    ensures |Step(b, ms[n]).heap| == Made(ms, n + 1)
  {
    if ms[n].OpenOrderMsg? || ms[n].PlaceCall? { ByName(b, ms, n, NameIn(ms[n]).value); }
    hide ByKey, ByPermID, NameIn, Step, IndexesTold;
    match ms[n]
    case OpenOrderMsg(_, _, _, _, _) => OpenOrderIndexes(b, ms[n]);
    case PlaceCall(_, _, _, _, _) => PlaceIndexes(b, ms[n]);
    case CompletedMsg(_, _, _) => CompletedIndexes(b, ms[n]);
    case BoundMsg(_, _, _) => BoundIndexes(b, ms[n]);
    case ResetCall => ResetForgets(b);
    case _ => OthersIndex(b, ms[n]);
  }

  lemma KeyStep(b: Book, ms: seq<Msg>, n: nat, k: OrderKey)
    requires n < |ms| && WF(b) && IndexesTold(b, ms, n)
    ensures Lookup(Step(b, ms[n]).trades, k) == ByKey(ms, n + 1, k)
  {
    ByName(b, ms, n, k);
    if ms[n].CompletedMsg? { ByNumber(b, ms, n, ms[n].order.permID); }
    hide ByPermID, NameIn, Step, Made;
    match ms[n]
    case OpenOrderMsg(_, _, _, _, _) => OpenOrderIndexes(b, ms[n]);
    case PlaceCall(_, _, _, _, _) => PlaceIndexes(b, ms[n]);
    case CompletedMsg(_, _, _) => CompletedIndexes(b, ms[n]);
    case BoundMsg(_, _, _) => BoundIndexes(b, ms[n]);
    case ResetCall => ResetForgets(b);
    case _ => OthersIndex(b, ms[n]);
  }

  lemma PermIDStep(b: Book, ms: seq<Msg>, n: nat, p: int)
    requires n < |ms| && WF(b) && IndexesTold(b, ms, n)
    ensures Lookup(Step(b, ms[n]).permID2Trade, p) == ByPermID(ms, n + 1, p)
  {
    ByNumber(b, ms, n, p);
    if ms[n].OpenOrderMsg? { KeyStep(b, ms, n, NameIn(ms[n]).value); }
    if ms[n].BoundMsg? {
      NameInBound(ms[n]);
      ByName(b, ms, n, OrderKey(ms[n].clientID, ms[n].orderID));
    }
    hide ByKey, NameIn, Step, Made;
    match ms[n]
    case OpenOrderMsg(_, _, _, _, _) => OpenOrderIndexes(b, ms[n]);
    case PlaceCall(_, _, _, _, _) => PlaceIndexes(b, ms[n]);
    case CompletedMsg(_, _, _) => CompletedIndexes(b, ms[n]);
    case BoundMsg(_, _, _) => BoundIndexes(b, ms[n]);
    case ResetCall => ResetForgets(b);
    case _ => OthersIndex(b, ms[n]);
  }

  lemma NameInBound(m: Msg)
    requires m.BoundMsg?
    ensures NameIn(m).Some? ==> m.permID != 0 && NameIn(m) == Some(OrderKey(m.clientID, m.orderID))
  {
  }

  lemma ResetForgets(b: Book)
    requires WF(b)
    ensures var b' := Step(b, ResetCall); |b'.heap| == |b.heap| && b'.trades == map[] && b'.permID2Trade == map[]
  {
  }

  lemma NothingIndexed(ms: seq<Msg>)
    ensures IndexesTold(Run(ms, 0), ms, 0)
  {
  }

  /** Over every run a trade is stored under a key, and indexed under a permID, exactly as the messages tell. */
  lemma {:induction false} EveryRunIndexes(ms: seq<Msg>, n: nat)
    requires n <= |ms|
    ensures IndexesTold(Run(ms, n), ms, n)
  {
    hide Step, ByKey, ByPermID, Made, WF;
    if n == 0 {
      NothingIndexed(ms);
    } else {
      EveryRunIndexes(ms, n - 1);
      var b := Run(ms, n - 1);
      MadeStep(b, ms, n - 1);
      forall k ensures Lookup(Run(ms, n).trades, k) == ByKey(ms, n, k) {
        KeyStep(b, ms, n - 1, k);
      }
      forall p ensures Lookup(Run(ms, n).permID2Trade, p) == ByPermID(ms, n, p) {
        PermIDStep(b, ms, n - 1, p);
      }
    }
  }

  // ----- What a trade shows -----

  lemma MadeMakes(ms: seq<Msg>, n: nat)
    requires 0 < n <= |ms|
    ensures Made(ms, n - 1) <= Made(ms, n) <= Made(ms, n - 1) + 1
    ensures Made(ms, n - 1) < Made(ms, n) ==>
              ms[n - 1].OpenOrderMsg? || ms[n - 1].PlaceCall? || ms[n - 1].CompletedMsg?
  {
  }

  /** What message `n` makes of the trade it finds. */
  function Changed(ms: seq<Msg>, n: nat, r: TradeRec): TradeRec
    requires n < |ms|
  {
    match ms[n]
    case StatusMsg(st) =>
      r.(status := st, log := if st.status == r.status.status then r.log else r.log + [LogEntry(st.status, Plain)])
    case OpenOrderMsg(_, _, o, _, _) => r.(order := o)
    case BoundMsg(permID, _, _) => r.(order := r.order.(permID := permID))
    case PlaceCall(_, _, _, _, _) => r.(log := r.log + [LogEntry(r.status.status, Modify)])
    case ExecMsg(e, _) =>
      if !IsFirst(ms, n) then r else
      r.(fills := r.fills + [|Arrivals(ms, n)|], log := r.log + [LogEntry(r.status.status, FillOf(e.shares, e.price))])
    case _ => r
  }

  /** A trade as the messages tell it: made by one, and changed by those that find it. */
  function TradeAt(ms: seq<Msg>, n: nat, t: nat): TradeRec
    requires n <= |ms| && t < Made(ms, n)
  {
    MadeMakes(ms, n);
    var m := ms[n - 1];
    if t >= Made(ms, n - 1) then
      TradeRec(m.secType, m.order, InitialStatus(m), [], if m.PlaceCall? then [LogEntry("PendingSubmit", Plain)] else [])
    else if Found(ms, n - 1) == Some(t) then Changed(ms, n - 1, TradeAt(ms, n - 1, t))
    else TradeAt(ms, n - 1, t)
  }

  /** The handlers' lookups find the trade that the messages tell. */
  lemma FoundAgrees(b: Book, ms: seq<Msg>, n: nat)
    requires n < |ms| && IndexesTold(b, ms, n)
    ensures match ms[n]
            case StatusMsg(st) => Found(ms, n) == StatusLookup(b, KeyOf(st.clientID, st.orderID, st.permID), st.permID)
            case ExecMsg(e, _) => Found(ms, n) == ExecLookup(b, ExecKey(Normalized(e)), e.permID)
            case OpenOrderMsg(orderID, clientID, o, _, _) =>
              Found(ms, n) == Lookup(b.trades, KeyOf(clientID, orderID, o.permID))
            case PlaceCall(orderID, clientID, o, _, _) =>
              Found(ms, n) == Lookup(b.trades, KeyOf(clientID, orderID, o.permID))
            case BoundMsg(permID, clientID, orderID) =>
              Found(ms, n) == if permID != 0 && orderID != 0 then Lookup(b.trades, OrderKey(clientID, orderID)) else None
            case _ => Found(ms, n) == None
  {
    hide ByKey, ByPermID, Made;
    NamesAgree(ms[n]);
    if NameIn(ms[n]).Some? { ByName(b, ms, n, NameIn(ms[n]).value); }
    if ms[n].StatusMsg? { ByNumber(b, ms, n, ms[n].status.permID); }
    if ms[n].ExecMsg? { ByNumber(b, ms, n, ms[n].exec.permID); }
  }

  /** Does message `n` change trade `t` as it should, if it finds it, and leave it alone otherwise? */
  ghost predicate ChangesRight(b: Book, ms: seq<Msg>, n: nat, t: nat)
    requires n < |ms| && WF(b)
  {
    t < |b.heap| && t < |Step(b, ms[n]).heap|
    && Step(b, ms[n]).heap[t] == if Found(ms, n) == Some(t) then Changed(ms, n, b.heap[t]) else b.heap[t]
  }

  lemma StatusChanges(b: Book, ms: seq<Msg>, n: nat, t: nat)
    requires n < |ms| && WF(b) && IndexesTold(b, ms, n) && t < |b.heap| && ms[n].StatusMsg?
    ensures ChangesRight(b, ms, n, t)
  {
    FoundAgrees(b, ms, n);
    StatusOld(b, ms[n].status, t);
    hide Found, StatusLookup, KeyOf, OnStatus;
  }

  lemma OrderChanges(b: Book, ms: seq<Msg>, n: nat, t: nat)
    requires n < |ms| && WF(b) && IndexesTold(b, ms, n) && t < |b.heap|
    requires ms[n].OpenOrderMsg? || ms[n].BoundMsg?
    ensures ChangesRight(b, ms, n, t)
  {
    FoundAgrees(b, ms, n);
    hide Found, KeyOf, IndexesTold, Made;
  }

  lemma OthersChangeNothing(b: Book, ms: seq<Msg>, n: nat, t: nat)
    requires n < |ms| && WF(b) && IndexesTold(b, ms, n) && t < |b.heap|
    requires ms[n].CompletedMsg? || ms[n].CommissionMsg? || ms[n].ResetCall?
    ensures ChangesRight(b, ms, n, t)
  {
    FoundAgrees(b, ms, n);
    hide Found, KeyOf, IndexesTold, Made;
  }

  lemma PlaceChanges(b: Book, ms: seq<Msg>, n: nat, t: nat)
    requires n < |ms| && WF(b) && IndexesTold(b, ms, n) && t < |b.heap| && ms[n].PlaceCall?
    ensures ChangesRight(b, ms, n, t)
  {
    FoundAgrees(b, ms, n);
    hide Found, KeyOf, IndexesTold, Made;
  }

  lemma ExecChanges(ms: seq<Msg>, n: nat, t: nat)
    requires n < |ms| && IndexesTold(Run(ms, n), ms, n) && t < |Run(ms, n).heap| && ms[n].ExecMsg?
    ensures ChangesRight(Run(ms, n), ms, n, t)
  {
    FoundAgrees(Run(ms, n), ms, n);
    FreshIffFirst(ms, n);
    SameCount(ms, n);
    ExecShows(Run(ms, n), ms[n].exec, ms[n].live, t);
    hide Found, KeyOf, IndexesTold, Made, Run, Arrivals, ExecLookup, IsFirst, OnExec, WF;
  }

  /** A new execution joins the fill list and the log of the trade found for it. */
  lemma ExecShows(b: Book, raw: Execution, live: bool, t: nat)
    requires WF(b) && t < |b.heap|
    ensures t < |OnExec(b, raw, live).heap|
    ensures OnExec(b, raw, live).heap[t]
            == if raw.execID !in b.fills && ExecLookup(b, ExecKey(Normalized(raw)), raw.permID) == Some(t)
               then b.heap[t].(fills := b.heap[t].fills + [|b.fillHeap|],
                               log := b.heap[t].log + [LogEntry(b.heap[t].status.status, FillOf(raw.shares, raw.price))])
               else b.heap[t]
  {
    hide KeyOf;
  }

  lemma NewTradeTold(ms: seq<Msg>, n: nat)
    requires n < |ms| && |Run(ms, n).heap| == Made(ms, n) < |Run(ms, n + 1).heap| == Made(ms, n + 1)
    ensures Run(ms, n + 1).heap[Made(ms, n)] == TradeAt(ms, n + 1, Made(ms, n))
  {
    MadeMakes(ms, n + 1);
    NewTrade(Run(ms, n), ms[n], Made(ms, n));
    NewList(Run(ms, n), ms[n], Made(ms, n));
    NewOrder(Run(ms, n), ms[n], Made(ms, n));
    hide Step, InitialStatus, Found;
  }

  lemma NewOrder(b: Book, m: Msg, t: nat)
    requires WF(b) && |b.heap| <= t < |Step(b, m).heap| && (m.OpenOrderMsg? || m.PlaceCall? || m.CompletedMsg?)
    ensures Step(b, m).heap[t].secType == m.secType && Step(b, m).heap[t].order == m.order
  {
    StepKeepsWF(b, m);
    hide KeyOf, NewStatus;
  }

  /** Over every run each trade shows exactly what the messages tell: order, status, fills and log. */
  lemma {:induction false} EveryRunShows(ms: seq<Msg>, n: nat, t: nat)
    requires n <= |ms| && t < |Run(ms, n).heap|
    ensures t < Made(ms, n) && Run(ms, n).heap[t] == TradeAt(ms, n, t)
  {
    hide Step, WF, Changed, Found, IndexesTold;
    EveryRunCounts(ms, n);
    if n > 0 {
      EveryRunCounts(ms, n - 1);
      MadeMakes(ms, n);
      if t == Made(ms, n - 1) {
        NewTradeTold(ms, n - 1);
      } else {
        EveryRunShows(ms, n - 1, t);
        ChangedRight(ms, n - 1, t);
      }
    }
  }

  lemma EveryRunCounts(ms: seq<Msg>, n: nat)
    requires n <= |ms|
    ensures |Run(ms, n).heap| == Made(ms, n)
  {
    hide Run, Made;
    EveryRunIndexes(ms, n);
  }

  lemma ChangedRight(ms: seq<Msg>, n: nat, t: nat)
    requires n < |ms| && t < |Run(ms, n).heap|
    ensures ChangesRight(Run(ms, n), ms, n, t)
  {
    EveryRunIndexes(ms, n);
    hide ChangesRight, IndexesTold;
    match ms[n]
    case StatusMsg(_) => StatusChanges(Run(ms, n), ms, n, t);
    case ExecMsg(_, _) => ExecChanges(ms, n, t);
    case PlaceCall(_, _, _, _, _) => PlaceChanges(Run(ms, n), ms, n, t);
    case OpenOrderMsg(_, _, _, _, _) => OrderChanges(Run(ms, n), ms, n, t);
    case BoundMsg(_, _, _) => OrderChanges(Run(ms, n), ms, n, t);
    case _ => OthersChangeNothing(Run(ms, n), ms, n, t);
  }

  // ----- Commissions -----

  /** The fill on record under an execution ID: the first to arrive with it since the last reset. */
  function RecordedUnder(ms: seq<Msg>, n: nat, x: string): Option<nat>
    requires n <= |ms|
  {
    if n == 0 || ms[n - 1].ResetCall? then None
    else if RecordedUnder(ms, n - 1, x).Some? then RecordedUnder(ms, n - 1, x)
    else if ms[n - 1].ExecMsg? && ms[n - 1].exec.execID == x then Some(|Arrivals(ms, n - 1)|)
    else None
  }

  /** What a report says of a fill: the amounts that stand for "not set" count as 0. */
  function Reported(m: Msg): CommissionReport
    requires m.CommissionMsg?
  {
    CommissionReport(m.report.execID, m.report.commission, m.report.currency,
                     if m.noPNL then 0.0 else m.report.realizedPNL, if m.noYield then 0.0 else m.report.yield_)
  }

  /** The commission of the fill that arrived as number `f`: the last one reported for it, or a blank one. */
  function CommissionAt(ms: seq<Msg>, n: nat, f: nat): CommissionReport
    requires n <= |ms|
  {
    if n == 0 || f >= |Arrivals(ms, n - 1)| then CommissionReport("", 0.0, "", 0.0, 0.0)
    else if ms[n - 1].CommissionMsg? && RecordedUnder(ms, n - 1, ms[n - 1].report.execID) == Some(f)
    then Reported(ms[n - 1])
    else CommissionAt(ms, n - 1, f)
  }

  lemma {:induction false} EveryRunRecordsUnder(ms: seq<Msg>, n: nat, x: string)
    requires n <= |ms|
    ensures Lookup(Run(ms, n).fills, x) == RecordedUnder(ms, n, x)
  {
    hide Step, WF;
    if n > 0 {
      EveryRunRecordsUnder(ms, n - 1, x);
      EveryRunMatches(ms, n - 1);
      FillsStep(Run(ms, n - 1), ms[n - 1]);
    }
  }

  lemma FillsStep(b: Book, m: Msg)
    requires WF(b)
    ensures Step(b, m).fills
            == if m.ResetCall? then map[]
               else if m.ExecMsg? && m.exec.execID !in b.fills then b.fills[m.exec.execID := |b.fillHeap|]
               else b.fills
  {
    if m.ExecMsg? {
      RecordedFills(b, m.exec, m.live);
    } else {
      OnlyExecAddsFills(b, m);
    }
  }

  /** What one message makes of the commissions. */
  lemma CommissionStep(b: Book, m: Msg, f: nat)
    requires WF(b) && f < |b.fillHeap|
    ensures f < |Step(b, m).fillHeap|
    ensures Step(b, m).fillHeap[f].commission
            == if m.CommissionMsg? && Lookup(b.fills, m.report.execID) == Some(f) then Reported(m)
               else b.fillHeap[f].commission
  {
    hide KeyOf, WithStatus, StatusEvents, Normalized;
    match m
    case StatusMsg(_) =>
    case OpenOrderMsg(_, _, _, _, _) =>
    case ExecMsg(_, _) =>
    case CommissionMsg(_, _, _) =>
    case CompletedMsg(_, _, _) =>
    case BoundMsg(_, _, _) =>
    case PlaceCall(_, _, _, _, _) =>
    case ResetCall =>
  }

  lemma FreshFillIsBlank(b: Book, m: Msg, f: nat)
    requires WF(b) && |b.fillHeap| <= f < |Step(b, m).fillHeap|
    ensures Step(b, m).fillHeap[f].commission == CommissionReport("", 0.0, "", 0.0, 0.0)
  {
    if m.ExecMsg? {
      RecordedFills(b, m.exec, m.live);
    } else {
      OnlyExecAddsFills(b, m);
    }
  }

  /** Over every run a fill carries the last commission reported for it, however often its execution is replayed. */
  lemma {:induction false} EveryRunReports(ms: seq<Msg>, n: nat, f: nat)
    requires n <= |ms| && f < |Run(ms, n).fillHeap|
    ensures Run(ms, n).fillHeap[f].commission == CommissionAt(ms, n, f)
  {
    hide Step, WF, Matches, Reported;
    if n > 0 {
      SameCount(ms, n - 1);
      if f < |Run(ms, n - 1).fillHeap| {
        EveryRunReports(ms, n - 1, f);
        CommissionStep(Run(ms, n - 1), ms[n - 1], f);
        if ms[n - 1].CommissionMsg? { EveryRunRecordsUnder(ms, n - 1, ms[n - 1].report.execID); }
      } else {
        FreshFillIsBlank(Run(ms, n - 1), ms[n - 1], f);
      }
    }
  }

  lemma SameCount(ms: seq<Msg>, n: nat)
    requires n <= |ms|
    ensures |Run(ms, n).fillHeap| == |Arrivals(ms, n)|
  {
    EveryRunMatches(ms, n);
  }

  // ----- Which events fire -----

  /** The events that message `n` fires. */
  function EventsOf(ms: seq<Msg>, n: nat): seq<Emission>
    requires n < |ms|
  {
    match (ms[n], Found(ms, n))
    case (StatusMsg(st), Some(t)) =>
      [OrderStatusEvent(t), StatusEvent(t)] +
      if t >= Made(ms, n) || TradeAt(ms, n, t).status.status == st.status then []
      else if st.status == "Filled" then [FilledEvent(t)]
      else if st.status == "Cancelled" then [CancelledEvent(t)] else []
    case (OpenOrderMsg(_, _, _, _, _), Some(t)) => [OrderStatusEvent(t)]
    case (OpenOrderMsg(_, _, _, _, _), None) => [OrderStatusEvent(Made(ms, n))]
    case (ExecMsg(e, live), Some(t)) =>
      var fill := FillRec(if e.orderID == 0x7fff_ffff then e.(orderID := 0) else e, CommissionReport("", 0.0, "", 0.0, 0.0));
      if live then [ExecDetailsEvent(fill), FillEvent(t, fill)] else []
    case (PlaceCall(_, _, _, _, _), Some(t)) => [ModifyEvent(t)]
    case (PlaceCall(_, _, _, _, sent), None) => if sent then [NewOrderEvent(Made(ms, n))] else []
    case (CommissionMsg(r, _, _), _) =>
      var f := RecordedUnder(ms, n, r.execID);
      if f.None? || f.value >= |Run(ms, n).fillHeap| then [] else
      var exec := Run(ms, n).fillHeap[f.value].exec;
      var t := ByPermID(ms, n, exec.permID);
      if t.Some? then [CommissionReportEvent(t.value, FillRec(exec, Reported(ms[n])))] else []
    case _ => []
  }

  function Fired(ms: seq<Msg>, n: nat): seq<Emission>
    requires n <= |ms|
  {
    if n == 0 then [] else Fired(ms, n - 1) + EventsOf(ms, n - 1)
  }

  lemma StatusFires(ms: seq<Msg>, n: nat)
    requires n < |ms| && ms[n].StatusMsg? && IndexesTold(Run(ms, n), ms, n)
    ensures Run(ms, n + 1).emitted == Run(ms, n).emitted + EventsOf(ms, n)
  {
    var b := Run(ms, n);
    FoundAgrees(b, ms, n);
    if Found(ms, n).Some? { EveryRunShows(ms, n, Found(ms, n).value); }
    hide Found, KeyOf, TradeAt, WithStatus, Made;
  }

  lemma OrderFires(ms: seq<Msg>, n: nat)
    requires n < |ms| && (ms[n].OpenOrderMsg? || ms[n].PlaceCall?) && IndexesTold(Run(ms, n), ms, n)
    ensures Run(ms, n + 1).emitted == Run(ms, n).emitted + EventsOf(ms, n)
  {
    FoundAgrees(Run(ms, n), ms, n);
    hide Found, KeyOf, TradeAt, Made;
  }

  lemma ExecFires(ms: seq<Msg>, n: nat)
    requires n < |ms| && ms[n].ExecMsg? && IndexesTold(Run(ms, n), ms, n)
    ensures Run(ms, n + 1).emitted == Run(ms, n).emitted + EventsOf(ms, n)
  {
    FoundAgrees(Run(ms, n), ms, n);
    hide Found, KeyOf, ExecLookup, TradeAt, Made;
  }

  lemma CommissionFires(ms: seq<Msg>, n: nat)
    requires n < |ms| && ms[n].CommissionMsg? && IndexesTold(Run(ms, n), ms, n)
    ensures Run(ms, n + 1).emitted == Run(ms, n).emitted + EventsOf(ms, n)
  {
    var b, x := Run(ms, n), ms[n].report.execID;
    EveryRunRecordsUnder(ms, n, x);
    if x in b.fills { ByNumber(b, ms, n, b.fillHeap[b.fills[x]].exec.permID); }
    hide Found, ByPermID, RecordedUnder, TradeAt, Made;
  }

  lemma OthersFireNothing(ms: seq<Msg>, n: nat)
    requires n < |ms| && (ms[n].CompletedMsg? || ms[n].BoundMsg? || ms[n].ResetCall?)
    ensures Run(ms, n + 1).emitted == Run(ms, n).emitted + EventsOf(ms, n)
  {
    hide Found, TradeAt, Made;
  }

  /** Over every run exactly the events that the messages tell fire, in order. */
  lemma {:induction false} EveryRunFires(ms: seq<Msg>, n: nat)
    requires n <= |ms|
    ensures Run(ms, n).emitted == Fired(ms, n)
  {
    hide Step, WF, EventsOf, IndexesTold;
    if n > 0 {
      EveryRunFires(ms, n - 1);
      EveryRunIndexes(ms, n - 1);
      match ms[n - 1]
      case StatusMsg(_) => StatusFires(ms, n - 1);
      case OpenOrderMsg(_, _, _, _, _) => OrderFires(ms, n - 1);
      case PlaceCall(_, _, _, _, _) => OrderFires(ms, n - 1);
      case ExecMsg(_, _) => ExecFires(ms, n - 1);
      case CommissionMsg(_, _, _) => CommissionFires(ms, n - 1);
      case _ => OthersFireNothing(ms, n - 1);
    }
  }
}
