/**
 The status and log of a trade refine a simple specification: the status is the last one received,
 the plain log entries are the statuses the trade went through, repeats dropped, and the completion
 events fire once per such entry.
 */
module LogRefinement {
  import opened Wrappers
  import opened OrderBook

  // ----- The specification, told from the messages of a run -----

  /** The status a trade starts with when message `m` creates it: nothing filled yet, of no permID. */
  function InitialStatus(m: Msg): OrderStatus {
    var (orderID, text) := match m
      case OpenOrderMsg(orderID, _, _, _, state) => (orderID, state)
      case CompletedMsg(_, _, state) => (0, state)
      case PlaceCall(orderID, _, _, _, _) => (orderID, "PendingSubmit")
      case _ => (0, "");
    OrderStatus(orderID, text, 0.0, 0.0, 0.0, 0, 0, 0.0, 0, "", 0.0)
  }

  /**
   The trade that a status message reaches: the one stored under the API key of a positive order ID,
   or under (0, permID) when the order ID is not positive; else the one indexed under a permID other than 0.
   */
  function Reaches(b: Book, m: Msg): Option<nat> {
    if !m.StatusMsg? then None else
    var st := m.status;
    var key := if st.orderID > 0 then OrderKey(st.clientID, st.orderID) else OrderKey(0, st.permID);
    if key in b.trades then Some(b.trades[key])
    else if st.permID != 0 && st.permID in b.permID2Trade then Some(b.permID2Trade[st.permID])
    else None
  }

  /** Does message `n - 1` create trade `t`? */
  predicate Creates(ms: seq<Msg>, n: nat, t: nat)
    requires 0 < n <= |ms|
  {
    |Run(ms, n - 1).heap| <= t < |Run(ms, n).heap|
  }

  /** The initial status of trade `t` and then every status received for it, each as a whole. */
  function Received(ms: seq<Msg>, n: nat, t: nat): seq<OrderStatus>
    requires n <= |ms|
  {
    if n == 0 then []
    else if Creates(ms, n, t) then [InitialStatus(ms[n - 1])]
    else if Reaches(Run(ms, n - 1), ms[n - 1]) == Some(t) then Received(ms, n - 1, t) + [ms[n - 1].status]
    else Received(ms, n - 1, t)
  }

  /** Was trade `t` made by `PlaceOrder`? */
  predicate Placed(ms: seq<Msg>, n: nat, t: nat)
    requires n <= |ms|
  {
    n > 0 && if Creates(ms, n, t) then ms[n - 1].PlaceCall? else Placed(ms, n - 1, t)
  }

  /** The first `n` of `s` without immediate repeats. */
  function Destutter(s: seq<string>, n: nat): (r: seq<string>)
    requires n <= |s|
    ensures n > 0 ==> r != [] && r[0] == s[0] && r[|r| - 1] == s[n - 1]
    ensures forall i :: 0 < i < |r| ==> r[i - 1] != r[i]
  {
    if n == 0 then []
    else if n > 1 && s[n - 1] == s[n - 2] then Destutter(s, n - 1)
    else Destutter(s, n - 1) + [s[n - 1]]
  }

  function Texts(s: seq<OrderStatus>): (r: seq<string>)
    ensures |r| == |s| && forall i :: 0 <= i < |s| ==> r[i] == s[i].status
  {
    seq(|s|, i requires 0 <= i < |s| => s[i].status)
  }

  lemma TextsSnoc(s: seq<OrderStatus>, x: OrderStatus)
    ensures Texts(s + [x]) == Texts(s) + [x.status]
  {
  }

  /** Status changes: the destuttered statuses, with or without the one the trade started with. */
  function Changes(s: seq<string>, withFirst: bool): seq<string>
    requires s != []
  {
    var d := Destutter(s, |s|);
    if withFirst then d else d[1..]
  }

  /** The statuses of the plain entries among the first `n` of a log. */
  function PlainStatuses(log: seq<LogEntry>, n: nat): seq<string>
    requires n <= |log|
  {
    if n == 0 then []
    else if log[n - 1].message.Plain? then PlainStatuses(log, n - 1) + [log[n - 1].status]
    else PlainStatuses(log, n - 1)
  }

  function CountEvents(es: seq<Emission>, n: nat, e: Emission): nat
    requires n <= |es|
  {
    if n == 0 then 0 else CountEvents(es, n - 1, e) + (if es[n - 1] == e then 1 else 0)
  }

  function CountStatus(s: seq<string>, n: nat, x: string): nat
    requires n <= |s|
  {
    if n == 0 then 0 else CountStatus(s, n - 1, x) + (if s[n - 1] == x then 1 else 0)
  }

  // ----- One trade -----

  /** A trade's status and log as the specification wants them. */
  ghost predicate Refines(r: TradeRec, received: seq<OrderStatus>, placed: bool) {
    && received != []
    && received[|received| - 1] == r.status
    && PlainStatuses(r.log, |r.log|) == Changes(Texts(received), placed)
    && (r.log != [] ==> r.log[|r.log| - 1].status == r.status.status)
  }

  lemma {:induction false} DestutterPrefix(s: seq<string>, x: string, n: nat)
    requires n <= |s|
    ensures Destutter(s + [x], n) == Destutter(s, n)
  {
    if n > 0 { DestutterPrefix(s, x, n - 1); }
  }

  lemma ChangesSnoc(s: seq<string>, x: string, withFirst: bool)
    requires s != []
    ensures Changes(s + [x], withFirst)
            == if x == s[|s| - 1] then Changes(s, withFirst) else Changes(s, withFirst) + [x]
  {
    DestutterPrefix(s, x, |s|);
    assert (s + [x])[|s| - 1] == s[|s| - 1];
  }

  lemma {:induction false} PlainPrefix(log: seq<LogEntry>, e: LogEntry, n: nat)
    requires n <= |log|
    ensures PlainStatuses(log + [e], n) == PlainStatuses(log, n)
  {
    if n > 0 { PlainPrefix(log, e, n - 1); }
  }

  lemma PlainSnoc(log: seq<LogEntry>, e: LogEntry)
    ensures PlainStatuses(log + [e], |log| + 1)
            == if e.message.Plain? then PlainStatuses(log, |log|) + [e.status] else PlainStatuses(log, |log|)
  {
    PlainPrefix(log, e, |log|);
  }

  /** The trade shows the new status, and logs it if it is another than before. */
  predicate Takes(r: TradeRec, r': TradeRec, st: OrderStatus) {
    r'.status == st && r'.log == if st.status == r.status.status then r.log else r.log + [LogEntry(st.status, Plain)]
  }

  lemma StatusRefines(r: TradeRec, r': TradeRec, received: seq<OrderStatus>, placed: bool, st: OrderStatus)
    requires Refines(r, received, placed) && Takes(r, r', st)
    ensures Refines(r', received + [st], placed)
  {
    hide Changes, PlainStatuses;
    TextsSnoc(received, st);
    ChangesSnoc(Texts(received), st.status, placed);
    PlainSnoc(r.log, LogEntry(st.status, Plain));
  }

  lemma EntryRefines(r: TradeRec, received: seq<OrderStatus>, placed: bool, r': TradeRec, message: LogMessage)
    requires Refines(r, received, placed) && !message.Plain?
    requires KeepsStatus(r, r', message)
    ensures Refines(r', received, placed)
  {
    PlainSnoc(r.log, LogEntry(r.status.status, message));
  }

  // ----- One step -----

  /** The handler's lookup finds the trade that a status message should reach. */
  lemma ReachesFound(b: Book, m: Msg)
    ensures Reaches(b, m)
            == if m.StatusMsg?
               then StatusLookup(b, KeyOf(m.status.clientID, m.status.orderID, m.status.permID), m.status.permID) else None
  {
  }

  /** What a message does to the status and log of a trade that already exists. */
  lemma OldTradeStep(b: Book, m: Msg, t: nat) returns (message: LogMessage)
    requires WF(b) && t < |b.heap|
    ensures t < |Step(b, m).heap| && !message.Plain?
    ensures var r, r' := b.heap[t], Step(b, m).heap[t];
            if Reaches(b, m) == Some(t) then Takes(r, r', m.status)
            else KeepsStatus(r, r', message)
  {
    hide OnStatus, OnOpenOrder, OnExec, OnCompleted, OnBound, OnPlace, KeyOf, Reaches, StatusLookup;
    message := Modify;
    ReachesFound(b, m);
    match m
    case StatusMsg(st) => StatusOld(b, st, t);
    case OpenOrderMsg(orderID, clientID, o, secType, state) => OpenOrderOld(b, orderID, clientID, o, secType, state, t);
    case ExecMsg(e, live) => message := FillOf(e.shares, e.price); ExecOld(b, e, live, t);
    case CommissionMsg(_, _, _) =>
    case CompletedMsg(o, secType, state) => CompletedOld(b, o, secType, state, t);
    case BoundMsg(permID, clientID, orderID) => BoundOld(b, permID, clientID, orderID, t);
    case PlaceCall(orderID, clientID, o, secType, sent) => PlaceOld(b, orderID, clientID, o, secType, sent, t);
    case ResetCall =>
  }

  lemma NewTrade(b: Book, m: Msg, t: nat)
    requires WF(b) && |b.heap| <= t < |Step(b, m).heap|
    ensures Step(b, m).heap[t].status == InitialStatus(m)
    ensures Step(b, m).heap[t].log == if m.PlaceCall? then [LogEntry(PENDING_SUBMIT, Plain)] else []
  {
    hide KeyOf, OnStatus, OnExec, OnBound;
    match m
    case StatusMsg(st) => StatusKeepsWF(b, st);
    case OpenOrderMsg(_, _, _, _, _) =>
    case ExecMsg(e, live) => ExecKeepsWF(b, e, live);
    case CommissionMsg(_, _, _) =>
    case CompletedMsg(_, _, _) =>
    case BoundMsg(permID, clientID, orderID) => BoundKeepsWF(b, permID, clientID, orderID);
    case PlaceCall(_, _, _, _, _) =>
    case ResetCall =>
  }

  lemma NewTradeStep(b: Book, m: Msg, t: nat)
    requires WF(b) && |b.heap| <= t < |Step(b, m).heap|
    ensures Refines(Step(b, m).heap[t], [InitialStatus(m)], m.PlaceCall?)
  {
    hide Step, WF, Refines;
    NewTrade(b, m, t);
    FreshRefines(Step(b, m).heap[t], m.PlaceCall?);
  }

  lemma NoChangesYet(x: string)
    ensures Changes([x], true) == [x] && Changes([x], false) == []
  {
    assert Destutter([x], 1) == Destutter([x], 0) + [x];
  }

  lemma FreshRefines(r: TradeRec, placed: bool)
    requires r.log == if placed then [LogEntry(r.status.status, Plain)] else []
    ensures Refines(r, [r.status], placed)
  {
    assert Texts([r.status]) == [r.status.status];
    NoChangesYet(r.status.status);
    if placed {
      assert PlainStatuses(r.log, 1) == PlainStatuses(r.log, 0) + [r.status.status];
    }
  }

  /** The status that a completion event announces. */
  function Announces(e: Emission): string {
    if e.FilledEvent? then "Filled" else "Cancelled"
  }

  predicate Completion(e: Emission, t: nat) {
    e == FilledEvent(t) || e == CancelledEvent(t)
  }

  lemma {:induction false} CountAppend(es: seq<Emission>, fs: seq<Emission>, n: nat, e: Emission)
    requires n <= |fs|
    ensures CountEvents(es + fs, |es| + n, e) == CountEvents(es, |es|, e) + CountEvents(fs, n, e)
  {
    if n > 0 {
      CountAppend(es, fs, n - 1, e);
    } else {
      CountPrefix(es, fs, |es|, e);
    }
  }

  lemma {:induction false} CountPrefix(es: seq<Emission>, fs: seq<Emission>, n: nat, e: Emission)
    requires n <= |es|
    ensures CountEvents(es + fs, n, e) == CountEvents(es, n, e)
  {
    if n > 0 { CountPrefix(es, fs, n - 1, e); }
  }

  lemma CountStatusEvents(u: nat, was: string, now: string, t: nat, e: Emission)
    requires Completion(e, t)
    ensures var es := StatusEvents(u, was, now);
            CountEvents(es, |es|, e) == if u == t && now == Announces(e) && was != now then 1 else 0
  {
    var es := StatusEvents(u, was, now);
    assert es[0] == OrderStatusEvent(u) && es[1] == StatusEvent(u);
    CountShort(es, e);
  }

  /** How many completion events for trade `t` one message adds. */
  lemma CompletionStep(b: Book, m: Msg, t: nat, e: Emission)
    requires WF(b) && Completion(e, t)
    ensures CountEvents(Step(b, m).emitted, |Step(b, m).emitted|, e)
            == CountEvents(b.emitted, |b.emitted|, e)
               + (if Reaches(b, m) == Some(t) && t < |b.heap| && m.status.status == Announces(e) != b.heap[t].status.status
                  then 1 else 0)
  {
    hide Step, WF, Reaches, StatusEvents;
    var all := Step(b, m).emitted;
    StepOnlyEmits(b, m);
    var es := all[|b.emitted|..];
    assert all == b.emitted + es;
    CountAppend(b.emitted, es, |es|, e);
    match Reaches(b, m)
    case Some(u) => CountStatusEvents(u, b.heap[u].status.status, m.status.status, t, e);
    case None => NoneFired(es, |es|, e);
  }

  /** A step appends events, and completion events only for the trade that a status message reaches. */
  lemma StepOnlyEmits(b: Book, m: Msg)
    requires WF(b)
    ensures b.emitted <= Step(b, m).emitted
    ensures Reaches(b, m).Some? ==> m.StatusMsg? && Reaches(b, m).value < |b.heap|
    ensures var es := Step(b, m).emitted[|b.emitted|..];
            match Reaches(b, m)
            case Some(u) => es == StatusEvents(u, b.heap[u].status.status, m.status.status)
            case None => forall i :: 0 <= i < |es| ==> !es[i].FilledEvent? && !es[i].CancelledEvent?
  {
    StepAppends(b, m);
    if Reaches(b, m).Some? {
      StatusEmits(b, m);
    } else {
      hide Step, Reaches;
      var es := Step(b, m).emitted[|b.emitted|..];
      forall i | 0 <= i < |es| ensures !es[i].FilledEvent? && !es[i].CancelledEvent? {
        QuietStep(b, m, |b.emitted| + i);
      }
    }
  }

  lemma StatusEmits(b: Book, m: Msg)
    requires WF(b) && Reaches(b, m).Some?
    ensures m.StatusMsg? && Reaches(b, m).value < |b.heap|
    ensures Step(b, m).emitted
            == b.emitted + StatusEvents(Reaches(b, m).value, b.heap[Reaches(b, m).value].status.status, m.status.status)
  {
    ReachesFound(b, m);
    hide KeyOf, WithStatus, StatusEvents, Reaches;
  }

  lemma StepAppends(b: Book, m: Msg)
    requires WF(b)
    ensures b.emitted <= Step(b, m).emitted
  {
    hide KeyOf, WithStatus, StatusEvents;
    match m
    case StatusMsg(_) =>
    case OpenOrderMsg(_, _, _, _, _) =>
    case ExecMsg(_, _) =>
    case CommissionMsg(_, _, _) =>
    case CompletedMsg(_, _, _) =>
    case BoundMsg(_, _, _) =>
    case PlaceCall(_, _, _, _, _) =>
    case ResetCall =>
  }

  lemma QuietStep(b: Book, m: Msg, i: nat)
    requires WF(b) && Reaches(b, m).None? && |b.emitted| <= i < |Step(b, m).emitted|
    ensures !Step(b, m).emitted[i].FilledEvent? && !Step(b, m).emitted[i].CancelledEvent?
  {
    ReachesFound(b, m);
    hide KeyOf, WithStatus, StatusEvents, Reaches;
    match m
    case StatusMsg(_) =>
    case OpenOrderMsg(_, _, _, _, _) =>
    case ExecMsg(_, _) =>
    case CommissionMsg(_, _, _) =>
    case CompletedMsg(_, _, _) =>
    case BoundMsg(_, _, _) =>
    case PlaceCall(_, _, _, _, _) =>
    case ResetCall =>
  }

  lemma {:induction false} NoneFired(es: seq<Emission>, n: nat, e: Emission)
    requires n <= |es| && (e.FilledEvent? || e.CancelledEvent?)
    requires forall i :: 0 <= i < |es| ==> !es[i].FilledEvent? && !es[i].CancelledEvent?
    ensures CountEvents(es, n, e) == 0
  {
    if n > 0 { NoneFired(es, n - 1, e); }
  }

  lemma CountShort(es: seq<Emission>, e: Emission)
    requires 2 <= |es| <= 3 && es[0] != e && es[1] != e
    ensures CountEvents(es, |es|, e) == if |es| == 3 && es[2] == e then 1 else 0
  {
    assert CountEvents(es, 1, e) == 0;
    assert CountEvents(es, 2, e) == 0;
  }

  // ----- Whole runs -----

  lemma RunKeepsRefines(ms: seq<Msg>, n: nat, t: nat)
    requires n < |ms| && t < |Run(ms, n).heap|
    requires Refines(Run(ms, n).heap[t], Received(ms, n, t), Placed(ms, n, t))
    ensures t < |Run(ms, n + 1).heap|
    ensures Refines(Run(ms, n + 1).heap[t], Received(ms, n + 1, t), Placed(ms, n + 1, t))
  {
    hide KeyOf, Refines;
    var b, b', m := Run(ms, n), Run(ms, n + 1), ms[n];
    assert b' == Step(b, m);
    var message := OldTradeStep(b, m, t);
    if Reaches(b, m) == Some(t) {
      StatusRefines(b.heap[t], b'.heap[t], Received(ms, n, t), Placed(ms, n, t), m.status);
    } else {
      EntryRefines(b.heap[t], Received(ms, n, t), Placed(ms, n, t), b'.heap[t], message);
    }
  }

  lemma CreatedRefines(ms: seq<Msg>, n: nat, t: nat)
    requires 0 < n <= |ms| && t < |Run(ms, n).heap| && Creates(ms, n, t)
    ensures Refines(Run(ms, n).heap[t], Received(ms, n, t), Placed(ms, n, t))
  {
    hide Step, WF, Refines;
    NewTradeStep(Run(ms, n - 1), ms[n - 1], t);
  }

  /**
   Status and log refinement: a trade shows the last status received for it, all of it as
   received, or else the one it started with.  Its plain log entries are the statuses received,
   repeats dropped (after its own PendingSubmit if it was placed here), whatever fills and
   modifications are logged in between; and the last entry always shows the current status.
   */
  lemma {:induction false} LogRefinesStatuses(ms: seq<Msg>, n: nat, t: nat)
    requires n <= |ms| && t < |Run(ms, n).heap|
    ensures Refines(Run(ms, n).heap[t], Received(ms, n, t), Placed(ms, n, t))
  {
    hide Step, WF, Refines, Received, Placed;
    if n > 0 {
      if Creates(ms, n, t) {
        CreatedRefines(ms, n, t);
      } else {
        LogRefinesStatuses(ms, n - 1, t);
        RunKeepsRefines(ms, n - 1, t);
      }
    }
  }

  lemma {:induction false} CountSnoc(s: seq<string>, x: string, n: nat, w: string)
    requires n <= |s|
    ensures CountStatus(s + [x], n, w) == CountStatus(s, n, w)
  {
    if n > 0 { CountSnoc(s, x, n - 1, w); }
  }

  /** As many events `e` have fired as the received statuses changed to the status it announces. */
  ghost predicate FiredPerChange(emitted: seq<Emission>, received: seq<OrderStatus>, e: Emission) {
    && received != []
    && var changes := Changes(Texts(received), false);
       CountEvents(emitted, |emitted|, e) == CountStatus(changes, |changes|, Announces(e))
  }

  /** Before a trade exists no event names it. */
  lemma {:induction false} NoEventsBeforeCreation(ms: seq<Msg>, n: nat, t: nat, e: Emission)
    requires n <= |ms| && |Run(ms, n).heap| <= t && Completion(e, t)
    ensures CountEvents(Run(ms, n).emitted, |Run(ms, n).emitted|, e) == 0
  {
    hide Step, WF, Reaches;
    if n > 0 {
      StepKeepsWF(Run(ms, n - 1), ms[n - 1]);
      NoEventsBeforeCreation(ms, n - 1, t, e);
      CompletionStep(Run(ms, n - 1), ms[n - 1], t, e);
    }
  }

  lemma ReachedFires(b: Book, m: Msg, t: nat, e: Emission, received: seq<OrderStatus>)
    requires WF(b) && t < |b.heap| && Completion(e, t) && FiredPerChange(b.emitted, received, e)
    requires received[|received| - 1] == b.heap[t].status
    ensures FiredPerChange(Step(b, m).emitted,
                           if Reaches(b, m) == Some(t) then received + [m.status] else received, e)
  {
    CompletionStep(b, m, t, e);
    if Reaches(b, m) == Some(t) {
      TextsSnoc(received, m.status);
      OneMoreReceived(Texts(received), m.status.status, e);
    }
  }

  lemma OneMoreReceived(received: seq<string>, status: string, e: Emission)
    requires |received| > 0
    ensures var before, after := Changes(received, false), Changes(received + [status], false);
            CountStatus(after, |after|, Announces(e))
            == CountStatus(before, |before|, Announces(e))
               + if status == Announces(e) != received[|received| - 1] then 1 else 0
  {
    ChangesSnoc(received, status, false);
    CountSnoc(Changes(received, false), status, |Changes(received, false)|, Announces(e));
  }

  lemma CreatedFires(ms: seq<Msg>, n: nat, t: nat, e: Emission)
    requires 0 < n <= |ms| && Completion(e, t) && Creates(ms, n, t)
    ensures FiredPerChange(Run(ms, n).emitted, Received(ms, n, t), e)
  {
    hide Step, WF, StatusEvents;
    NoEventsBeforeCreation(ms, n - 1, t, e);
    CompletionStep(Run(ms, n - 1), ms[n - 1], t, e);
    NoChangesYet(InitialStatus(ms[n - 1]).status);
    assert Texts([InitialStatus(ms[n - 1])]) == [InitialStatus(ms[n - 1]).status];
  }

  lemma OldFires(ms: seq<Msg>, n: nat, t: nat, e: Emission)
    requires 0 < n <= |ms| && Completion(e, t) && t < |Run(ms, n - 1).heap|
    requires FiredPerChange(Run(ms, n - 1).emitted, Received(ms, n - 1, t), e)
    ensures FiredPerChange(Run(ms, n).emitted, Received(ms, n, t), e)
  {
    hide Step, WF, FiredPerChange, Reaches;
    LogRefinesStatuses(ms, n - 1, t);
    ReachedFires(Run(ms, n - 1), ms[n - 1], t, e, Received(ms, n - 1, t));
  }

  /**
   FilledEvent and CancelledEvent fire exactly once for each change of the trade to that status:
   as often as it occurs among the received statuses, repeats dropped, after the first.
   */
  lemma {:induction false} CompletionFiresOncePerChange(ms: seq<Msg>, n: nat, t: nat, e: Emission)
    requires n <= |ms| && t < |Run(ms, n).heap| && Completion(e, t)
    ensures FiredPerChange(Run(ms, n).emitted, Received(ms, n, t), e)
  {
    hide Step, WF, FiredPerChange, Received;
    if n > 0 {
      if Creates(ms, n, t) {
        CreatedFires(ms, n, t, e);
      } else {
        CompletionFiresOncePerChange(ms, n - 1, t, e);
        OldFires(ms, n, t, e);
      }
    }
  }
}
