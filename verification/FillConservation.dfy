/**
 Fill conservation over every run: each execution is recorded once, belongs to at most one
 trade, and the filled quantity of a trade is the sum of what was routed to it.
 */
module FillConservation {
  import opened Wrappers
  import opened OrderBook

  // ----- What a run delivered, told from its messages -----

  /** The first execution with this ID since the last reset, as its message brought it. */
  function FirstSeen(ms: seq<Msg>, n: nat, id: string): Option<Execution>
    requires n <= |ms|
  {
    if n == 0 || ms[n - 1].ResetCall? then None
    else if FirstSeen(ms, n - 1, id).Some? then FirstSeen(ms, n - 1, id)
    else if ms[n - 1].ExecMsg? && ms[n - 1].exec.execID == id then Some(ms[n - 1].exec)
    else None
  }

  predicate IsFirst(ms: seq<Msg>, i: nat)
    requires i < |ms|
  {
    ms[i].ExecMsg? && FirstSeen(ms, i, ms[i].exec.execID).None?
  }

  /** The trade an execution belongs to: by its permID, else by its API key, or by (0, permID) when it has no order ID. */
  function Destination(b: Book, raw: Execution): Option<nat> {
    var hasOrderID := 0 < raw.orderID && raw.orderID != 0x7fff_ffff;
    var key := if hasOrderID then OrderKey(raw.clientID, raw.orderID) else OrderKey(0, raw.permID);
    if raw.permID in b.permID2Trade then Some(b.permID2Trade[raw.permID])
    else if key in b.trades then Some(b.trades[key])
    else None
  }

  /** What is recorded of an execution: all of it, but for an order ID of 2^31-1, which becomes 0. */
  predicate RecordedAs(recorded: Execution, raw: Execution) {
    recorded == if raw.orderID == 0x7fff_ffff then raw.(orderID := 0) else raw
  }

  /** A first arrival as its message brought it, and the trade it belonged to at that moment. */
  datatype Arrival = Arrival(exec: Execution, dest: Option<nat>)

  function ArrivalAt(ms: seq<Msg>, i: nat): Arrival
    requires i < |ms| && ms[i].ExecMsg?
  {
    Arrival(ms[i].exec, Destination(Run(ms, i), ms[i].exec))
  }

  /** The handler normalizes the execution, makes a key of it and looks up that; it comes to the same. */
  lemma DestinationFound(b: Book, raw: Execution)
    ensures RecordedAs(Normalized(raw), raw)
    ensures ExecLookup(b, ExecKey(Normalized(raw)), Normalized(raw).permID) == Destination(b, raw)
  {
  }

  function Arrivals(ms: seq<Msg>, n: nat): seq<Arrival>
    requires n <= |ms|
  {
    if n == 0 then []
    else if IsFirst(ms, n - 1) then Arrivals(ms, n - 1) + [ArrivalAt(ms, n - 1)]
    else Arrivals(ms, n - 1)
  }

  /** Which of the first `n` arrivals went to trade `t`, in order. */
  function RoutedTo(a: seq<Arrival>, n: nat, t: nat): seq<nat>
    requires n <= |a|
  {
    if n == 0 then []
    else RoutedTo(a, n - 1, t) + (if a[n - 1].dest == Some(t) then [n - 1] else [])
  }

  /** Shares that the first `n` arrivals brought to trade `t`; a BAG trade counts only BAG fills. */
  function SharesTo(a: seq<Arrival>, n: nat, t: nat, secType: string): real
    requires n <= |a|
  {
    if n == 0 then 0.0
    else SharesTo(a, n - 1, t, secType) + 
         (if a[n - 1].dest == Some(t) && (secType == "BAG" ==> a[n - 1].exec.secType == "BAG") then a[n - 1].exec.shares
          else 0.0)
  }

  // ----- The correspondence -----

  /** The recorded fills are the arrivals and each trade lists those routed to it. */
  ghost predicate Matches(b: Book, a: seq<Arrival>) {
    && |b.fillHeap| == |a|
    && (forall k :: 0 <= k < |a| ==> RecordedAs(b.fillHeap[k].exec, a[k].exec))
    && (forall k :: 0 <= k < |a| && a[k].dest.Some? ==> a[k].dest.value < |b.heap|)
    && (forall t :: 0 <= t < |b.heap| ==> b.heap[t].fills == RoutedTo(a, |a|, t))
  }

  ghost predicate RecordsFirst(b: Book, ms: seq<Msg>, n: nat)
    requires WF(b) && n <= |ms|
  {
    && (forall x :: x in b.fills <==> FirstSeen(ms, n, x).Some?)
    && (forall x :: x in b.fills && FirstSeen(ms, n, x).Some? ==>
                      RecordedAs(b.fillHeap[b.fills[x]].exec, FirstSeen(ms, n, x).value))
  }

  /** Every message but an execution leaves the recorded fills and the fill lists alone. */
  lemma OnlyExecAddsFills(b: Book, m: Msg)
    requires WF(b) && !m.ExecMsg?
    ensures |Step(b, m).fillHeap| == |b.fillHeap|
    ensures forall k :: 0 <= k < |b.fillHeap| ==> Step(b, m).fillHeap[k].exec == b.fillHeap[k].exec
    ensures Step(b, m).fills == if m.ResetCall? then map[] else b.fills
    ensures |b.heap| <= |Step(b, m).heap|
    ensures forall t :: 0 <= t < |Step(b, m).heap| ==>
                          Step(b, m).heap[t].fills == if t < |b.heap| then b.heap[t].fills else []
  {
    FillsStay(b, m);
    StepKeepsWF(b, m);
    hide Step, WF;
    forall t | 0 <= t < |Step(b, m).heap|
      ensures Step(b, m).heap[t].fills == if t < |b.heap| then b.heap[t].fills else []
    {
      ListStays(b, m, t);
    }
  }

  lemma FillsStay(b: Book, m: Msg)
    requires WF(b) && !m.ExecMsg?
    ensures |Step(b, m).fillHeap| == |b.fillHeap|
    ensures forall k :: 0 <= k < |b.fillHeap| ==> Step(b, m).fillHeap[k].exec == b.fillHeap[k].exec
    ensures Step(b, m).fills == if m.ResetCall? then map[] else b.fills
  {
    hide KeyOf, WithStatus, StatusEvents;
    match m
    case StatusMsg(_) =>
    case OpenOrderMsg(_, _, _, _, _) =>
    case CommissionMsg(_, _, _) =>
    case CompletedMsg(_, _, _) =>
    case BoundMsg(_, _, _) =>
    case PlaceCall(_, _, _, _, _) =>
    case ResetCall =>
  }

  lemma ListStays(b: Book, m: Msg, t: nat)
    requires WF(b) && !m.ExecMsg? && t < |Step(b, m).heap|
    ensures Step(b, m).heap[t].fills == if t < |b.heap| then b.heap[t].fills else []
  {
    hide OnStatus, OnOpenOrder, OnCompleted, OnBound, OnPlace;
    if t >= |b.heap| {
      NewList(b, m, t);
      return;
    }
    match m
    case StatusMsg(st) => StatusOld(b, st, t);
    case OpenOrderMsg(orderID, clientID, o, secType, state) => OpenOrderOld(b, orderID, clientID, o, secType, state, t);
    case CommissionMsg(_, _, _) =>
    case CompletedMsg(o, secType, state) => CompletedOld(b, o, secType, state, t);
    case BoundMsg(permID, clientID, orderID) => BoundOld(b, permID, clientID, orderID, t);
    case PlaceCall(orderID, clientID, o, secType, sent) => PlaceOld(b, orderID, clientID, o, secType, sent, t);
    case ResetCall =>
  }

  lemma NewList(b: Book, m: Msg, t: nat)
    requires WF(b) && |b.heap| <= t < |Step(b, m).heap|
    ensures Step(b, m).heap[t].fills == []
  {
    hide KeyOf, WithStatus, StatusEvents;
    StepKeepsWF(b, m);
    match m
    case StatusMsg(_) =>
    case OpenOrderMsg(_, _, _, _, _) =>
    case ExecMsg(_, _) =>
    case CommissionMsg(_, _, _) =>
    case CompletedMsg(_, _, _) =>
    case BoundMsg(_, _, _) =>
    case PlaceCall(_, _, _, _, _) =>
    case ResetCall =>
  }

  lemma {:induction false} RoutedPrefix(a: seq<Arrival>, x: Arrival, n: nat, t: nat)
    requires n <= |a|
    ensures RoutedTo(a + [x], n, t) == RoutedTo(a, n, t)
  {
    if n > 0 { RoutedPrefix(a, x, n - 1, t); }
  }

  lemma RoutedSnoc(a: seq<Arrival>, x: Arrival, t: nat)
    ensures RoutedTo(a + [x], |a| + 1, t) == RoutedTo(a, |a|, t) + (if x.dest == Some(t) then [|a|] else [])
  {
    RoutedPrefix(a, x, |a|, t);
  }

  lemma {:induction false} NothingRouted(a: seq<Arrival>, n: nat, t: nat)
    requires n <= |a| && forall k :: 0 <= k < n ==> a[k].dest != Some(t)
    ensures RoutedTo(a, n, t) == []
  {
    if n > 0 { NothingRouted(a, n - 1, t); }
  }

  lemma QuietStepMatches(ms: seq<Msg>, n: nat)
    requires n < |ms| && !ms[n].ExecMsg? && Matches(Run(ms, n), Arrivals(ms, n))
    ensures Matches(Run(ms, n + 1), Arrivals(ms, n + 1))
  {
    var b, b', a := Run(ms, n), Run(ms, n + 1), Arrivals(ms, n);
    OnlyExecAddsFills(b, ms[n]);
    forall t | 0 <= t < |b'.heap| ensures b'.heap[t].fills == RoutedTo(a, |a|, t) {
      if t >= |b.heap| { NothingRouted(a, |a|, t); }
    }
  }

  lemma RecordedMatches(b: Book, fill: FillRec, raw: Execution, dest: Option<nat>, a: seq<Arrival>)
    requires WF(b) && (dest.Some? ==> dest.value < |b.heap|) && Matches(b, a) && RecordedAs(fill.exec, raw)
    ensures Matches(Recorded(b, fill, dest), a + [Arrival(raw, dest)])
  {
    hide RecordedAs;
    var b', a' := Recorded(b, fill, dest), a + [Arrival(raw, dest)];
    forall t | 0 <= t < |b'.heap| ensures b'.heap[t].fills == RoutedTo(a', |a'|, t) {
      RoutedSnoc(a, Arrival(raw, dest), t);
    }
  }

  /** Each execution ID is on record exactly when it was seen since the last reset, and the first arrival wins. */
  lemma {:induction false} FirstArrivalWins(ms: seq<Msg>, n: nat)
    requires n <= |ms|
    ensures RecordsFirst(Run(ms, n), ms, n)
  {
    hide Step, WF;
    if n > 0 {
      FirstArrivalWins(ms, n - 1);
      if ms[n - 1].ExecMsg? {
        ExecRecordsFirst(ms, n - 1);
      } else {
        QuietRecordsFirst(ms, n - 1);
      }
    }
  }

  lemma QuietRecordsFirst(ms: seq<Msg>, n: nat)
    requires n < |ms| && !ms[n].ExecMsg? && RecordsFirst(Run(ms, n), ms, n)
    ensures RecordsFirst(Run(ms, n + 1), ms, n + 1)
  {
    var b, b' := Run(ms, n), Run(ms, n + 1);
    OnlyExecAddsFills(b, ms[n]);
    forall x ensures x in b'.fills <==> FirstSeen(ms, n + 1, x).Some? {
      assert x in b.fills <==> FirstSeen(ms, n, x).Some?;
    }
    forall x | x in b'.fills ensures RecordedAs(b'.fillHeap[b'.fills[x]].exec, FirstSeen(ms, n + 1, x).value) {
      assert RecordedAs(b.fillHeap[b.fills[x]].exec, FirstSeen(ms, n, x).value);
    }
  }

  lemma ExecRecordsFirst(ms: seq<Msg>, n: nat)
    requires n < |ms| && ms[n].ExecMsg? && RecordsFirst(Run(ms, n), ms, n)
    ensures RecordsFirst(Run(ms, n + 1), ms, n + 1)
  {
    var b, b', e := Run(ms, n), Run(ms, n + 1), Normalized(ms[n].exec);
    RecordedFills(b, ms[n].exec, ms[n].live);
    DestinationFound(b, ms[n].exec);
    hide OnExec, RecordedAs, Normalized;
    forall x ensures x in b'.fills <==> FirstSeen(ms, n + 1, x).Some? {
      assert x in b.fills <==> FirstSeen(ms, n, x).Some?;
    }
    forall x | x in b'.fills ensures RecordedAs(b'.fillHeap[b'.fills[x]].exec, FirstSeen(ms, n + 1, x).value) {
      assert x in b.fills ==> RecordedAs(b.fillHeap[b.fills[x]].exec, FirstSeen(ms, n, x).value);
      assert x in b.fills <==> FirstSeen(ms, n, x).Some?;
    }
  }

  lemma FreshIffFirst(ms: seq<Msg>, n: nat)
    requires n < |ms| && ms[n].ExecMsg?
    ensures IsFirst(ms, n) <==> ms[n].exec.execID !in Run(ms, n).fills
  {
    FirstArrivalWins(ms, n);
  }

  lemma ExecStepMatches(ms: seq<Msg>, n: nat)
    requires n < |ms| && ms[n].ExecMsg? && Matches(Run(ms, n), Arrivals(ms, n))
    ensures Matches(Run(ms, n + 1), Arrivals(ms, n + 1))
  {
    var b, e := Run(ms, n), Normalized(ms[n].exec);
    FreshIffFirst(ms, n);
    DestinationFound(b, ms[n].exec);
    if IsFirst(ms, n) {
      RecordedMatches(b, FillRec(e, NO_COMMISSION), ms[n].exec, Destination(b, ms[n].exec), Arrivals(ms, n));
    }
  }

  /** The invariant of every run. */
  lemma {:induction false} EveryRunMatches(ms: seq<Msg>, n: nat)
    requires n <= |ms|
    ensures Matches(Run(ms, n), Arrivals(ms, n))
  {
    hide *;
    if n == 0 {
      NothingMatches(ms);
    } else {
      EveryRunMatches(ms, n - 1);
      if ms[n - 1].ExecMsg? {
        ExecStepMatches(ms, n - 1);
      } else {
        QuietStepMatches(ms, n - 1);
      }
    }
  }

  lemma NothingMatches(ms: seq<Msg>)
    ensures Matches(Run(ms, 0), Arrivals(ms, 0))
  {
  }

  // ----- What follows for the trades -----

  lemma {:induction false} RoutedHas(a: seq<Arrival>, n: nat, t: nat)
    requires n <= |a|
    ensures forall k: nat :: k in RoutedTo(a, n, t) <==> k < n && a[k].dest == Some(t)
    ensures forall i, j :: 0 <= i < j < |RoutedTo(a, n, t)| ==> RoutedTo(a, n, t)[i] < RoutedTo(a, n, t)[j]
  {
    if n > 0 {
      RoutedHas(a, n - 1, t);
      var r := RoutedTo(a, n - 1, t);
      assert forall i :: 0 <= i < |r| ==> r[i] in r;
    }
  }

  /**
   Partition: a recorded fill is listed by the trade it was routed to, once, and by no other;
   one that was routed nowhere is listed nowhere.
   */
  lemma FillsArePartitioned(ms: seq<Msg>, n: nat, k: nat, t: nat)
    requires n <= |ms| && k < |Run(ms, n).fillHeap| && t < |Run(ms, n).heap|
    ensures |Run(ms, n).fillHeap| == |Arrivals(ms, n)|
    ensures k in Run(ms, n).heap[t].fills <==> Arrivals(ms, n)[k].dest == Some(t)
    ensures forall u :: 0 <= u < |Run(ms, n).heap| && k in Run(ms, n).heap[t].fills && k in Run(ms, n).heap[u].fills
              ==> u == t
    ensures var fs := Run(ms, n).heap[t].fills; forall i, j :: 0 <= i < j < |fs| ==> fs[i] != fs[j]
  {
    var b, a := Run(ms, n), Arrivals(ms, n);
    EveryRunMatches(ms, n);
    RoutedHas(a, |a|, t);
    forall u | 0 <= u < |b.heap| && k in b.heap[t].fills && k in b.heap[u].fills ensures u == t {
      RoutedHas(a, |a|, u);
    }
  }

  lemma {:induction false} ArrivalsGrow(ms: seq<Msg>, i: nat, n: nat)
    requires i < n <= |ms| && IsFirst(ms, i)
    ensures |Arrivals(ms, i)| < |Arrivals(ms, n)| && Arrivals(ms, n)[|Arrivals(ms, i)|] == ArrivalAt(ms, i)
    decreases n
  {
    hide ArrivalAt, IsFirst;
    if i < n - 1 {
      ArrivalsGrow(ms, i, n - 1);
    }
  }

  /**
   Where an execution goes, told from its message: at its first arrival it is recorded as it is
   (but for an order ID of 2^31-1, which becomes 0), and from then on exactly one trade lists it:
   the one then indexed under its permID; without one, the one stored under its API key when it
   has an order ID, and under (0, permID) when it has none.  Without that either, no trade does.
   */
  lemma FirstArrivalIsListed(ms: seq<Msg>, i: nat, n: nat, t: nat)
    requires i < n <= |ms| && IsFirst(ms, i) && t < |Run(ms, n).heap|
    ensures var raw, at, now, f := ms[i].exec, Run(ms, i), Run(ms, n), |Run(ms, i).fillHeap|;
            && f < |now.fillHeap|
            && now.fillHeap[f].exec == (if raw.orderID == 0x7fff_ffff then raw.(orderID := 0) else raw)
            && (raw.permID in at.permID2Trade ==>
                  (f in now.heap[t].fills <==> t == at.permID2Trade[raw.permID]))
            && (raw.permID !in at.permID2Trade && 0 < raw.orderID && raw.orderID != 0x7fff_ffff ==>
                  var key := OrderKey(raw.clientID, raw.orderID);
                  (f in now.heap[t].fills <==> key in at.trades && t == at.trades[key]))
            && (raw.permID !in at.permID2Trade && (raw.orderID <= 0 || raw.orderID == 0x7fff_ffff) ==>
                  var key := OrderKey(0, raw.permID);
                  (f in now.heap[t].fills <==> key in at.trades && t == at.trades[key]))
  {
    var f := |Run(ms, i).fillHeap|;
    EveryRunMatches(ms, i);
    EveryRunMatches(ms, n);
    ArrivalsGrow(ms, i, n);
    FillsArePartitioned(ms, n, f, t);
    hide Run, Arrivals, IsFirst;
  }

  lemma {:induction false} SumOverRouted(a: seq<Arrival>, m: nat, r: TradeRec, t: nat, fillHeap: seq<FillRec>)
    requires m <= |a| == |fillHeap|
    requires forall k :: 0 <= k < |a| ==> RecordedAs(fillHeap[k].exec, a[k].exec)
    requires forall i :: 0 <= i < |r.fills| ==> r.fills[i] < |fillHeap|
    requires RoutedTo(a, m, t) <= r.fills
    ensures FilledUpTo(r, fillHeap, |RoutedTo(a, m, t)|) == SharesTo(a, m, t, r.secType)
  {
    if m > 0 {
      var before := RoutedTo(a, m - 1, t);
      assert before <= RoutedTo(a, m, t);
      SumOverRouted(a, m - 1, r, t, fillHeap);
      if a[m - 1].dest == Some(t) {
        assert RoutedTo(a, m, t)[|before|] == m - 1;
        assert r.fills[|before|] == m - 1;
      }
    }
  }

  /** Conservation per trade: the filled quantity is the sum over the first arrivals routed to the trade. */
  lemma FilledQtyIsWhatArrived(ms: seq<Msg>, n: nat, t: nat)
    requires n <= |ms| && t < |Run(ms, n).heap|
    ensures FilledQty(Run(ms, n), t) == SharesTo(Arrivals(ms, n), |Arrivals(ms, n)|, t, Run(ms, n).heap[t].secType)
  {
    var b, a := Run(ms, n), Arrivals(ms, n);
    EveryRunMatches(ms, n);
    SumOverRouted(a, |a|, b.heap[t], t, b.fillHeap);
  }

  // ----- The Fills map -----

  /** How many fills had been recorded at the last reset; 0 when there was none. */
  function AtReset(ms: seq<Msg>, n: nat): nat
    requires n <= |ms|
  {
    if n == 0 then 0 else if ms[n - 1].ResetCall? then |Run(ms, n - 1).fillHeap| else AtReset(ms, n - 1)
  }

  lemma {:induction false} AtResetWithout(ms: seq<Msg>, n: nat)
    requires n <= |ms| && forall i :: 0 <= i < n ==> !ms[i].ResetCall?
    ensures AtReset(ms, n) == 0
  {
    if n > 0 { AtResetWithout(ms, n - 1); }
  }

  /** The map leads each execution ID to the fill with that ID, and to every fill from `from` on. */
  ghost predicate Enumerates(b: Book, from: nat) {
    && (forall x :: x in b.fills ==> from <= b.fills[x] < |b.fillHeap| && b.fillHeap[b.fills[x]].exec.execID == x)
    && (forall k :: from <= k < |b.fillHeap| ==>
                      b.fillHeap[k].exec.execID in b.fills && b.fills[b.fillHeap[k].exec.execID] == k)
  }

  lemma QuietEnumerates(b: Book, m: Msg, from: nat)
    requires WF(b) && Enumerates(b, from) && !m.ExecMsg?
    ensures Enumerates(Step(b, m), if m.ResetCall? then |b.fillHeap| else from)
  {
    hide Step, WF;
    OnlyExecAddsFills(b, m);
  }

  lemma ExecEnumerates(b: Book, e: Execution, live: bool, from: nat)
    requires WF(b) && Enumerates(b, from) && from <= |b.fillHeap|
    ensures Enumerates(OnExec(b, e, live), from)
  {
    RecordedFills(b, e, live);
    hide OnExec, WF;
  }

  /** What an execution does to the fills and their map. */
  lemma RecordedFills(b: Book, raw: Execution, live: bool)
    requires WF(b)
    ensures var e := Normalized(raw);
            && OnExec(b, raw, live).fills == (if e.execID in b.fills then b.fills else b.fills[e.execID := |b.fillHeap|])
            && OnExec(b, raw, live).fillHeap
               == (if e.execID in b.fills then b.fillHeap else b.fillHeap + [FillRec(e, NO_COMMISSION)])
  {
    hide WF;
  }

  lemma StepEnumerates(b: Book, m: Msg, from: nat)
    requires WF(b) && Enumerates(b, from) && from <= |b.fillHeap|
    ensures Enumerates(Step(b, m), if m.ResetCall? then |b.fillHeap| else from)
    ensures |b.fillHeap| <= |Step(b, m).fillHeap|
  {
    if m.ExecMsg? {
      ExecEnumerates(b, m.exec, m.live, from);
    } else {
      OnlyExecAddsFills(b, m);
      QuietEnumerates(b, m, from);
    }
  }

  /**
   Over every run the `Fills` map holds each fill recorded since the last reset (each fill ever,
   if there was none) exactly once: under its execution ID, and under no other.
   */
  lemma {:induction false} FillsMapEnumerates(ms: seq<Msg>, n: nat)
    requires n <= |ms|
    ensures AtReset(ms, n) <= |Run(ms, n).fillHeap| && Enumerates(Run(ms, n), AtReset(ms, n))
  {
    hide Step;
    if n > 0 {
      FillsMapEnumerates(ms, n - 1);
      StepEnumerates(Run(ms, n - 1), ms[n - 1], AtReset(ms, n - 1));
    }
  }

  /** So the trade lists partition the map: an entry's fill is listed by the one trade it was routed to, or by none. */
  lemma FillsMapIsPartitioned(ms: seq<Msg>, n: nat, x: string, t: nat)
    requires n <= |ms| && x in Run(ms, n).fills && t < |Run(ms, n).heap|
    ensures var b := Run(ms, n);
            && b.fills[x] < |Arrivals(ms, n)| && Arrivals(ms, n)[b.fills[x]].exec.execID == x
            && (b.fills[x] in b.heap[t].fills <==> Arrivals(ms, n)[b.fills[x]].dest == Some(t))
  {
    EveryRunMatches(ms, n);
    FillsMapEnumerates(ms, n);
    FillsArePartitioned(ms, n, Run(ms, n).fills[x], t);
  }

  // ----- Conservation over all trades together -----

  function Shares(a: seq<Arrival>, n: nat): real
    requires n <= |a|
  {
    if n == 0 then 0.0 else Shares(a, n - 1) + a[n - 1].exec.shares
  }

  function SharesNowhere(a: seq<Arrival>, n: nat): real
    requires n <= |a|
  {
    if n == 0 then 0.0
    else SharesNowhere(a, n - 1) + (if a[n - 1].dest.None? then a[n - 1].exec.shares else 0.0)
  }

  /** Shares of the first `n` fills of a list, whatever the security type. */
  function SharesIn(fills: seq<nat>, fillHeap: seq<FillRec>, n: nat): real
    requires n <= |fills| && forall i :: 0 <= i < |fills| ==> fills[i] < |fillHeap|
  {
    if n == 0 then 0.0 else SharesIn(fills, fillHeap, n - 1) + fillHeap[fills[n - 1]].exec.shares
  }

  /** Shares listed by the first `m` trades. */
  function SharesListed(b: Book, m: nat): real
    requires WF(b) && m <= |b.heap|
  {
    if m == 0 then 0.0
    else SharesListed(b, m - 1) + SharesIn(b.heap[m - 1].fills, b.fillHeap, |b.heap[m - 1].fills|)
  }

  /** Shares that the first `n` arrivals brought to trade `t`, whatever the security type. */
  function Brought(a: seq<Arrival>, n: nat, t: nat): real
    requires n <= |a|
  {
    if n == 0 then 0.0 else Brought(a, n - 1, t) + if a[n - 1].dest == Some(t) then a[n - 1].exec.shares else 0.0
  }

  function BroughtToFirst(a: seq<Arrival>, n: nat, m: nat): real
    requires n <= |a|
  {
    if m == 0 then 0.0 else BroughtToFirst(a, n, m - 1) + Brought(a, n, m - 1)
  }

  lemma {:induction false} BroughtStep(a: seq<Arrival>, n: nat, m: nat)
    requires n < |a|
    ensures BroughtToFirst(a, n + 1, m) == BroughtToFirst(a, n, m)
              + if a[n].dest.Some? && a[n].dest.value < m then a[n].exec.shares else 0.0
  {
    if m > 0 { BroughtStep(a, n, m - 1); }
  }

  lemma {:induction false} NothingBrought(a: seq<Arrival>, m: nat)
    ensures BroughtToFirst(a, 0, m) == 0.0
  {
    if m > 0 { NothingBrought(a, m - 1); }
  }

  lemma {:induction false} SharesSplit(a: seq<Arrival>, n: nat, m: nat)
    requires n <= |a| && forall k :: 0 <= k < n && a[k].dest.Some? ==> a[k].dest.value < m
    ensures Shares(a, n) == BroughtToFirst(a, n, m) + SharesNowhere(a, n)
  {
    if n == 0 {
      NothingBrought(a, m);
    } else {
      SharesSplit(a, n - 1, m);
      BroughtStep(a, n - 1, m);
    }
  }

  lemma {:induction false} SharesInRouted(a: seq<Arrival>, m: nat, fills: seq<nat>, t: nat, fillHeap: seq<FillRec>)
    requires m <= |a| == |fillHeap|
    requires forall k :: 0 <= k < |a| ==> RecordedAs(fillHeap[k].exec, a[k].exec)
    requires forall i :: 0 <= i < |fills| ==> fills[i] < |fillHeap|
    requires RoutedTo(a, m, t) <= fills
    ensures SharesIn(fills, fillHeap, |RoutedTo(a, m, t)|) == Brought(a, m, t)
  {
    if m > 0 {
      var before := RoutedTo(a, m - 1, t);
      assert before <= RoutedTo(a, m, t);
      SharesInRouted(a, m - 1, fills, t, fillHeap);
      if a[m - 1].dest == Some(t) {
        assert RoutedTo(a, m, t)[|before|] == m - 1;
        assert fills[|before|] == m - 1;
      }
    }
  }

  lemma {:induction false} ListedIsRouted(b: Book, a: seq<Arrival>, m: nat)
    requires WF(b) && Matches(b, a) && m <= |b.heap|
    ensures SharesListed(b, m) == BroughtToFirst(a, |a|, m)
  {
    if m > 0 {
      ListedIsRouted(b, a, m - 1);
      SharesInRouted(a, |a|, b.heap[m - 1].fills, m - 1, b.fillHeap);
    }
  }

  /** Global conservation: all shares that ever arrived are listed by some trade or were routed nowhere. */
  lemma SharesAreConserved(ms: seq<Msg>, n: nat)
    requires n <= |ms|
    ensures var a := Arrivals(ms, n);
            Shares(a, |a|) == SharesListed(Run(ms, n), |Run(ms, n).heap|) + SharesNowhere(a, |a|)
  {
    var b, a := Run(ms, n), Arrivals(ms, n);
    EveryRunMatches(ms, n);
    ListedIsRouted(b, a, |b.heap|);
    SharesSplit(a, |a|, |b.heap|);
  }

  // ----- Replays and commissions -----

  /** A replayed execution changes nothing but the events it fires. */
  lemma ReplayChangesNothing(b: Book, e: Execution, live: bool)
    requires WF(b) && e.execID in b.fills
    ensures Step(b, ExecMsg(e, live)) == b.(emitted := Step(b, ExecMsg(e, live)).emitted)
  {
  }

  /** A commission report reaches the recorded fill of its execution and no quantity, log or index. */
  lemma CommissionChangesNoQuantity(b: Book, m: Msg, t: nat)
    requires WF(b) && m.CommissionMsg? && t < |b.heap|
    ensures var b' := Step(b, m);
            && WF(b') && b'.heap == b.heap && b'.trades == b.trades && b'.permID2Trade == b.permID2Trade
            && b'.fills == b.fills && FilledQty(b', t) == FilledQty(b, t)
            && (forall k :: 0 <= k < |b.fillHeap| && (m.report.execID !in b.fills || k != b.fills[m.report.execID])
                  ==> b'.fillHeap[k] == b.fillHeap[k])
            && (m.report.execID in b.fills ==>
                  b'.fillHeap[b.fills[m.report.execID]].commission.commission == m.report.commission)
  {
    StepKeepsWF(b, m);
    SameExecsSameSum(b.heap[t], b.fillHeap, Step(b, m).fillHeap, |b.heap[t].fills|);
  }

  lemma {:induction false} SameExecsSameSum(r: TradeRec, f: seq<FillRec>, g: seq<FillRec>, n: nat)
    requires n <= |r.fills| && |f| == |g|
    requires forall i :: 0 <= i < |r.fills| ==> r.fills[i] < |f|
    requires forall k :: 0 <= k < |f| ==> f[k].exec == g[k].exec
    ensures FilledUpTo(r, f, n) == FilledUpTo(r, g, n)
  {
    if n > 0 { SameExecsSameSum(r, f, g, n - 1); }
  }
}
