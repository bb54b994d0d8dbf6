/**
 The two indexes over trades: by order key and by permID.  `handleOrderStatus` asks the
 first one first, `handleExecDetails` the second.  When do they find different trades?

 The server names an order by its permID and, in openOrder and orderBound messages, by its key.
 A completedOrder message carries no order ID, so a completion of an order that is not indexed
 yet is stored under (0, permID), whatever the key of the order is.
 */
module IndexAgreement {
  import opened Wrappers
  import opened OrderBook

  /** If the message names the order with permID `p` by a key, it is `k`: one without a positive ID goes by its permID. */
  predicate Names(m: Msg, p: int, k: OrderKey) {
    match m
    case OpenOrderMsg(orderID, clientID, o, _, _) =>
      o.permID == p != 0 ==> k == if orderID > 0 then OrderKey(clientID, orderID) else OrderKey(0, p)
    case BoundMsg(permID, clientID, orderID) => permID == p != 0 && orderID != 0 ==> OrderKey(clientID, orderID) == k
    case _ => true
  }

  /** Do the first `n` messages name the order with permID `p` by the one key `k`? */
  predicate NamedBy(ms: seq<Msg>, n: nat, p: int, k: OrderKey)
    requires n <= |ms|
  {
    n == 0 || (NamedBy(ms, n - 1, p, k) && Names(ms[n - 1], p, k))
  }

  /** Does the message index the order with permID `p` under the trade at its key? */
  predicate Attaches(b: Book, m: Msg, p: int, k: OrderKey) {
    match m
    case OpenOrderMsg(_, _, o, _, _) => o.permID == p != 0
    case BoundMsg(permID, _, orderID) => permID == p != 0 && orderID != 0 && k in b.trades
    case _ => false
  }

  /** Does the message store and index a completed order with permID `q`, one not indexed before? */
  predicate Completes(b: Book, m: Msg, q: int) {
    m.CompletedMsg? && m.order.permID == q != 0 && q !in b.permID2Trade
  }

  /**
   After the message, is the trade indexed under `p` another than the one at key `k`, now or as
   soon as there is one?  It is when the order was completed before it was indexed and `k` is not
   where the completion is stored, or when the completion of another order was stored over `k`.
   */
  predicate DetachedAfter(b: Book, m: Msg, p: int, k: OrderKey, before: bool) {
    if Completes(b, m, p) then k != OrderKey(0, p)
    else if m.CompletedMsg? && Completes(b, m, m.order.permID) && OrderKey(0, m.order.permID) == k
    then p in b.permID2Trade
    else before && !Attaches(b, m, p, k) && !m.ResetCall?
  }

  predicate Detached(ms: seq<Msg>, n: nat, p: int, k: OrderKey)
    requires n <= |ms|
  {
    n > 0 && DetachedAfter(Run(ms, n - 1), ms[n - 1], p, k, Detached(ms, n - 1, p, k))
  }

  // ----- The invariant -----

  /** What being detached, or not, says of the two indexes. */
  predicate Told(b: Book, p: int, k: OrderKey, detached: bool) {
    if detached then p in b.permID2Trade && (k in b.trades ==> b.trades[k] != b.permID2Trade[p])
    else p in b.permID2Trade ==> k in b.trades && b.trades[k] == b.permID2Trade[p]
  }

  lemma OpenOrderTold(b: Book, m: Msg, p: int, k: OrderKey, d: bool)
    requires WF(b) && Told(b, p, k, d) && m.OpenOrderMsg? && Names(m, p, k)
    ensures Told(Step(b, m), p, k, DetachedAfter(b, m, p, k, d))
  {
  }

  lemma CompletedTold(b: Book, m: Msg, p: int, k: OrderKey, d: bool)
    requires WF(b) && Told(b, p, k, d) && m.CompletedMsg?
    ensures Told(Step(b, m), p, k, DetachedAfter(b, m, p, k, d))
  {
  }

  lemma BoundTold(b: Book, m: Msg, p: int, k: OrderKey, d: bool)
    requires WF(b) && Told(b, p, k, d) && m.BoundMsg? && Names(m, p, k)
    ensures Told(Step(b, m), p, k, DetachedAfter(b, m, p, k, d))
  {
  }

  lemma PlaceTold(b: Book, m: Msg, p: int, k: OrderKey, d: bool)
    requires WF(b) && Told(b, p, k, d) && m.PlaceCall?
    ensures Told(Step(b, m), p, k, DetachedAfter(b, m, p, k, d))
  {
  }

  /** Status messages, executions and commission reports touch neither index. */
  lemma IndexesUntouched(b: Book, m: Msg)
    requires WF(b) && (m.StatusMsg? || m.ExecMsg? || m.CommissionMsg?)
    ensures Step(b, m).trades == b.trades && Step(b, m).permID2Trade == b.permID2Trade
  {
  }

  lemma StepTold(b: Book, m: Msg, p: int, k: OrderKey, d: bool)
    requires WF(b) && Told(b, p, k, d) && Names(m, p, k)
    ensures Told(Step(b, m), p, k, DetachedAfter(b, m, p, k, d))
  {
    match m
    case OpenOrderMsg(_, _, _, _, _) => OpenOrderTold(b, m, p, k, d);
    case CompletedMsg(_, _, _) => CompletedTold(b, m, p, k, d);
    case BoundMsg(_, _, _) => BoundTold(b, m, p, k, d);
    case PlaceCall(_, _, _, _, _) => PlaceTold(b, m, p, k, d);
    case ResetCall =>
    case _ => IndexesUntouched(b, m);
  }

  lemma {:induction false} EveryRunTold(ms: seq<Msg>, n: nat, p: int, k: OrderKey)
    requires n <= |ms| && NamedBy(ms, n, p, k)
    ensures Told(Run(ms, n), p, k, Detached(ms, n, p, k))
  {
    if n > 0 {
      EveryRunTold(ms, n - 1, p, k);
      StepTold(Run(ms, n - 1), ms[n - 1], p, k, Detached(ms, n - 1, p, k));
    }
  }

  // ----- When the lookups part -----

  /** Do the two lookups of an order with permID `p` and key `k` find different trades? */
  predicate LookupsPart(b: Book, p: int, k: OrderKey) {
    StatusLookup(b, k, p) != ExecLookup(b, k, p)
  }

  /**
   The exact condition, over every run: for an order that openOrder and orderBound messages name
   by one key, the two lookups part if and only if it is detached and a trade is stored at its key.
   */
  lemma LookupsPartIff(ms: seq<Msg>, n: nat, p: int, k: OrderKey)
    requires n <= |ms| && NamedBy(ms, n, p, k)
    ensures LookupsPart(Run(ms, n), p, k) <==> Detached(ms, n, p, k) && k in Run(ms, n).trades
  {
    EveryRunTold(ms, n, p, k);
    ZeroIsNotIndexed(ms, n);
  }

  lemma {:induction false} ZeroIsNotIndexed(ms: seq<Msg>, n: nat)
    requires n <= |ms|
    ensures 0 !in Run(ms, n).permID2Trade
  {
    if n > 0 {
      ZeroIsNotIndexed(ms, n - 1);
      StepIndexesNoZero(Run(ms, n - 1), ms[n - 1]);
    }
  }

  lemma StepIndexesNoZero(b: Book, m: Msg)
    requires WF(b) && 0 !in b.permID2Trade
    ensures 0 !in Step(b, m).permID2Trade
  {
    match m
    case OpenOrderMsg(_, _, _, _, _) =>
    case CompletedMsg(_, _, _) =>
    case BoundMsg(_, _, _) =>
    case PlaceCall(_, _, _, _, _) =>
    case ResetCall =>
    case _ => IndexesUntouched(b, m);
  }

  // ----- When no two orders share a key -----

  /** Has the completion of another order been stored over key `k`? */
  predicate Overwritten(ms: seq<Msg>, n: nat, p: int, k: OrderKey)
    requires n <= |ms|
  {
    n > 0 && (Overwritten(ms, n - 1, p, k) || Overwrites(Run(ms, n - 1), ms[n - 1], p, k))
  }

  predicate Overwrites(b: Book, m: Msg, p: int, k: OrderKey) {
    m.CompletedMsg? && Completes(b, m, m.order.permID) && m.order.permID != p && OrderKey(0, m.order.permID) == k
  }

  /** Was the message that last indexed `p`, since the last reset, a completion? */
  predicate IndexedByCompletion(ms: seq<Msg>, n: nat, p: int, k: OrderKey)
    requires n <= |ms|
  {
    n > 0 &&
    (Completes(Run(ms, n - 1), ms[n - 1], p) ||
     (IndexedByCompletion(ms, n - 1, p, k) && !Attaches(Run(ms, n - 1), ms[n - 1], p, k) && !ms[n - 1].ResetCall?))
  }

  lemma {:induction false} DetachedIffByCompletion(ms: seq<Msg>, n: nat, p: int, k: OrderKey)
    requires n <= |ms| && !Overwritten(ms, n, p, k)
    ensures Detached(ms, n, p, k) <==> IndexedByCompletion(ms, n, p, k) && k != OrderKey(0, p)
  {
    if n > 0 {
      DetachedIffByCompletion(ms, n - 1, p, k);
    }
  }

  /**
   Unless the completion of another order is stored over its key, the two lookups of an order
   part if and only if the message that last indexed it was its own completion, its key is not
   the one completions are stored under, and a trade is stored at its key.
   */
  lemma LookupsPartIffByCompletion(ms: seq<Msg>, n: nat, p: int, k: OrderKey)
    requires n <= |ms| && NamedBy(ms, n, p, k) && !Overwritten(ms, n, p, k)
    ensures LookupsPart(Run(ms, n), p, k) <==>
            IndexedByCompletion(ms, n, p, k) && k != OrderKey(0, p) && k in Run(ms, n).trades
  {
    LookupsPartIff(ms, n, p, k);
    DetachedIffByCompletion(ms, n, p, k);
  }

  lemma {:induction false} NeverOverwritten(ms: seq<Msg>, n: nat, p: int, k: OrderKey)
    requires n <= |ms| && forall q :: k == OrderKey(0, q) ==> p == q
    ensures !Overwritten(ms, n, p, k)
  {
    if n > 0 {
      NeverOverwritten(ms, n - 1, p, k);
    }
  }

  /**
   With a server that names each permID by one key, and no order by the key under which another
   one's completion is stored, the two lookups of any order agree unless it was last indexed by
   its completion, its key is an API key, and a trade is stored there; then they part.
   */
  lemma LookupsAgreeIff(ms: seq<Msg>, n: nat, name: int -> OrderKey, p: int)
    requires n <= |ms| && NamedBy(ms, n, p, name(p)) && forall q :: name(p) == OrderKey(0, q) ==> p == q
    ensures StatusLookup(Run(ms, n), name(p), p) == ExecLookup(Run(ms, n), name(p), p) <==>
            !(IndexedByCompletion(ms, n, p, name(p)) && name(p) != OrderKey(0, p) && name(p) in Run(ms, n).trades)
  {
    NeverOverwritten(ms, n, p, name(p));
    LookupsPartIffByCompletion(ms, n, p, name(p));
  }

  /**
   Index agreement over a whole run: with a server that names each permID by one key, the trade
   indexed under any permID that is not detached is the one stored at its key, and both lookups
   find it.
   */
  lemma EveryRunConsistent(ms: seq<Msg>, n: nat, name: int -> OrderKey)
    requires n <= |ms| && forall p :: NamedBy(ms, n, p, name(p))
    ensures var b := Run(ms, n);
            forall p :: p in b.permID2Trade && !Detached(ms, n, p, name(p)) ==>
                          && name(p) in b.trades && b.trades[name(p)] == b.permID2Trade[p]
                          && StatusLookup(b, name(p), p) == ExecLookup(b, name(p), p) == Some(b.permID2Trade[p])
  {
    var b := Run(ms, n);
    forall p | p in b.permID2Trade && !Detached(ms, n, p, name(p))
      ensures name(p) in b.trades && b.trades[name(p)] == b.permID2Trade[p]
    {
      EveryRunTold(ms, n, p, name(p));
    }
  }

  // ----- Which orders share a trade -----

  /** No trade is stored under two keys. */
  ghost predicate StoredOnce(b: Book) {
    forall j, k :: j in b.trades && k in b.trades && b.trades[j] == b.trades[k] ==> j == k
  }

  lemma StepKeepsStoredOnce(b: Book, m: Msg)
    requires WF(b) && StoredOnce(b)
    ensures StoredOnce(Step(b, m))
  {
    StoresAtMostOne(b, m);
    StepKeepsWF(b, m);
    hide Step;
  }

  /** The key under which a message may store a new trade. */
  function StoredKey(m: Msg): OrderKey {
    match m
    case OpenOrderMsg(orderID, clientID, o, _, _) => KeyOf(clientID, orderID, o.permID)
    case PlaceCall(orderID, clientID, o, _, _) => KeyOf(clientID, orderID, o.permID)
    case CompletedMsg(o, _, _) => OrderKey(0, o.permID)
    case _ => OrderKey(0, 0)
  }

  /** A message leaves what is stored as it is, forgets it all, or stores a new trade under one key. */
  lemma StoresAtMostOne(b: Book, m: Msg)
    requires WF(b)
    ensures var s := Step(b, m).trades; s == b.trades || s == map[] || s == b.trades[StoredKey(m) := |b.heap|]
  {
    match m
    case OpenOrderMsg(_, _, _, _, _) =>
    case CompletedMsg(_, _, _) =>
    case BoundMsg(_, _, _) =>
    case PlaceCall(_, _, _, _, _) =>
    case ResetCall =>
    case _ => IndexesUntouched(b, m);
  }

  lemma {:induction false} EveryRunStoredOnce(ms: seq<Msg>, n: nat)
    requires n <= |ms|
    ensures StoredOnce(Run(ms, n))
  {
    hide Step, StoredOnce;
    if n == 0 {
      NothingStored(ms);
    } else {
      EveryRunStoredOnce(ms, n - 1);
      StepKeepsStoredOnce(Run(ms, n - 1), ms[n - 1]);
    }
  }

  lemma NothingStored(ms: seq<Msg>)
    ensures StoredOnce(Run(ms, 0))
  {
  }

  /** An openOrder files its order: under (0, permID) without a positive order ID, else under its API key. */
  lemma OpenOrderIsFiled(ms: seq<Msg>, n: nat)
    requires n < |ms| && ms[n].OpenOrderMsg?
    ensures var m, b := ms[n], Run(ms, n + 1);
            var key := if m.orderID > 0 then OrderKey(m.clientID, m.orderID) else OrderKey(0, m.order.permID);
            && key in b.trades && b.heap[b.trades[key]].order == m.order
            && (m.order.permID != 0 ==> m.order.permID in b.permID2Trade && b.permID2Trade[m.order.permID] == b.trades[key])
            && (forall k :: k in b.trades && k != key ==> k in Run(ms, n).trades && b.trades[k] == Run(ms, n).trades[k])
  {
  }

  /** An order that goes by its permID is never detached. */
  lemma {:induction false} ManualIsAttached(ms: seq<Msg>, n: nat, p: int)
    requires n <= |ms|
    ensures !Detached(ms, n, p, OrderKey(0, p))
  {
    if n > 0 {
      ManualIsAttached(ms, n - 1, p);
    }
  }

  /**
   Two indexed orders, each named by one key and neither detached, have one trade if and only if
   they are named by the same key.
   */
  lemma SameTradeIff(ms: seq<Msg>, n: nat, p: int, j: OrderKey, q: int, k: OrderKey)
    requires n <= |ms| && NamedBy(ms, n, p, j) && NamedBy(ms, n, q, k)
    requires p in Run(ms, n).permID2Trade && !Detached(ms, n, p, j)
    requires q in Run(ms, n).permID2Trade && !Detached(ms, n, q, k)
    ensures Run(ms, n).permID2Trade[p] == Run(ms, n).permID2Trade[q] <==> j == k
  {
    EveryRunTold(ms, n, p, j);
    EveryRunTold(ms, n, q, k);
    EveryRunStoredOnce(ms, n);
  }

  /**
   Over every run, orders placed by hand, whatever else happens, are stored under their own
   (0, permID), and two with different permIDs have different trades.
   */
  lemma ManualOrdersApart(ms: seq<Msg>, n: nat, p: int, q: int)
    requires n <= |ms| && p != q && NamedBy(ms, n, p, OrderKey(0, p)) && NamedBy(ms, n, q, OrderKey(0, q))
    requires p in Run(ms, n).permID2Trade && q in Run(ms, n).permID2Trade
    ensures var b := Run(ms, n);
            && OrderKey(0, p) in b.trades && b.trades[OrderKey(0, p)] == b.permID2Trade[p]
            && b.permID2Trade[p] != b.permID2Trade[q]
  {
    ManualIsAttached(ms, n, p);
    ManualIsAttached(ms, n, q);
    EveryRunTold(ms, n, p, OrderKey(0, p));
    SameTradeIff(ms, n, p, OrderKey(0, p), q, OrderKey(0, q));
  }

  /**
   Order IDs of client 0 and permIDs of orders placed by hand share one space of keys: an order of
   client 0 whose ID is the permID of a manual order takes over its trade.
   */
  lemma ClientZeroTakesOver(o: OrderFields, w: OrderFields, st: string)
    requires o.permID == 11 && w.permID == 12
    ensures var ms := [OpenOrderMsg(0, 0, o, "STK", st), OpenOrderMsg(11, 0, w, "OPT", st)];
            && NamedBy(ms, 2, 11, OrderKey(0, 11)) && NamedBy(ms, 2, 12, OrderKey(0, 11))
            && |Run(ms, 2).heap| == 1 && Run(ms, 2).heap[0].order == w && Run(ms, 2).heap[0].secType == "STK"
  {
    var ms := [OpenOrderMsg(0, 0, o, "STK", st), OpenOrderMsg(11, 0, w, "OPT", st)];
    assert Run(ms, 0) == EMPTY;
    var b1 := Run(ms, 1);
    assert b1 == Step(EMPTY, ms[0]);
    assert b1.trades == map[OrderKey(0, 11) := 0] && |b1.heap| == 1;
    assert Run(ms, 2) == Step(b1, ms[1]);
    assert NamedBy(ms, 0, 11, OrderKey(0, 11)) && NamedBy(ms, 1, 11, OrderKey(0, 11));
    assert NamedBy(ms, 0, 12, OrderKey(0, 11)) && NamedBy(ms, 1, 12, OrderKey(0, 11));
  }

  // ----- Such runs -----

  /** An order is placed, and its completion is reported before any openOrder names its permID. */
  lemma LookupsCanPart(o: OrderFields, st: string)
    requires o.permID == 99
    ensures var ms := [PlaceCall(7, 1, o.(permID := 0), "STK", true), CompletedMsg(o, "STK", st)];
            && NamedBy(ms, 2, 99, OrderKey(1, 7))
            && StatusLookup(Run(ms, 2), OrderKey(1, 7), 99) == Some(0)
            && ExecLookup(Run(ms, 2), OrderKey(1, 7), 99) == Some(1)
  {
    var ms := [PlaceCall(7, 1, o.(permID := 0), "STK", true), CompletedMsg(o, "STK", st)];
    assert Run(ms, 0) == EMPTY;
    var b1 := Run(ms, 1);
    assert b1 == Step(EMPTY, ms[0]);
    assert b1.trades == map[OrderKey(1, 7) := 0] && b1.permID2Trade == map[] && |b1.heap| == 1;
    assert Run(ms, 2) == Step(b1, ms[1]);
    assert NamedBy(ms, 0, 99, OrderKey(1, 7)) && NamedBy(ms, 1, 99, OrderKey(1, 7));
  }

  /** The completion comes first: the lookups agree after it, and part when the order is placed. */
  lemma LookupsCanPartLater(o: OrderFields, st: string)
    requires o.permID == 99
    ensures var ms := [CompletedMsg(o, "STK", st), PlaceCall(7, 1, o.(permID := 0), "STK", true)];
            && NamedBy(ms, 2, 99, OrderKey(1, 7))
            && !LookupsPart(Run(ms, 1), 99, OrderKey(1, 7))
            && StatusLookup(Run(ms, 2), OrderKey(1, 7), 99) == Some(1)
            && ExecLookup(Run(ms, 2), OrderKey(1, 7), 99) == Some(0)
  {
    var ms := [CompletedMsg(o, "STK", st), PlaceCall(7, 1, o.(permID := 0), "STK", true)];
    assert Run(ms, 0) == EMPTY;
    var b1 := Run(ms, 1);
    assert b1 == Step(EMPTY, ms[0]);
    assert b1.trades == map[OrderKey(0, 99) := 0] && b1.permID2Trade == map[99 := 0] && |b1.heap| == 1;
    assert Run(ms, 2) == Step(b1, ms[1]);
    assert NamedBy(ms, 0, 99, OrderKey(1, 7)) && NamedBy(ms, 1, 99, OrderKey(1, 7));
  }
}
