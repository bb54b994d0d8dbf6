/**
 The request map run by many threads: `Start`, `Complete`, `Cancel` and `DrainAll` take the
 lock for one step, and `Complete` and `DrainAll` send to and close the channels they removed
 in later steps, outside the lock.  Any interleaving of these steps is a run.
 */
module RequestProtocol {
  import opened Wrappers

  /** What a request yields: the items accumulated for it, or a value its last message carried; tokens stand for values. */
  datatype Value = Items(items: seq<int>) | Single(token: int)

  /** A result; a channel that closes without one yields the zero result. */
  datatype Result = Result(value: Option<Value>, err: Option<string>)

  /** A channel of capacity 1; `sent` is everything ever sent to it, received or not. */
  datatype Chan = Chan(buffer: seq<Result>, closed: bool, sent: seq<Result>)

  /** A thread inside `Complete` or `DrainAll`: about to send to the next channel, or to close one it sent to. */
  datatype Thread =
    | Sending(todo: seq<nat>, result: Result)
    | Closing(ch: nat, todo: seq<nat>, result: Result)

  /** Where a channel is.  This is bookkeeping: no step reads it. */
  datatype Place = InMap(reqID: int) | HeldBy(thread: int) | Finished | Orphaned

  datatype Sys = Sys(chans: seq<Chan>, pending: map<int, nat>, threads: map<int, Thread>, place: seq<Place>)

  const INIT := Sys([], map[], map[], [])

  datatype Action =
    | Start(reqID: int)
    | Take(thread: int, reqID: int, result: Result)
    | Drain(thread: int, order: seq<int>, result: Result)
    | Send(thread: int)
    | Close(thread: int)
    | Cancel(reqID: int)
    | Receive(ch: nat)

  /** A step may panic (send on a closed channel, or close twice) or block (send to a full buffer). */
  datatype Outcome = Ok(sys: Sys) | Panicked | Blocked

  function Resume(s: Sys, t: int, todo: seq<nat>, result: Result): Sys {
    s.(threads := if todo == [] then s.threads - {t} else s.threads[t := Sending(todo, result)])
  }

  /** `Start`: a fresh channel; one that was pending under the same ID is lost to everyone but its reader. */
  function OnStart(s: Sys, reqID: int): Sys {
    var c := |s.chans|;
    var place := if reqID in s.pending && s.pending[reqID] < |s.place|
                 then s.place[s.pending[reqID] := Orphaned] else s.place;
    s.(chans := s.chans + [Chan([], false, [])], pending := s.pending[reqID := c], place := place + [InMap(reqID)])
  }

  /** The lock section of `Complete`. */
  function OnTake(s: Sys, t: int, reqID: int, result: Result): Sys
    requires reqID in s.pending && s.pending[reqID] < |s.place|
  {
    var c := s.pending[reqID];
    s.(pending := s.pending - {reqID}, threads := s.threads[t := Sending([c], result)], place := s.place[c := HeldBy(t)])
  }

  /** The channels a map holds under the given keys. */
  function ChansOf(pending: map<int, nat>, order: seq<int>, n: nat): (r: seq<nat>)
    requires n <= |order| && forall i :: 0 <= i < |order| ==> order[i] in pending
    ensures |r| == n && forall i :: 0 <= i < n ==> r[i] == pending[order[i]]
  {
    if n == 0 then [] else ChansOf(pending, order, n - 1) + [pending[order[n - 1]]]
  }

  /** Do the keys list the whole map, each once? */
  ghost predicate Ranges(order: seq<int>, pending: map<int, nat>) {
    && (forall i :: 0 <= i < |order| ==> order[i] in pending)
    && (forall r :: r in pending ==> r in order)
    && (forall i, j :: 0 <= i < j < |order| ==> order[i] != order[j])
  }

  /** The lock section of `DrainAll`: the thread takes the whole map, in whatever order it will range over it. */
  function OnDrain(s: Sys, t: int, order: seq<int>, result: Result): Sys
    requires forall i :: 0 <= i < |order| ==> order[i] in s.pending
  {
    var held := ChansOf(s.pending, order, |order|);
    Resume(s.(pending := map[], place := Moved(s.place, held, HeldBy(t))), t, held, result)
  }

  function Moved(place: seq<Place>, cs: seq<nat>, p: Place): (r: seq<Place>)
    ensures |r| == |place|
    ensures forall c :: 0 <= c < |place| ==> r[c] == if c in cs then p else place[c]
  {
    seq(|place|, c requires 0 <= c < |place| => if c in cs then p else place[c])
  }

  function OnSend(s: Sys, t: int): Outcome
    requires t in s.threads && s.threads[t].Sending? && s.threads[t].todo != []
    requires s.threads[t].todo[0] < |s.chans|
  {
    var Sending(todo, result) := s.threads[t];
    var ch := s.chans[todo[0]];
    if ch.closed then Panicked
    else if |ch.buffer| >= 1 then Blocked
    else Ok(s.(chans := s.chans[todo[0] := Chan(ch.buffer + [result], false, ch.sent + [result])],
               threads := s.threads[t := Closing(todo[0], todo[1..], result)]))
  }

  function OnClose(s: Sys, t: int): Outcome
    requires t in s.threads && s.threads[t].Closing?
    requires s.threads[t].ch < |s.chans| == |s.place|
  {
    var Closing(c, todo, result) := s.threads[t];
    if s.chans[c].closed then Panicked
    else Ok(Resume(s.(chans := s.chans[c := s.chans[c].(closed := true)], place := s.place[c := Finished]), t, todo, result))
  }

  /** `Cancel` closes under the lock. */
  function OnCancel(s: Sys, reqID: int): Outcome
    requires reqID in s.pending && s.pending[reqID] < |s.chans| == |s.place|
  {
    var c := s.pending[reqID];
    if s.chans[c].closed then Panicked
    else Ok(s.(pending := s.pending - {reqID}, chans := s.chans[c := s.chans[c].(closed := true)],
               place := s.place[c := Finished]))
  }

  /** Channel numbers in use are those of existing channels. */
  ghost predicate WF(s: Sys) {
    && |s.place| == |s.chans|
    && (forall r :: r in s.pending ==> s.pending[r] < |s.chans|)
    && (forall t :: t in s.threads ==> Exists(s.threads[t], |s.chans|))
  }

  ghost predicate Exists(th: Thread, n: nat) {
    && (th.Sending? ==> th.todo != []) && (th.Closing? ==> th.ch < n)
    && forall i :: 0 <= i < |th.todo| ==> th.todo[i] < n
  }

  /** One step; a step whose thread is elsewhere, or whose request is not pending, changes nothing. */
  ghost function Exec(s: Sys, a: Action): Outcome
    requires WF(s)
  {
    match a
    case Start(reqID) => Ok(OnStart(s, reqID))
    case Take(t, reqID, result) =>
      if t !in s.threads && reqID in s.pending then Ok(OnTake(s, t, reqID, result)) else Ok(s)
    case Drain(t, order, result) =>
      if t !in s.threads && Ranges(order, s.pending) then Ok(OnDrain(s, t, order, result)) else Ok(s)
    case Send(t) => if t in s.threads && s.threads[t].Sending? then OnSend(s, t) else Ok(s)
    case Close(t) => if t in s.threads && s.threads[t].Closing? then OnClose(s, t) else Ok(s)
    case Cancel(reqID) => if reqID in s.pending then OnCancel(s, reqID) else Ok(s)
    case Receive(c) =>
      if c < |s.chans| && s.chans[c].buffer != []
      then Ok(s.(chans := s.chans[c := s.chans[c].(buffer := s.chans[c].buffer[1..])])) else Ok(s)
  }

  // ----- Invariant -----

  /** Does the thread still have to send to or close this channel? */
  predicate Holds(th: Thread, c: nat) {
    c in th.todo || (th.Closing? && c == th.ch)
  }

  /** The bookkeeping is right: each channel is where its place says, and nowhere else. */
  ghost predicate Placed(s: Sys)
    requires WF(s)
  {
    && (forall r :: r in s.pending ==> s.place[s.pending[r]] == InMap(r))
    && (forall c :: 0 <= c < |s.place| && s.place[c].InMap? ==>
                      s.place[c].reqID in s.pending && s.pending[s.place[c].reqID] == c)
    && (forall t, c :: t in s.threads && 0 <= c < |s.place| && Holds(s.threads[t], c) ==> s.place[c] == HeldBy(t))
    && (forall c :: 0 <= c < |s.place| && s.place[c].HeldBy? ==>
                      s.place[c].thread in s.threads && Holds(s.threads[s.place[c].thread], c))
    && (forall c :: 0 <= c < |s.place| ==> (s.place[c].Finished? <==> s.chans[c].closed))
  }

  ghost predicate Distinct(todo: seq<nat>) {
    forall i, j :: 0 <= i < j < |todo| ==> todo[i] != todo[j]
  }

  /** No thread has a channel twice on its list. */
  ghost predicate Once(th: Thread) {
    Distinct(th.todo) && (th.Closing? ==> th.ch !in th.todo)
  }

  /** A channel nobody sent to is empty; only the one a thread is about to close, or a closed one, was sent to, once. */
  ghost predicate SentOnce(s: Sys)
    requires WF(s)
  {
    && (forall c :: 0 <= c < |s.chans| ==> |s.chans[c].buffer| <= |s.chans[c].sent| <= 1)
    && (forall c :: 0 <= c < |s.chans| && (s.place[c].InMap? || s.place[c].Orphaned?) ==> s.chans[c].sent == [])
    && (forall t, c :: t in s.threads && 0 <= c < |s.chans| && c in s.threads[t].todo ==> s.chans[c].sent == [])
  }

  ghost predicate Inv(s: Sys) {
    && WF(s) && Placed(s) && SentOnce(s)
    && forall t :: t in s.threads ==> Once(s.threads[t])
  }

  lemma StartKeepsInv(s: Sys, reqID: int)
    requires Inv(s)
    ensures Inv(OnStart(s, reqID))
  {
    var s' := OnStart(s, reqID);
    assert WF(s');
    assert Placed(s') by { StartKeepsPlaced(s, reqID); }
  }

  lemma StartKeepsPlaced(s: Sys, reqID: int)
    requires WF(s) && Placed(s)
    ensures WF(OnStart(s, reqID)) && Placed(OnStart(s, reqID))
  {
  }

  lemma TakeKeepsPlaced(s: Sys, t: int, reqID: int, result: Result)
    requires WF(s) && Placed(s) && t !in s.threads && reqID in s.pending
    ensures WF(OnTake(s, t, reqID, result)) && Placed(OnTake(s, t, reqID, result))
  {
  }

  lemma TakeKeepsInv(s: Sys, t: int, reqID: int, result: Result)
    requires Inv(s) && t !in s.threads && reqID in s.pending
    ensures Inv(OnTake(s, t, reqID, result))
  {
    TakeKeepsPlaced(s, t, reqID, result);
    assert s.place[s.pending[reqID]] == InMap(reqID);
    hide Placed;
  }

  lemma CancelKeepsInv(s: Sys, reqID: int)
    requires Inv(s) && reqID in s.pending
    ensures OnCancel(s, reqID).Ok? && Inv(OnCancel(s, reqID).sys)
  {
  }

  lemma SendKeepsInv(s: Sys, t: int)
    requires Inv(s) && t in s.threads && s.threads[t].Sending?
    ensures OnSend(s, t).Ok? && Inv(OnSend(s, t).sys)
  {
    SendSucceeds(s, t);
    SendKeepsPlaced(s, t);
    SendKeepsSentOnce(s, t);
    hide Placed, SentOnce;
  }

  lemma SendSucceeds(s: Sys, t: int)
    requires WF(s) && SentOnce(s) && Placed(s) && t in s.threads && s.threads[t].Sending?
    ensures s.threads[t].todo[0] < |s.chans| && OnSend(s, t).Ok?
  {
    var c := s.threads[t].todo[0];
    assert Holds(s.threads[t], c);
    assert s.place[c] == HeldBy(t);
  }

  lemma SendKeepsPlaced(s: Sys, t: int)
    requires WF(s) && Placed(s) && t in s.threads && s.threads[t].Sending?
    requires s.threads[t].todo[0] < |s.chans| && OnSend(s, t).Ok?
    ensures WF(OnSend(s, t).sys) && Placed(OnSend(s, t).sys)
  {
    var s' := OnSend(s, t).sys;
    var todo := s.threads[t].todo;
    assert todo == [todo[0]] + todo[1..];
    assert forall c :: Holds(s'.threads[t], c) <==> Holds(s.threads[t], c);
  }

  lemma SendKeepsSentOnce(s: Sys, t: int)
    requires WF(s) && Placed(s) && SentOnce(s) && t in s.threads && s.threads[t].Sending? && Once(s.threads[t])
    requires s.threads[t].todo[0] < |s.chans| && OnSend(s, t).Ok?
    requires WF(OnSend(s, t).sys)
    ensures SentOnce(OnSend(s, t).sys)
  {
    var c := s.threads[t].todo[0];
    assert Holds(s.threads[t], c);
    assert c !in s.threads[t].todo[1..];
  }

  lemma CloseKeepsInv(s: Sys, t: int)
    requires Inv(s) && t in s.threads && s.threads[t].Closing?
    ensures OnClose(s, t).Ok? && Inv(OnClose(s, t).sys)
  {
    CloseKeepsPlaced(s, t);
  }

  lemma CloseKeepsPlaced(s: Sys, t: int)
    requires WF(s) && Placed(s) && t in s.threads && s.threads[t].Closing? && Once(s.threads[t])
    ensures OnClose(s, t).Ok? && WF(OnClose(s, t).sys) && Placed(OnClose(s, t).sys)
  {
    assert Holds(s.threads[t], s.threads[t].ch);
  }

  lemma TakenIffMapped(s: Sys, order: seq<int>, c: nat)
    requires WF(s) && Placed(s) && Ranges(order, s.pending) && c < |s.place|
    ensures c in ChansOf(s.pending, order, |order|) <==> s.place[c].InMap?
  {
    var held := ChansOf(s.pending, order, |order|);
    if c in held {
      var i :| 0 <= i < |held| && held[i] == c;
      assert s.place[c] == InMap(order[i]);
    }
    if s.place[c].InMap? {
      var i :| 0 <= i < |order| && order[i] == s.place[c].reqID;
      assert held[i] == c;
    }
  }

  lemma TakenOnce(s: Sys, order: seq<int>)
    requires WF(s) && Placed(s) && Ranges(order, s.pending)
    ensures Distinct(ChansOf(s.pending, order, |order|))
  {
    var held := ChansOf(s.pending, order, |order|);
    forall i, j | 0 <= i < j < |held| ensures held[i] != held[j] {
      assert s.place[held[i]] == InMap(order[i]) && s.place[held[j]] == InMap(order[j]);
    }
  }

  /** What `DrainAll` takes are the mapped channels, each once. */
  lemma DrainTakesTheMapped(s: Sys, order: seq<int>)
    requires WF(s) && Placed(s) && Ranges(order, s.pending)
    ensures Distinct(ChansOf(s.pending, order, |order|))
    ensures forall i :: 0 <= i < |order| ==> ChansOf(s.pending, order, |order|)[i] < |s.place|
    ensures forall c :: 0 <= c < |s.place| ==> (c in ChansOf(s.pending, order, |order|) <==> s.place[c].InMap?)
  {
    TakenOnce(s, order);
    forall c | 0 <= c < |s.place| ensures c in ChansOf(s.pending, order, |order|) <==> s.place[c].InMap? {
      TakenIffMapped(s, order, c);
    }
  }

  lemma DrainKeepsInv(s: Sys, t: int, order: seq<int>, result: Result)
    requires Inv(s) && t !in s.threads && Ranges(order, s.pending)
    ensures Inv(OnDrain(s, t, order, result))
  {
    DrainTakesTheMapped(s, order);
    var held := ChansOf(s.pending, order, |order|);
    var s' := OnDrain(s, t, order, result);
    assert forall u :: u in s.threads ==> u in s'.threads && s'.threads[u] == s.threads[u];
    if held == [] {
      assert forall c :: 0 <= c < |s.place| ==> s'.place[c] == s.place[c];
    } else {
      assert s'.threads[t] == Sending(held, result) && Exists(s'.threads[t], |s.chans|);
    }
    assert WF(s');
    DrainKeepsPlaced(s, s', t, held);
    hide Placed;
    assert SentOnce(s');
  }

  lemma DrainKeepsPlaced(s: Sys, s': Sys, t: int, held: seq<nat>)
    requires WF(s) && Placed(s) && WF(s') && t !in s.threads
    requires forall c :: 0 <= c < |s.place| ==> (c in held <==> s.place[c].InMap?)
    requires s'.pending == map[] && s'.chans == s.chans && s'.place == Moved(s.place, held, HeldBy(t))
    requires forall u :: u in s'.threads <==> u in s.threads || (u == t && held != [])
    requires forall u :: u in s.threads ==> s'.threads[u] == s.threads[u]
    requires held != [] ==> s'.threads[t].Sending? && s'.threads[t].todo == held
    ensures Placed(s')
  {
  }

  lemma ReceiveKeepsInv(s: Sys, c: nat)
    requires Inv(s)
    ensures Exec(s, Receive(c)).Ok? && Inv(Exec(s, Receive(c)).sys)
  {
  }

  /** No step panics or blocks, and every step keeps the invariant. */
  lemma ExecKeepsInv(s: Sys, a: Action)
    requires Inv(s)
    ensures Exec(s, a).Ok? && Inv(Exec(s, a).sys)
  {
    match a
    case Start(reqID) => StartKeepsInv(s, reqID);
    case Take(t, reqID, result) => if t !in s.threads && reqID in s.pending { TakeKeepsInv(s, t, reqID, result); }
    case Drain(t, order, result) => if t !in s.threads && Ranges(order, s.pending) { DrainKeepsInv(s, t, order, result); }
    case Send(t) => if t in s.threads && s.threads[t].Sending? { SendKeepsInv(s, t); }
    case Close(t) => if t in s.threads && s.threads[t].Closing? { CloseKeepsInv(s, t); }
    case Cancel(reqID) => if reqID in s.pending { CancelKeepsInv(s, reqID); }
    case Receive(c) => ReceiveKeepsInv(s, c);
  }

  // ----- Runs -----

  /** The next step, unless the run has already gone wrong. */
  ghost function Then(o: Outcome, a: Action): Outcome {
    if o.Ok? && WF(o.sys) then Exec(o.sys, a) else o
  }

  ghost function Run(as_: seq<Action>, n: nat): Outcome
    requires n <= |as_|
  {
    if n == 0 then Ok(INIT) else Then(Run(as_, n - 1), as_[n - 1])
  }

  /**
   Channel safety under every interleaving: no channel is sent to after it was closed, closed
   twice or sent to twice, and no send blocks.
   */
  lemma {:induction false} NoRunPanicsOrBlocks(as_: seq<Action>, n: nat)
    requires n <= |as_|
    ensures Run(as_, n).Ok? && Inv(Run(as_, n).sys)
    ensures forall c :: 0 <= c < |Run(as_, n).sys.chans| ==> |Run(as_, n).sys.chans[c].sent| <= 1
  {
    hide Exec;
    if n > 0 {
      NoRunPanicsOrBlocks(as_, n - 1);
      ExecKeepsInv(Run(as_, n - 1).sys, as_[n - 1]);
    }
  }

  /** Did some `Start` among the first `n` steps replace channel `c` in the map? */
  ghost predicate Overwritten(as_: seq<Action>, n: nat, c: nat)
    requires n <= |as_|
  {
    n > 0 && (Overwritten(as_, n - 1, c) || Overwrites(Run(as_, n - 1), as_[n - 1], c))
  }

  predicate Overwrites(o: Outcome, a: Action, c: nat) {
    o.Ok? && a.Start? && a.reqID in o.sys.pending && o.sys.pending[a.reqID] == c
  }

  lemma OrphanStep(s: Sys, a: Action, c: nat)
    requires Inv(s) && Exec(s, a).Ok?
    ensures |s.place| <= |Exec(s, a).sys.place|
    ensures c < |Exec(s, a).sys.place| ==>
              (Exec(s, a).sys.place[c] == Orphaned <==>
                Overwrites(Ok(s), a, c) || (c < |s.place| && s.place[c] == Orphaned))
    ensures Overwrites(Ok(s), a, c) ==> c < |s.place|
  {
  }

  lemma OrphanRunStep(as_: seq<Action>, n: nat, c: nat)
    requires n < |as_|
    ensures Run(as_, n).Ok? && Run(as_, n + 1).Ok?
    ensures |Run(as_, n).sys.place| <= |Run(as_, n + 1).sys.place|
    ensures c < |Run(as_, n + 1).sys.place| ==>
              (Run(as_, n + 1).sys.place[c] == Orphaned <==>
                Overwrites(Run(as_, n), as_[n], c) || (c < |Run(as_, n).sys.place| && Run(as_, n).sys.place[c] == Orphaned))
    ensures Overwrites(Run(as_, n), as_[n], c) ==> c < |Run(as_, n).sys.place|
  {
    hide Exec, Placed, SentOnce;
    NoRunPanicsOrBlocks(as_, n);
    ExecKeepsInv(Run(as_, n).sys, as_[n]);
    OrphanStep(Run(as_, n).sys, as_[n], c);
  }

  lemma {:induction false} OrphanedIffOverwritten(as_: seq<Action>, n: nat, c: nat)
    requires n <= |as_|
    ensures Run(as_, n).Ok? && (Overwritten(as_, n, c) ==> c < |Run(as_, n).sys.place|)
    ensures c < |Run(as_, n).sys.place| ==> (Run(as_, n).sys.place[c] == Orphaned <==> Overwritten(as_, n, c))
  {
    hide Exec, Then, Overwrites;
    if n > 0 {
      OrphanedIffOverwritten(as_, n - 1, c);
      OrphanRunStep(as_, n - 1, c);
    }
  }

  /** Is channel `c` in the map? */
  predicate Pending(s: Sys, c: nat) {
    exists r :: r in s.pending && s.pending[r] == c
  }

  /** Does some thread hold channel `c`? */
  predicate Held(s: Sys, c: nat) {
    exists t :: t in s.threads && Holds(s.threads[t], c)
  }

  /**
   Each channel is always in exactly one of four places: in the map (under one ID), held by one
   thread, closed, or replaced by a later `Start` under its ID.
   */
  lemma ExactlyOnePlace(as_: seq<Action>, n: nat, c: nat)
    requires n <= |as_| && Run(as_, n).Ok? && c < |Run(as_, n).sys.chans|
    ensures var s := Run(as_, n).sys;
            && WF(s)
            && (Pending(s, c) || Held(s, c) || s.chans[c].closed || Overwritten(as_, n, c))
            && !(Pending(s, c) && Held(s, c)) && !(Pending(s, c) && s.chans[c].closed)
            && !(Held(s, c) && s.chans[c].closed)
            && (Overwritten(as_, n, c) ==> !Pending(s, c) && !Held(s, c) && !s.chans[c].closed)
            && (forall q, r :: q in s.pending && r in s.pending && s.pending[q] == c && s.pending[r] == c ==> q == r)
            && (forall t, u :: t in s.threads && u in s.threads && Holds(s.threads[t], c) && Holds(s.threads[u], c) ==> t == u)
  {
    NoRunPanicsOrBlocks(as_, n);
    OrphanedIffOverwritten(as_, n, c);
    PendingIffInMap(Run(as_, n).sys, c);
    HeldIffHeldBy(Run(as_, n).sys, c);
  }

  lemma PendingIffInMap(s: Sys, c: nat)
    requires Inv(s) && c < |s.chans|
    ensures Pending(s, c) <==> s.place[c].InMap?
    ensures forall q, r :: q in s.pending && r in s.pending && s.pending[q] == c && s.pending[r] == c ==> q == r
    ensures s.chans[c].closed <==> s.place[c].Finished?
  {
    if s.place[c].InMap? { assert s.place[c].reqID in s.pending; }
  }

  lemma HeldIffHeldBy(s: Sys, c: nat)
    requires Inv(s) && c < |s.chans|
    ensures Held(s, c) <==> s.place[c].HeldBy?
    ensures forall t, u :: t in s.threads && u in s.threads && Holds(s.threads[t], c) && Holds(s.threads[u], c) ==> t == u
  {
    if s.place[c].HeldBy? { assert Holds(s.threads[s.place[c].thread], c); }
  }

  // ----- Fresh request keys -----

  function StartedBy(a: Action): set<int> {
    if a.Start? then {a.reqID} else {}
  }

  function Started(as_: seq<Action>, n: nat): set<int>
    requires n <= |as_|
  {
    if n == 0 then {} else Started(as_, n - 1) + StartedBy(as_[n - 1])
  }

  predicate FreshStarts(as_: seq<Action>, n: nat)
    requires n <= |as_|
  {
    n == 0 || (FreshStarts(as_, n - 1) && StartedBy(as_[n - 1]) !! Started(as_, n - 1))
  }

  predicate PendingIn(o: Outcome, started: set<int>) {
    o.Ok? ==> o.sys.pending.Keys <= started
  }

  lemma StepAddsOnlyStarted(o: Outcome, a: Action, started: set<int>)
    requires PendingIn(o, started)
    ensures PendingIn(Then(o, a), started + StartedBy(a))
  {
  }

  lemma {:induction false} PendingWereStarted(as_: seq<Action>, n: nat)
    requires n <= |as_|
    ensures PendingIn(Run(as_, n), Started(as_, n))
  {
    if n > 0 {
      PendingWereStarted(as_, n - 1);
      StepAddsOnlyStarted(Run(as_, n - 1), as_[n - 1], Started(as_, n - 1));
    }
  }

  /** When no ID is started twice, no channel is ever replaced. */
  lemma {:induction false} FreshStartsNeverOverwrite(as_: seq<Action>, n: nat, c: nat)
    requires n <= |as_| && FreshStarts(as_, n)
    ensures !Overwritten(as_, n, c)
  {
    if n > 0 {
      FreshStartsNeverOverwrite(as_, n - 1, c);
      PendingWereStarted(as_, n - 1);
    }
  }
}
