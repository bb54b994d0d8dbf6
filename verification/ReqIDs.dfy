/**
 Request IDs: `GetReqID`, the compare-and-swap loop of `UpdateReqID` and the synthetic IDs,
 run by any number of threads whose atomic operations interleave in any way.
 IDs are unbounded here; the source counts in 64 bits.
 */
module ReqIDs {
  import opened Wrappers

  /** Where a call of `UpdateReqID(min)` stands; `first` (or `start`) is the value of its first load. */
  datatype Update =
    | Loading(min: int, first: Option<int>, fails: nat)
    | Swapping(min: int, start: int, current: int, fails: nat)

  /** A call that has returned, and how many IDs had been issued by then. */
  datatype Returned = Returned(min: int, first: Option<int>, fails: nat, issuedBefore: nat)

  datatype Sys = Sys(
    counter: int, synthetic: int, calls: map<int, Update>,
    issued: seq<int>, syntheticIssued: seq<int>, returned: seq<Returned>)

  const INIT := Sys(0, 0, map[], [], [], [])

  datatype Action =
    | GetReqID
    | GetSynthetic
    | CallUpdate(thread: int, min: int)
    | Load(thread: int)
    | CompareAndSwap(thread: int)

  /** The call of `thread` returns. */
  function Return(s: Sys, thread: int, r: Returned): Sys {
    s.(calls := s.calls - {thread}, returned := s.returned + [r])
  }

  /** One atomic operation; a thread that is not at such an operation does nothing. */
  function Step(s: Sys, a: Action): Sys {
    match a
    case GetReqID => s.(counter := s.counter + 1, issued := s.issued + [s.counter])
    case GetSynthetic => s.(synthetic := s.synthetic - 1, syntheticIssued := s.syntheticIssued + [s.synthetic - 1])
    case CallUpdate(t, min) =>
      if t in s.calls then s else s.(calls := s.calls[t := Loading(min, None, 0)])
    case Load(t) =>
      if t !in s.calls || !s.calls[t].Loading? then s
      else
        var Loading(min, first, fails) := s.calls[t];
        if s.counter >= min then Return(s, t, Returned(min, first, fails, |s.issued|))
        else s.(calls := s.calls[t := Swapping(min, if first.Some? then first.value else s.counter, s.counter, fails)])
    case CompareAndSwap(t) =>
      if t !in s.calls || !s.calls[t].Swapping? then s
      else
        var Swapping(min, first, current, fails) := s.calls[t];
        if s.counter == current
        then Return(s.(counter := min), t, Returned(min, Some(first), fails, |s.issued|))
        else s.(calls := s.calls[t := Loading(min, Some(first), fails + 1)])
  }

  function Run(as_: seq<Action>, n: nat): Sys
    requires n <= |as_|
  {
    if n == 0 then INIT else Step(Run(as_, n - 1), as_[n - 1])
  }

  // ----- Invariant -----

  /** Every failure so far cost the call one unit of the distance from its first load to its goal. */
  ghost predicate Progress(u: Update, counter: int) {
    match u
    case Loading(min, None, fails) => fails == 0
    case Loading(min, Some(first), fails) => first + fails <= counter && fails <= min - first
    case Swapping(min, first, current, fails) => first + fails <= current <= counter && current < min
  }

  ghost predicate Increasing(s: seq<int>) {
    forall i, j :: 0 <= i < j < |s| ==> s[i] < s[j]
  }

  ghost predicate Honoured(r: Returned, s: Sys) {
    && r.issuedBefore <= |s.issued| && r.min <= s.counter
    && (forall i :: r.issuedBefore <= i < |s.issued| ==> s.issued[i] >= r.min)
    && (match r.first case None => r.fails == 0 case Some(first) => r.fails <= r.min - first)
  }

  ghost predicate CountersOk(s: Sys) {
    && 0 <= s.counter && s.synthetic <= 0
    && Increasing(s.issued) && (forall i :: 0 <= i < |s.issued| ==> 0 <= s.issued[i] < s.counter)
    && (forall i :: 0 <= i < |s.syntheticIssued| ==> s.syntheticIssued[i] == -1 - i)
    && |s.syntheticIssued| == -s.synthetic
  }

  ghost predicate Inv(s: Sys) {
    && CountersOk(s)
    && (forall t :: t in s.calls ==> Progress(s.calls[t], s.counter))
    && (forall k :: 0 <= k < |s.returned| ==> Honoured(s.returned[k], s))
  }

  lemma StepKeepsInv(s: Sys, a: Action)
    requires Inv(s)
    ensures Inv(Step(s, a)) && s.counter <= Step(s, a).counter
  {
    match a
    case GetReqID =>
      forall k | 0 <= k < |s.returned| ensures Honoured(s.returned[k], Step(s, a)) {
        assert Honoured(s.returned[k], s);
      }
    case GetSynthetic =>
      forall k | 0 <= k < |s.returned| ensures Honoured(s.returned[k], Step(s, a)) {
        assert Honoured(s.returned[k], s);
      }
    case CallUpdate(t, min) =>
      SameIssuedHonoured(s, Step(s, a));
    case Load(t) =>
      SameIssuedHonoured(s, Step(s, a));
    case CompareAndSwap(t) =>
      SameIssuedHonoured(s, Step(s, a));
  }

  lemma SameIssuedHonoured(s: Sys, s': Sys)
    requires Inv(s) && s'.issued == s.issued && s.counter <= s'.counter
    ensures forall k :: 0 <= k < |s.returned| ==> Honoured(s.returned[k], s')
  {
    forall k | 0 <= k < |s.returned| ensures Honoured(s.returned[k], s') {
      assert Honoured(s.returned[k], s);
    }
  }

  lemma {:induction false} EveryRunInv(as_: seq<Action>, n: nat)
    requires n <= |as_|
    ensures Inv(Run(as_, n))
  {
    if n > 0 {
      EveryRunInv(as_, n - 1);
      StepKeepsInv(Run(as_, n - 1), as_[n - 1]);
    }
  }

  // ----- What callers rely on -----

  /** Issued IDs are never negative and strictly increase, so no two are equal, whatever threads race. */
  lemma IssuedIDsIncrease(as_: seq<Action>, n: nat, i: nat, j: nat)
    requires n <= |as_| && i < j < |Run(as_, n).issued|
    ensures 0 <= Run(as_, n).issued[i] < Run(as_, n).issued[j]
  {
    EveryRunInv(as_, n);
  }

  /**
   Once `UpdateReqID(min)` has returned, every ID issued is at least `min`; and its loop failed at
   most as often as the distance from its first load to `min`.
   */
  lemma ReturnedUpdateIsHonoured(as_: seq<Action>, n: nat, k: nat, i: nat)
    requires n <= |as_| && k < |Run(as_, n).returned|
    ensures var r := Run(as_, n).returned[k];
            && (r.issuedBefore <= i < |Run(as_, n).issued| ==> Run(as_, n).issued[i] >= r.min)
            && (r.first.None? ==> r.fails == 0)
            && (r.first.Some? ==> r.fails <= r.min - r.first.value)
  {
    EveryRunInv(as_, n);
    assert Honoured(Run(as_, n).returned[k], Run(as_, n));
  }

  /** The values asked for by calls of `UpdateReqID` among the first `n` actions. */
  function AskedFor(as_: seq<Action>, n: nat): set<int>
    requires n <= |as_|
  {
    if n == 0 then {}
    else if as_[n - 1].CallUpdate? then AskedFor(as_, n - 1) + {as_[n - 1].min}
    else AskedFor(as_, n - 1)
  }

  /** The ID that follows those issued, when nothing was asked for. */
  function Following(issued: seq<int>, i: nat): int
    requires i <= |issued|
  {
    if i == 0 then 0 else issued[i - 1] + 1
  }

  /** Counter and issued IDs go on by one, or to a value that was asked for. */
  ghost predicate OnlyAsked(s: Sys, asked: set<int>) {
    && (forall t :: t in s.calls ==> s.calls[t].min in asked)
    && (s.counter == Following(s.issued, |s.issued|) || s.counter in asked)
    && (forall i :: 0 <= i < |s.issued| ==> s.issued[i] == Following(s.issued, i) || s.issued[i] in asked)
  }

  lemma StepKeepsAsked(s: Sys, a: Action, asked: set<int>)
    requires OnlyAsked(s, asked)
    ensures OnlyAsked(Step(s, a), if a.CallUpdate? then asked + {a.min} else asked)
  {
    if a.GetReqID? {
      var s' := Step(s, a);
      forall i | 0 <= i < |s'.issued| ensures s'.issued[i] == Following(s'.issued, i) || s'.issued[i] in asked {
        if i < |s.issued| { assert s'.issued[i] == s.issued[i] && Following(s'.issued, i) == Following(s.issued, i); }
      }
    }
  }

  lemma {:induction false} EveryRunOnlyAsked(as_: seq<Action>, n: nat)
    requires n <= |as_|
    ensures OnlyAsked(Run(as_, n), AskedFor(as_, n))
  {
    if n > 0 {
      hide OnlyAsked, Step;
      EveryRunOnlyAsked(as_, n - 1);
      StepKeepsAsked(Run(as_, n - 1), as_[n - 1], AskedFor(as_, n - 1));
    }
  }

  /** No ID is skipped for any other reason: each is the next one, or was asked for by a call of `UpdateReqID`. */
  lemma IssuedIsNextOrAsked(as_: seq<Action>, n: nat, i: nat)
    requires n <= |as_| && i < |Run(as_, n).issued|
    ensures var issued := Run(as_, n).issued;
            issued[i] == (if i == 0 then 0 else issued[i - 1] + 1) || issued[i] in AskedFor(as_, n)
  {
    EveryRunOnlyAsked(as_, n);
  }

  /** An order ID seen in openOrder, for which `UpdateReqID(orderID + 1)` returned, is never issued again. */
  lemma SeenOrderIDNotReissued(as_: seq<Action>, n: nat, k: nat, orderID: int, i: nat)
    requires n <= |as_| && k < |Run(as_, n).returned| && Run(as_, n).returned[k].min == orderID + 1
    requires Run(as_, n).returned[k].issuedBefore <= i < |Run(as_, n).issued|
    ensures Run(as_, n).issued[i] != orderID
  {
    ReturnedUpdateIsHonoured(as_, n, k, i);
  }

  /** All request keys of a run: those from the counter and the synthetic ones. */
  function Keys(s: Sys): seq<int> {
    s.issued + s.syntheticIssued
  }

  /** No two request keys of a run are equal. */
  lemma KeysAreDistinct(as_: seq<Action>, n: nat, i: nat, j: nat)
    requires n <= |as_| && i < j < |Keys(Run(as_, n))|
    ensures Keys(Run(as_, n))[i] != Keys(Run(as_, n))[j]
  {
    EveryRunInv(as_, n);
  }
}
