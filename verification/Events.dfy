/**
 Events and their subscribers, one call at a time: callbacks, bounded channels that drop what
 finds them full, and channels for a single value.  Values are tokens.
 */
module Events {

  /** A callback, the callback behind a `Once` channel, or a channel of a capacity. */
  datatype Kind = Callback | OnlyOnce | Channel(cap: nat)

  /** What a subscriber was given; of a channel, how much has been received, and whether it is closed. */
  datatype Subscriber = Subscriber(kind: Kind, given: seq<int>, taken: nat, closed: bool)

  /** Subscriber `i` has ID `i + 1`; the two lists hold the IDs that are subscribed. */
  datatype State = State(subs: seq<Subscriber>, callbacks: seq<nat>, channels: seq<nat>, panicked: bool)

  const NOBODY := State([], [], [], false)

  datatype Action =
    | Subscribe(kind: Kind)
    | Unsubscribe(id: nat)
    | Emit(val: int)
    | Receive(id: nat)

  /** The first place from `i` on where the ID stands, or the end. */
  function Place(ids: seq<nat>, id: nat, i: nat): (r: nat)
    requires i <= |ids|
    ensures i <= r <= |ids| && (r < |ids| ==> ids[r] == id) && forall k :: i <= k < r ==> ids[k] != id
    decreases |ids| - i
  {
    if i == |ids| || ids[i] == id then i else Place(ids, id, i + 1)
  }

  /** The list without the first occurrence of the ID. */
  function Without(ids: seq<nat>, id: nat): seq<nat> {
    var i := Place(ids, id, 0);
    if i < |ids| then ids[..i] + ids[i + 1..] else ids
  }

  function OnSubscribe(s: State, kind: Kind): State {
    var id := |s.subs| + 1;
    var t := s.(subs := s.subs + [Subscriber(kind, [], 0, false)]);
    if kind.Channel? then t.(channels := s.channels + [id]) else t.(callbacks := s.callbacks + [id])
  }

  function Closed(s: State, id: nat): State {
    if 0 < id <= |s.subs| then s.(subs := s.subs[id - 1 := s.subs[id - 1].(closed := true)]) else s
  }

  /** Callbacks are searched before channels; only a channel is closed. */
  function OnUnsubscribe(s: State, id: nat): State {
    if id in s.callbacks then s.(callbacks := Without(s.callbacks, id))
    else if id in s.channels then Closed(s.(channels := Without(s.channels, id)), id)
    else s
  }

  /** A callback is called; the one behind `Once` sends the first value to its channel and closes it. */
  function Called(u: Subscriber, val: int): Subscriber {
    if u.kind.OnlyOnce? then (if u.given == [] then u.(given := [val], closed := true) else u)
    else u.(given := u.given + [val])
  }

  predicate Full(u: Subscriber) {
    u.kind.Channel? && |u.given| >= u.taken + u.kind.cap
  }

  /** A value is offered to a channel, which drops it when full. */
  function Offered(u: Subscriber, val: int): Subscriber {
    if Full(u) then u else u.(given := u.given + [val])
  }

  function Told(s: State, i: nat, val: int): Subscriber
    requires i < |s.subs|
  {
    if i + 1 in s.callbacks then Called(s.subs[i], val)
    else if i + 1 in s.channels then Offered(s.subs[i], val)
    else s.subs[i]
  }

  /** Sending to a closed channel would panic. */
  predicate ClosedListed(s: State) {
    exists i :: 0 <= i < |s.subs| && i + 1 in s.channels && s.subs[i].closed
  }

  function OnEmit(s: State, val: int): State {
    s.(subs := seq(|s.subs|, i requires 0 <= i < |s.subs| => Told(s, i, val)), panicked := s.panicked || ClosedListed(s))
  }

  function OnReceive(s: State, id: nat): State {
    if 0 < id <= |s.subs| && s.subs[id - 1].taken < |s.subs[id - 1].given|
    then s.(subs := s.subs[id - 1 := s.subs[id - 1].(taken := s.subs[id - 1].taken + 1)]) else s
  }

  function Step(s: State, a: Action): State {
    match a
    case Subscribe(kind) => OnSubscribe(s, kind)
    case Unsubscribe(id) => OnUnsubscribe(s, id)
    case Emit(val) => OnEmit(s, val)
    case Receive(id) => OnReceive(s, id)
  }

  function Run(as_: seq<Action>, n: nat): State
    requires n <= |as_|
  {
    if n == 0 then NOBODY else Step(Run(as_, n - 1), as_[n - 1])
  }

  // ----- Invariant -----

  ghost predicate Distinct(ids: seq<nat>) {
    forall i, j :: 0 <= i < j < |ids| ==> ids[i] != ids[j]
  }

  /** The lists hold IDs of subscribers of their kind, each once; a listed channel is open and within its capacity. */
  ghost predicate Inv(s: State) {
    && !s.panicked && Distinct(s.callbacks) && Distinct(s.channels)
    && (forall id :: id in s.callbacks ==> 0 < id <= |s.subs| && !s.subs[id - 1].kind.Channel?)
    && (forall id :: id in s.channels ==> 0 < id <= |s.subs| && s.subs[id - 1].kind.Channel? && !s.subs[id - 1].closed)
    && (forall i :: 0 <= i < |s.subs| ==> Sound(s.subs[i]))
  }

  predicate Sound(u: Subscriber) {
    && u.taken <= |u.given|
    && (u.kind.Channel? ==> |u.given| <= u.taken + u.kind.cap)
    && (u.kind.OnlyOnce? ==> |u.given| <= 1 && (u.closed <==> u.given != []))
  }

  lemma WithoutRemoves(ids: seq<nat>, id: nat)
    requires Distinct(ids)
    ensures Distinct(Without(ids, id))
    ensures forall x :: x in Without(ids, id) <==> x in ids && x != id
  {
    var i, r := Place(ids, id, 0), Without(ids, id);
    if i < |ids| {
      forall x | x in ids && x != id ensures x in r {
        var k :| 0 <= k < |ids| && ids[k] == x;
        assert r[if k < i then k else k - 1] == x;
      }
    }
  }

  lemma UnsubscribeKeepsInv(s: State, id: nat)
    requires Inv(s)
    ensures Inv(OnUnsubscribe(s, id))
  {
    WithoutRemoves(s.callbacks, id);
    WithoutRemoves(s.channels, id);
  }

  lemma SubscribeKeepsInv(s: State, kind: Kind)
    requires Inv(s)
    ensures Inv(OnSubscribe(s, kind))
  {
    var id := |s.subs| + 1;
    assert id !in s.callbacks && id !in s.channels;
  }

  lemma EmitKeepsInv(s: State, val: int)
    requires Inv(s)
    ensures Inv(OnEmit(s, val))
  {
    var t := OnEmit(s, val);
    assert !ClosedListed(s);
    forall i | 0 <= i < |s.subs| ensures Sound(t.subs[i]) {
      ToldIsSound(s, i, val);
    }
    hide Sound, Called, Offered;
  }

  /** Being told leaves a subscriber sound, of its kind, and a listed channel open. */
  lemma ToldIsSound(s: State, i: nat, val: int)
    requires Inv(s) && i < |s.subs|
    ensures Sound(Told(s, i, val)) && Told(s, i, val).kind == s.subs[i].kind
    ensures i + 1 in s.channels ==> !Told(s, i, val).closed
  {
    hide Distinct;
  }

  lemma StepKeepsInv(s: State, a: Action)
    requires Inv(s)
    ensures Inv(Step(s, a))
  {
    match a
    case Subscribe(kind) => SubscribeKeepsInv(s, kind);
    case Unsubscribe(id) => UnsubscribeKeepsInv(s, id);
    case Emit(val) => EmitKeepsInv(s, val);
    case Receive(_) =>
  }

  /** No run of calls panics, and no channel ever holds more than its capacity. */
  lemma {:induction false} EveryRunInv(as_: seq<Action>, n: nat)
    requires n <= |as_|
    ensures Inv(Run(as_, n)) && !Run(as_, n).panicked
  {
    if n > 0 {
      EveryRunInv(as_, n - 1);
      StepKeepsInv(Run(as_, n - 1), as_[n - 1]);
    }
  }

  // ----- What a trace says about one subscriber -----

  function Subscriptions(as_: seq<Action>, n: nat): nat
    requires n <= |as_|
  {
    if n == 0 then 0 else Subscriptions(as_, n - 1) + if as_[n - 1].Subscribe? then 1 else 0
  }

  /** Was the ID handed out, and not unsubscribed since? */
  predicate Subscribed(as_: seq<Action>, n: nat, id: nat)
    requires n <= |as_|
  {
    n > 0 &&
    if as_[n - 1].Subscribe? && Subscriptions(as_, n) == id then true
    else if as_[n - 1] == Unsubscribe(id) then false
    else Subscribed(as_, n - 1, id)
  }

  /** The values emitted while it was subscribed. */
  function Heard(as_: seq<Action>, n: nat, id: nat): seq<int>
    requires n <= |as_|
  {
    if n == 0 then []
    else if as_[n - 1].Emit? && Subscribed(as_, n - 1, id) then Heard(as_, n - 1, id) + [as_[n - 1].val]
    else Heard(as_, n - 1, id)
  }

  /** The kind it subscribed as. */
  function KindOf(as_: seq<Action>, n: nat, id: nat): Kind
    requires n <= |as_|
  {
    if n == 0 then Callback
    else if as_[n - 1].Subscribe? && Subscriptions(as_, n) == id then as_[n - 1].kind
    else KindOf(as_, n - 1, id)
  }

  /** How many values a channel holds: one more for each emitted while there was room, one less for each received. */
  function Held(as_: seq<Action>, n: nat, id: nat): nat
    requires n <= |as_|
  {
    if n == 0 then 0
    else if as_[n - 1].Emit? && Subscribed(as_, n - 1, id) && Room(KindOf(as_, n - 1, id), Held(as_, n - 1, id))
    then Held(as_, n - 1, id) + 1
    else if as_[n - 1] == Receive(id) && Held(as_, n - 1, id) > 0 then Held(as_, n - 1, id) - 1
    else Held(as_, n - 1, id)
  }

  /** Does a channel that holds so many have room for one more? */
  predicate Room(kind: Kind, held: nat) {
    kind.Channel? && held < kind.cap
  }

  /** How many of them found its buffer full. */
  function Dropped(as_: seq<Action>, n: nat, id: nat): nat
    requires n <= |as_|
  {
    if n == 0 then 0
    else Dropped(as_, n - 1, id) +
         if as_[n - 1].Emit? && Subscribed(as_, n - 1, id) && !Room(KindOf(as_, n - 1, id), Held(as_, n - 1, id))
         then 1 else 0
  }

  /** Those that did not, in order. */
  function Kept(as_: seq<Action>, n: nat, id: nat): seq<int>
    requires n <= |as_|
  {
    if n == 0 then []
    else if as_[n - 1].Emit? && Subscribed(as_, n - 1, id) && Room(KindOf(as_, n - 1, id), Held(as_, n - 1, id))
    then Kept(as_, n - 1, id) + [as_[n - 1].val]
    else Kept(as_, n - 1, id)
  }

  predicate Listed(s: State, id: nat) {
    id in s.callbacks || id in s.channels
  }

  lemma ListedStep(s: State, a: Action, id: nat)
    requires Inv(s)
    ensures Listed(Step(s, a), id) <==>
            (a.Subscribe? && id == |s.subs| + 1) || (a != Unsubscribe(id) && Listed(s, id))
    ensures |Step(s, a).subs| == |s.subs| + if a.Subscribe? then 1 else 0
  {
    match a
    case Unsubscribe(x) => UnsubscribeLists(s, x, id);
    case _ =>
  }

  lemma UnsubscribeLists(s: State, x: nat, id: nat)
    requires Inv(s)
    ensures Listed(OnUnsubscribe(s, x), id) <==> x != id && Listed(s, id)
    ensures |OnUnsubscribe(s, x).subs| == |s.subs|
  {
    WithoutRemoves(s.callbacks, x);
    WithoutRemoves(s.channels, x);
  }

  lemma {:induction false} EveryRunLists(as_: seq<Action>, n: nat, id: nat)
    requires n <= |as_|
    ensures |Run(as_, n).subs| == Subscriptions(as_, n)
    ensures Listed(Run(as_, n), id) <==> Subscribed(as_, n, id)
  {
    if n > 0 {
      EveryRunLists(as_, n - 1, id);
      EveryRunInv(as_, n - 1);
      ListedStep(Run(as_, n - 1), as_[n - 1], id);
    }
  }

  // ----- Delivery -----

  /** What a trace says of one subscriber. */
  datatype Account = Account(kind: Kind, heard: seq<int>, kept: seq<int>, held: nat, subscribed: bool)

  function AccountOf(as_: seq<Action>, n: nat, id: nat): Account
    requires n <= |as_|
  {
    Account(KindOf(as_, n, id), Heard(as_, n, id), Kept(as_, n, id), Held(as_, n, id), Subscribed(as_, n, id))
  }

  /**
   What a subscriber should have been given: a callback everything, a `Once` channel the first
   value, a channel what there was room for, of which it still holds what was not received; and a
   channel is closed exactly when it is no longer subscribed.
   */
  ghost predicate Served(u: Subscriber, acc: Account) {
    && u.kind == acc.kind
    && match acc.kind
       case Callback => u.given == acc.heard
       case OnlyOnce => u.given == if acc.heard == [] then [] else acc.heard[..1]
       case Channel(_) => u.given == acc.kept && u.taken + acc.held == |u.given| && u.closed == !acc.subscribed
  }

  /** What one call makes of an account. */
  function After(acc: Account, a: Action, id: nat): Account {
    match a
    case Emit(val) =>
      if !acc.subscribed then acc
      else if Room(acc.kind, acc.held) then acc.(heard := acc.heard + [val], kept := acc.kept + [val], held := acc.held + 1)
      else acc.(heard := acc.heard + [val])
    case Unsubscribe(x) => if x == id then acc.(subscribed := false) else acc
    case Receive(x) => if x == id && acc.held > 0 then acc.(held := acc.held - 1) else acc
    case _ => acc
  }

  lemma AccountStep(as_: seq<Action>, n: nat, id: nat)
    requires n < |as_| && id <= Subscriptions(as_, n)
    ensures AccountOf(as_, n + 1, id) == After(AccountOf(as_, n, id), as_[n], id)
  {
  }

  lemma EmitServes(s: State, val: int, id: nat, acc: Account)
    requires Inv(s) && 0 < id <= |s.subs| && Served(s.subs[id - 1], acc) && (acc.subscribed <==> Listed(s, id))
    ensures Served(OnEmit(s, val).subs[id - 1], After(acc, Emit(val), id))
  {
  }

  lemma UnsubscribeServes(s: State, x: nat, id: nat, acc: Account)
    requires Inv(s) && 0 < id <= |s.subs| && Served(s.subs[id - 1], acc) && (acc.subscribed <==> Listed(s, id))
    ensures |OnUnsubscribe(s, x).subs| == |s.subs|
    ensures Served(OnUnsubscribe(s, x).subs[id - 1], After(acc, Unsubscribe(x), id))
  {
  }

  /** One call, with what it adds to the account of a subscriber that exists. */
  lemma CallServes(s: State, a: Action, id: nat, acc: Account)
    requires Inv(s) && 0 < id <= |s.subs| && Served(s.subs[id - 1], acc) && (acc.subscribed <==> Listed(s, id))
    ensures 0 < id <= |Step(s, a).subs| && Served(Step(s, a).subs[id - 1], After(acc, a, id))
  {
    match a
    case Subscribe(_) =>
    case Unsubscribe(x) => UnsubscribeServes(s, x, id, acc);
    case Emit(val) => EmitServes(s, val, id, acc);
    case Receive(_) =>
  }

  lemma {:induction false} NothingHeardYet(as_: seq<Action>, n: nat, id: nat)
    requires n <= |as_| && id > Subscriptions(as_, n)
    ensures Heard(as_, n, id) == Kept(as_, n, id) == [] && !Subscribed(as_, n, id) && Held(as_, n, id) == 0
  {
    if n > 0 {
      NothingHeardYet(as_, n - 1, id);
    }
  }

  /** The subscriber exists and was served. */
  ghost predicate ServedAt(s: State, as_: seq<Action>, n: nat, id: nat)
    requires n <= |as_|
  {
    0 < id <= |s.subs| && Served(s.subs[id - 1], AccountOf(as_, n, id))
  }

  lemma FreshIsServed(as_: seq<Action>, n: nat, id: nat)
    requires n < |as_| && Subscriptions(as_, n) < id <= Subscriptions(as_, n + 1)
    ensures ServedAt(Run(as_, n + 1), as_, n + 1, id)
  {
    EveryRunLists(as_, n, id);
    NothingHeardYet(as_, n, id);
  }

  lemma StepServes(as_: seq<Action>, n: nat, id: nat)
    requires n < |as_| && ServedAt(Run(as_, n), as_, n, id)
    ensures ServedAt(Run(as_, n + 1), as_, n + 1, id)
  {
    EveryRunLists(as_, n, id);
    EveryRunInv(as_, n);
    AccountStep(as_, n, id);
    CallServes(Run(as_, n), as_[n], id, AccountOf(as_, n, id));
    hide Inv, After, Served, Listed;
  }

  /**
   Over every run each callback was called with exactly the values emitted while it was
   subscribed, in order; a `Once` channel got the first of them, however late its callback is
   unsubscribed; and a channel got all but those for which it had no room, in order, holds what
   was not received yet, and is closed just when it is no longer subscribed.
   */
  lemma {:induction false} EveryRunServes(as_: seq<Action>, n: nat, id: nat)
    requires n <= |as_| && 0 < id <= Subscriptions(as_, n)
    ensures ServedAt(Run(as_, n), as_, n, id)
  {
    if id > Subscriptions(as_, n - 1) {
      FreshIsServed(as_, n - 1, id);
    } else {
      EveryRunServes(as_, n - 1, id);
      StepServes(as_, n - 1, id);
    }
  }

  /** What is heard is either kept or dropped. */
  lemma {:induction false} KeptOrDropped(as_: seq<Action>, n: nat, id: nat)
    requires n <= |as_|
    ensures |Kept(as_, n, id)| + Dropped(as_, n, id) == |Heard(as_, n, id)|
    ensures Dropped(as_, n, id) == 0 ==> Kept(as_, n, id) == Heard(as_, n, id)
  {
    if n > 0 {
      KeptOrDropped(as_, n - 1, id);
    }
  }

  /** A channel misses nothing if and only if no value emitted while it was subscribed found it full. */
  lemma MissesNothingIff(as_: seq<Action>, n: nat, id: nat)
    requires n <= |as_| && 0 < id <= Subscriptions(as_, n) == |Run(as_, n).subs|
    requires Run(as_, n).subs[id - 1].kind.Channel?
    ensures Run(as_, n).subs[id - 1].given == Heard(as_, n, id) <==> Dropped(as_, n, id) == 0
  {
    EveryRunServes(as_, n, id);
    KeptOrDropped(as_, n, id);
  }
}
