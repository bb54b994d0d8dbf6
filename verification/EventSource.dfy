/** An event as an object: its two lists of subscribers, changed in place, and the subscribers themselves. */
module EventSource {
  import opened Events

  /**
   A callback, the callback and channel that `Once` makes, or a channel; a channel holds what
   it was given and nobody has taken yet.
   */
  class Listener {
    const kind: Kind
    var given: seq<int>
    var taken: nat
    var closed: bool

    ghost predicate Shows(u: Subscriber)
      reads this
    {
      kind == u.kind && given == u.given && taken == u.taken && closed == u.closed
    }

    constructor (kind: Kind)
      ensures Shows(Subscriber(kind, [], 0, false))
    {
      this.kind, given, taken, closed := kind, [], 0, false;
    }

    /** Calls the callback; the one behind `Once` runs once. */
    method Call(val: int, ghost u: Subscriber)
      requires Shows(u) && !kind.Channel?
      modifies this
      ensures Shows(Called(u, val))
    {
      if kind.OnlyOnce? {
        if |given| == 0 {
          given := [val];
          closed := true;
        }
      } else {
        given := given + [val];
      }
    }

    /** Offers a value to the channel, which drops it when full. */
    method Offer(val: int, ghost u: Subscriber)
      requires Shows(u) && kind.Channel? && !closed
      modifies this
      ensures Shows(Offered(u, val))
    {
      if |given| < taken + kind.cap {
        given := given + [val];
      }
    }
  }

  datatype Entry = Entry(id: nat, listener: Listener)

  class Event {
    var callbacks: seq<Entry>
    var channels: seq<Entry>
    var nextID: nat
    ghost var book: State
    /** Every subscriber ever made; the one with ID `i + 1` is number `i`. */
    ghost var all: seq<Listener>

    ghost predicate Apart()
      reads this
    {
      forall i, j :: 0 <= i < j < |all| ==> all[i] != all[j]
    }

    /** The entries pair the IDs with their subscribers. */
    ghost predicate Pairs(entries: seq<Entry>, ids: seq<nat>)
      reads this
    {
      && |entries| == |ids|
      && forall k :: 0 <= k < |ids| ==> 0 < ids[k] <= |all| && entries[k] == Entry(ids[k], all[ids[k] - 1])
    }

    /** Everything that an emission does not change. */
    ghost predicate Steady()
      reads this
    {
      && Inv(book) && Apart() && |all| == |book.subs| == nextID
      && Pairs(callbacks, book.callbacks) && Pairs(channels, book.channels)
    }

    ghost predicate Valid()
      reads this, all
    {
      Steady() && forall i :: 0 <= i < |all| ==> all[i].Shows(book.subs[i])
    }

    constructor ()
      ensures Valid() && book == NOBODY && all == []
    {
      callbacks, channels, nextID := [], [], 0;
      book, all := NOBODY, [];
    }

    /** `Subscribe`, `Chan` and the subscription that `Once` makes. */
    method Subscribe(kind: Kind) returns (listener: Listener, id: nat)
      requires Valid()
      modifies this
      ensures Valid() && book == OnSubscribe(old(book), kind)
      ensures fresh(listener) && all == old(all) + [listener] && id == |all|
    {
      hide Inv;
      SubscribeKeepsInv(book, kind);
      nextID := nextID + 1;
      id := nextID;
      listener := new Listener(kind);
      all := all + [listener];
      if kind.Channel? {
        channels := channels + [Entry(id, listener)];
      } else {
        callbacks := callbacks + [Entry(id, listener)];
      }
      book := OnSubscribe(book, kind);
    }

    /** The loop that looks an ID up in a list; it stops at the first match. */
    static method Find(entries: seq<Entry>, id: nat) returns (i: nat)
      ensures i <= |entries| && (i < |entries| ==> entries[i].id == id)
      ensures forall k :: 0 <= k < i ==> entries[k].id != id
    {
      i := 0;
      while i < |entries|
        invariant i <= |entries|
        invariant forall k :: 0 <= k < i ==> entries[k].id != id
      {
        if entries[i].id == id {
          return;
        }
        i := i + 1;
      }
    }

    lemma CutPairs(entries: seq<Entry>, ids: seq<nat>, i: nat)
      requires Pairs(entries, ids) && i < |ids| && Distinct(ids)
      ensures Pairs(entries[..i] + entries[i + 1..], Events.Without(ids, ids[i]))
    {
      WithoutAt(ids, i, ids[i]);
      var cut, rest := entries[..i] + entries[i + 1..], ids[..i] + ids[i + 1..];
      forall k | 0 <= k < |rest| ensures 0 < rest[k] <= |all| && cut[k] == Entry(rest[k], all[rest[k] - 1]) {
        var j := if k < i then k else k + 1;
        assert rest[k] == ids[j] && cut[k] == entries[j];
      }
    }

    /** Cuts the subscription out of its list. */
    method RemoveCallback(i: nat)
      requires Valid() && i < |callbacks|
      modifies this`callbacks, this`book
      ensures Valid() && book == OnUnsubscribe(old(book), old(callbacks[i].id))
    {
      var id := callbacks[i].id;
      assert book.callbacks[i] == id;
      UnsubscribeKeepsInv(book, id);
      CutPairs(callbacks, book.callbacks, i);
      callbacks := callbacks[..i] + callbacks[i + 1..];
      book := OnUnsubscribe(book, id);
    }

    method RemoveChannel(i: nat)
      requires Valid() && i < |channels| && channels[i].id !in book.callbacks
      modifies this`channels, this`book, channels[i].listener
      ensures Valid() && book == OnUnsubscribe(old(book), old(channels[i].id))
    {
      var id := channels[i].id;
      assert book.channels[i] == id;
      UnsubscribeKeepsInv(book, id);
      CutPairs(channels, book.channels, i);
      channels[i].listener.closed := true;
      channels := channels[..i] + channels[i + 1..];
      book := OnUnsubscribe(book, id);
    }

    /** The callbacks are searched first, then the channels. */
    method Unsubscribe(id: nat)
      requires Valid()
      modifies this, all
      ensures Valid() && book == OnUnsubscribe(old(book), id)
    {
      var i := Find(callbacks, id);
      if i < |callbacks| {
        RemoveCallback(i);
        return;
      }
      i := Find(channels, id);
      if i < |channels| {
        RemoveChannel(i);
      }
    }

    // ----- Emission -----

    /** The subscribers when the first `k` callbacks and the first `m` channels have been told. */
    ghost predicate ToldTo(k: nat, m: nat, val: int)
      requires k <= |book.callbacks| && m <= |book.channels| && |all| == |book.subs|
      reads this, all
    {
      forall i :: 0 <= i < |all| ==> all[i].Shows(Midway(book, i, k, m, val))
    }

    method CallOne(k: nat, val: int)
      requires Steady() && k < |callbacks| && ToldTo(k, 0, val)
      modifies callbacks[k].listener
      ensures ToldTo(k + 1, 0, val)
    {
      ghost var i := book.callbacks[k] - 1;
      MidwayCall(book, i, k, val);
      callbacks[k].listener.Call(val, book.subs[i]);
    }

    method OfferOne(m: nat, val: int)
      requires Steady() && m < |channels| && ToldTo(|book.callbacks|, m, val)
      modifies channels[m].listener
      ensures ToldTo(|book.callbacks|, m + 1, val)
    {
      ghost var i := book.channels[m] - 1;
      MidwayOffer(book, i, m, val);
      channels[m].listener.Offer(val, book.subs[i]);
    }

    method CallAll(val: int)
      requires Valid()
      modifies all
      ensures Steady() && ToldTo(|book.callbacks|, 0, val)
    {
      hide Inv, Called;
      for k := 0 to |callbacks|
        invariant Steady() && ToldTo(k, 0, val)
      {
        CallOne(k, val);
      }
    }

    method OfferAll(val: int)
      requires Steady() && ToldTo(|book.callbacks|, 0, val)
      modifies all
      ensures Steady() && ToldTo(|book.callbacks|, |book.channels|, val)
    {
      hide Inv, Midway;
      for m := 0 to |channels|
        invariant Steady() && ToldTo(|book.callbacks|, m, val)
      {
        OfferOne(m, val);
      }
    }

    lemma AllShow(val: int)
      requires Steady() && ToldTo(|book.callbacks|, |book.channels|, val)
      ensures var told := OnEmit(book, val);
              && told.callbacks == book.callbacks && told.channels == book.channels && |told.subs| == |all|
              && forall i :: 0 <= i < |all| ==> all[i].Shows(told.subs[i])
    {
      hide Inv, Midway, Events.Told;
      AllTold(book, val);
    }

    /** Callbacks first, then channels. */
    method Emit(val: int)
      requires Valid()
      modifies this`book, all
      ensures Valid() && book == OnEmit(old(book), val)
    {
      hide Inv, OnEmit, ToldTo;
      CallAll(val);
      OfferAll(val);
      EmitKeepsInv(book, val);
      AllShow(val);
      book := OnEmit(book, val);
      assert Steady() by {
        hide Listener.Shows;
      }
    }
  }

  lemma WithoutAt(ids: seq<nat>, i: nat, id: nat)
    requires i < |ids| && ids[i] == id && Distinct(ids)
    ensures Events.Without(ids, id) == ids[..i] + ids[i + 1..]
  {
    var j := Place(ids, id, 0);
    assert j == i;
  }

  function Midway(s: State, i: nat, k: nat, m: nat, val: int): Subscriber
    requires i < |s.subs| && k <= |s.callbacks| && m <= |s.channels|
  {
    if i + 1 in s.callbacks[..k] then Called(s.subs[i], val)
    else if i + 1 in s.channels[..m] then Offered(s.subs[i], val)
    else s.subs[i]
  }

  lemma MidwayCall(s: State, i: nat, k: nat, val: int)
    requires Inv(s) && i < |s.subs| && k < |s.callbacks| && s.callbacks[k] == i + 1
    ensures Midway(s, i, k, 0, val) == s.subs[i] && !s.subs[i].kind.Channel?
    ensures forall j :: 0 <= j < |s.subs| ==>
                          Midway(s, j, k + 1, 0, val) == if j == i then Called(s.subs[i], val) else Midway(s, j, k, 0, val)
  {
    assert i + 1 in s.callbacks;
    assert s.callbacks[..k + 1] == s.callbacks[..k] + [i + 1];
  }

  lemma MidwayOffer(s: State, i: nat, m: nat, val: int)
    requires Inv(s) && i < |s.subs| && m < |s.channels| && s.channels[m] == i + 1
    ensures Midway(s, i, |s.callbacks|, m, val) == s.subs[i] && s.subs[i].kind.Channel? && !s.subs[i].closed
    ensures forall j :: 0 <= j < |s.subs| ==>
                          Midway(s, j, |s.callbacks|, m + 1, val)
                          == if j == i then Offered(s.subs[i], val) else Midway(s, j, |s.callbacks|, m, val)
  {
    assert i + 1 in s.channels;
    assert s.callbacks[..|s.callbacks|] == s.callbacks;
    assert s.channels[..m + 1] == s.channels[..m] + [i + 1];
  }

  lemma AllTold(s: State, val: int)
    requires Inv(s)
    ensures forall i :: 0 <= i < |s.subs| ==>
                          Midway(s, i, |s.callbacks|, |s.channels|, val) == OnEmit(s, val).subs[i]
  {
    assert s.callbacks[..|s.callbacks|] == s.callbacks && s.channels[..|s.channels|] == s.channels;
  }
}
