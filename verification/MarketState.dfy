/**
 The market-data state as the client keeps it: ticker objects shared by two maps and a set of
 pending ones, updated in place.  Each method is proved to do to the ghost `book` what the
 corresponding function of `Tickers` says, in whatever order the maps are ranged over.
 */
module MarketState {
  import opened Wrappers
  import opened Tickers

  class Ticker {
    /** Position in the order of creation. */
    ghost const id: nat
    var ticks: seq<Tick>

    constructor (ghost id: nat)
      ensures this.id == id && ticks == []
    {
      this.id := id;
      ticks := [];
    }
  }

  /** Ranges over the map, in any order, until an entry holds the ticker. */
  method FindRequest(m: map<int, Ticker>, ticker: Ticker) returns (found: Option<int>)
    ensures match found
            case None => forall r :: r in m ==> m[r] != ticker
            case Some(r) => r in m && m[r] == ticker
  {
    var todo := m.Items;
    while todo != {}
      invariant todo <= m.Items
      invariant forall r :: r in m && (r, m[r]) !in todo ==> m[r] != ticker
      decreases |todo|
    {
      var entry :| entry in todo;
      if entry.1 == ticker {
        return Some(entry.0);
      }
      todo := todo - {entry};
    }
    return None;
  }

  lemma TickKeepsWF(m: Market, reqID: int, tick: Option<Tick>)
    requires WF(m)
    ensures WF(OnTick(m, reqID, tick))
    ensures reqID in m.reqID2Ticker ==> m.reqID2Ticker[reqID] < |m.heap|
  {
  }

  lemma ClearedKeepsWF(m: Market)
    requires WF(m)
    ensures WF(m.(heap := Cleared(m.heap, m.pending), pending := {}))
  {
  }

  class MarketData {
    var tickers: map<int, Ticker>
    var reqID2Ticker: map<int, Ticker>
    var pendingTickers: set<Ticker>

    ghost var book: Market
    ghost var all: seq<Ticker>

    /** The ticker objects hold the tick lists of the book. */
    ghost predicate HeapShown()
      reads this, all
    {
      && |all| == |book.heap|
      && forall t :: 0 <= t < |all| ==> all[t].id == t && all[t].ticks == book.heap[t].ticks
    }

    ghost predicate Valid()
      reads this, all
    {
      && WF(book) && HeapShown()
      && tickers.Keys == book.tickers.Keys
      && (forall k :: k in tickers ==> tickers[k] == all[book.tickers[k]])
      && reqID2Ticker.Keys == book.reqID2Ticker.Keys
      && (forall r :: r in reqID2Ticker ==> reqID2Ticker[r] == all[book.reqID2Ticker[r]])
      && (forall t :: t in pendingTickers ==> t in all && t.id in book.pending)
      && (forall i :: i in book.pending ==> all[i] in pendingTickers)
    }

    constructor ()
      ensures Valid() && book == EMPTY && all == []
    {
      tickers, reqID2Ticker, pendingTickers := map[], map[], {};
      book, all := EMPTY, [];
    }

    /** First lock section of `ReqMktData`. */
    method Subscribe(key: int, reqID: int) returns (ticker: Ticker)
      requires Valid()
      modifies this
      ensures Valid() && book == OnSubscribe(old(book), key, reqID)
      ensures fresh(ticker) && all == old(all) + [ticker]
    {
      ticker := new Ticker(|all|);
      tickers := tickers[key := ticker];
      reqID2Ticker := reqID2Ticker[reqID := ticker];
      all := all + [ticker];
      book := OnSubscribe(book, key, reqID);
    }

    /** Second lock section of `ReqMktData`, taken when the request could not be sent. */
    method SubscribeFailed(key: int, reqID: int)
      requires Valid()
      modifies this`tickers, this`reqID2Ticker, this`book
      ensures Valid() && book == OnSubscribeFailed(old(book), key, reqID)
    {
      tickers := tickers - {key};
      reqID2Ticker := reqID2Ticker - {reqID};
      book := OnSubscribeFailed(book, key, reqID);
    }

    /**
     `CancelMktData`: the loop stops at the first request ID whose ticker matches.  In a registered
     state, whatever order it meets them in, it finds the one request ID of the ticker and leaves
     the ticker in neither index.
     */
    method CancelMktData(key: int) returns (sent: Option<int>)
      requires Valid()
      modifies this`tickers, this`reqID2Ticker, this`book
      ensures Valid() && key !in tickers
      ensures key !in old(tickers) ==> sent == None && book == old(book)
      ensures key in old(tickers) ==>
                match sent
                case None => forall r :: r in old(reqID2Ticker) ==> old(reqID2Ticker)[r] != old(tickers)[key]
                case Some(r) => r in old(reqID2Ticker) && old(reqID2Ticker)[r] == old(tickers)[key]
      ensures forall used :: Registered(old(book), used) ==>
                             && book == OnCancel(old(book), key)
                             && (key in old(tickers) ==> sent == Some(old(book).heap[old(book).tickers[key]].reqID))
    {
      sent := None;
      if key in tickers {
        var ticker := tickers[key];
        tickers := tickers - {key};
        book := book.(tickers := book.tickers - {key});
        sent := RemoveRequest(ticker);
      }
    }

    method RemoveRequest(ticker: Ticker) returns (sent: Option<int>)
      requires Valid()
      modifies this`reqID2Ticker, this`book
      ensures Valid()
      ensures match sent
              case None => book == old(book) && forall r :: r in reqID2Ticker ==> reqID2Ticker[r] != ticker
              case Some(r) => r in old(reqID2Ticker) && old(reqID2Ticker)[r] == ticker
                              && book == old(book).(reqID2Ticker := old(book).reqID2Ticker - {r})
    {
      sent := FindRequest(reqID2Ticker, ticker);
      if sent.Some? {
        reqID2Ticker := reqID2Ticker - {sent.value};
        book := book.(reqID2Ticker := book.reqID2Ticker - {sent.value});
      }
    }

    /** `handleTickString` for the parts of its value; other tick handlers are the case without a tick. */
    method HandleTick(reqID: int, tickType: int, parts: seq<string>, parse: string -> Option<real>)
      requires Valid()
      modifies this`pendingTickers, this`book, all
      ensures Valid() && book == OnTick(old(book), reqID, RtVolumeTick(tickType, parts, parse))
    {
      TickKeepsWF(book, reqID, RtVolumeTick(tickType, parts, parse));
      hide WF, RtVolumeTick;
      if reqID in reqID2Ticker {
        var ticker := reqID2Ticker[reqID];
        if tickType == 48 || tickType == 77 {
          ProcessRtVolume(ticker, tickType, parts, parse);
        }
        pendingTickers := pendingTickers + {ticker};
      }
      book := OnTick(book, reqID, RtVolumeTick(tickType, parts, parse));
    }

    /** `processRtVolumeTick`, the part that appends to the tick list */
    method ProcessRtVolume(ticker: Ticker, tickType: int, parts: seq<string>, parse: string -> Option<real>)
      requires tickType == 48 || tickType == 77
      modifies ticker
      ensures ticker.ticks == WithTicks(TickerRec(0, 0, old(ticker.ticks)), RtVolumeTick(tickType, parts, parse)).ticks
    {
      if |parts| < 6 {
        return;
      }
      if parts[0] != "" {
        var price, size := parse(parts[0]), parse(parts[1]);
        if price.Some? && size.Some? {
          ticker.ticks := ticker.ticks + [Tick(tickType, price.value, size.value)];
        }
      }
    }

    /** `GetPendingTickers`: each pending ticker once, in some order */
    method GetPendingTickers() returns (pending: seq<Ticker>, ghost order: seq<nat>)
      requires Valid()
      ensures |order| == |pending| && forall i :: 0 <= i < |order| ==> order[i] < |all| && pending[i] == all[order[i]]
      ensures Enumerates(order, book.pending)
    {
      pending, order := [], [];
      var todo := pendingTickers;
      while todo != {}
        invariant todo <= pendingTickers && |order| == |pending|
        invariant forall i :: 0 <= i < |order| ==>
                                order[i] < |all| && pending[i] == all[order[i]] && pending[i] in pendingTickers - todo
        invariant forall t :: t in pendingTickers - todo ==> t.id in order
        invariant forall i, j :: 0 <= i < j < |order| ==> order[i] != order[j]
        decreases |todo|
      {
        var ticker :| ticker in todo;
        assert forall i :: 0 <= i < |order| ==> order[i] != ticker.id;
        pending, order := pending + [ticker], order + [ticker.id];
        todo := todo - {ticker};
      }
    }

    /** `ClearPendingTickers` */
    method ClearPendingTickers()
      requires Valid()
      modifies this`pendingTickers, this`book, all
      ensures Valid() && book == old(book).(heap := Cleared(old(book).heap, old(book).pending), pending := {})
    {
      hide WF;
      ClearedKeepsWF(book);
      ClearTicks();
      pendingTickers := {};
      book := book.(heap := Cleared(book.heap, book.pending), pending := {});
    }

    method ClearTicks()
      requires Valid()
      modifies all
      ensures forall t :: 0 <= t < |all| ==>
                            all[t].ticks == Cleared(book.heap, book.pending)[t].ticks && all[t].id == t
    {
      hide WF;
      var todo := pendingTickers;
      while todo != {}
        invariant todo <= pendingTickers
        invariant forall t :: 0 <= t < |all| ==>
                                all[t].ticks == if all[t] in pendingTickers - todo then [] else old(all[t].ticks)
        decreases |todo|
        modifies all
      {
        var ticker :| ticker in todo;
        ticker.ticks := [];
        todo := todo - {ticker};
      }
    }

    /** `OnDataProcessed`: fire every pending ticker's UpdateEvent, then clear. */
    method OnDataProcessed() returns (ghost order: seq<nat>)
      requires Valid()
      modifies this`pendingTickers, this`book, all
      ensures Valid() && Enumerates(order, old(book).pending)
      ensures forall i :: 0 <= i < |order| ==> order[i] < |old(book).heap|
      ensures book == OnProcessed(old(book), order)
    {
      var pending;
      pending, order := GetPendingTickers();
      FireUpdates(pending, order);
      ClearPendingTickers();
    }

    method FireUpdates(pending: seq<Ticker>, ghost order: seq<nat>)
      requires Valid() && |order| == |pending|
      requires forall i :: 0 <= i < |order| ==> order[i] < |all| && pending[i] == all[order[i]]
      modifies this`book
      ensures Valid() && book == old(book).(updates := old(book).updates + Updates(old(book).heap, order, |order|))
    {
      ghost var fired: seq<Update> := [];
      for i := 0 to |pending|
        invariant fired == Updates(book.heap, order, i)
      {
        fired := fired + [Update(pending[i].id, pending[i].ticks)];
      }
      book := book.(updates := book.updates + fired);
    }

    /** `MarketState.reset` */
    method Reset()
      requires Valid()
      modifies this`tickers, this`reqID2Ticker, this`pendingTickers, this`book
      ensures Valid() && book == OnReset(old(book))
    {
      tickers, reqID2Ticker, pendingTickers := map[], map[], {};
      book := OnReset(book);
    }
  }
}
