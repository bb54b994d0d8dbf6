/** The client object whose loop reads a connection, run against the frames that arrive. */
module Client {
  import opened Wire
  import opened ReadLoop

  class Client {
    var serverVersion: int64
    var hasReqID: bool
    var apiReady: bool
    var accounts: seq<string>
    var reqIDSeq: int64
    /** The calls of the hooks, the frames at which OnReady was called, and the loop's own state. */
    ghost var book: State

    ghost predicate Valid()
      reads this
    {
      && book.serverVersion == serverVersion && book.hasReqID == hasReqID && book.apiReady == apiReady
      && book.accounts == accounts && book.nextID == reqIDSeq
    }

    constructor (first: int64)
      ensures Valid() && book == Connected(first)
    {
      serverVersion, hasReqID, apiReady, accounts, reqIDSeq := 0, false, false, [], first;
      book := Connected(first);
    }

    /**
     Raises the next request ID to `min`, if it is below.  With no other thread at work the
     compare-and-swap succeeds the first time; the module ReqIDs has the races.
     */
    method UpdateReqID(min: int64)
      requires Valid()
      modifies this`reqIDSeq, this`book
      ensures Valid() && book == old(book).(nextID := Max(old(book.nextID), min))
    {
      var current := reqIDSeq;
      if current >= min {
        return;
      }
      reqIDSeq := min;
      book := book.(nextID := min);
    }

    static method SplitAccounts(s: string) returns (names: seq<string>)
      ensures names == AccountsIn(s)
    {
      names := [];
      var pieces := Split(s, ',', |s|);
      for i := 0 to |pieces|
        invariant names == Names(pieces, i)
      {
        var a := TrimSpace(pieces[i]);
        if a != "" {
          names := names + [a];
        }
      }
    }

    /** The snooping part of a turn of the loop. */
    method Snoop(f: Frame, ghost n: nat)
      requires Valid()
      modifies this
      ensures Valid() && book == OnSnoop(old(book), f, n)
      ensures book.ended == old(book).ended && book.inBatch == old(book).inBatch
    {
      if apiReady || |f.fields| < 3 {
        return;
      }
      var msgID := ParseInt(f.fields[0]);
      if msgID == NEXT_VALID_ID {
        UpdateReqID(ParseInt(f.fields[2]));
        hasReqID := true;
        book := book.(hasReqID := true);
      } else if msgID == MANAGED_ACCOUNTS {
        accounts := SplitAccounts(f.fields[2]);
        book := book.(accounts := accounts);
      }
      if hasReqID && |accounts| > 0 {
        apiReady := true;
        book := book.(apiReady := true, readies := book.readies + [n]);
      }
    }

    /** The calls of the batch hooks and of the handler in a turn of the loop. */
    method Dispatch(f: Frame, inBatch: bool) returns (still: bool)
      requires Valid() && book.inBatch == inBatch
      modifies this`book
      ensures Valid() && book == OnDispatch(old(book), f) && still == book.inBatch && book.ended == old(book).ended
    {
      still := inBatch;
      ghost var hooks := book.hooks;
      if !still {
        still := true;
        hooks := hooks + [Arrived];
      }
      hooks := hooks + [Message(f.fields)];
      if !f.pending {
        still := false;
        hooks := hooks + [Processed];
      }
      book := book.(inBatch := still, hooks := hooks);
      assert book == OnDispatch(old(book), f);
    }

    /** Reads the frames one by one until they end or the version is refused. */
    method ReadAll(frames: seq<Frame>)
      requires Valid() && book == Connected(reqIDSeq)
      modifies this
      ensures Valid() && book == Run(old(reqIDSeq), frames, |frames|)
    {
      hide ParseInt, IsInt, OnSnoop, OnDispatch;
      var inBatch := false;
      for n := 0 to |frames|
        invariant Valid() && book == Run(old(reqIDSeq), frames, n) && book.inBatch == inBatch && !book.ended
      {
        var f := frames[n];
        if serverVersion == 0 && |f.fields| == 2 {
          if !IsInt(f.fields[0]) || ParseInt(f.fields[0]) < MIN_CLIENT_VERSION {
            book := book.(ended := true);
            NothingAfterTheEnd(old(reqIDSeq), frames, n + 1, |frames|);
            return;
          }
          serverVersion := ParseInt(f.fields[0]);
          book := book.(serverVersion := serverVersion);
          continue;
        }
        Snoop(f, n);
        inBatch := Dispatch(f, inBatch);
      }
    }
  }

  lemma {:induction false} NothingAfterTheEnd(first: int64, fs: seq<Frame>, m: nat, n: nat)
    requires m <= n <= |fs| && Run(first, fs, m).ended
    ensures Run(first, fs, n) == Run(first, fs, m)
    decreases n
  {
    if m < n {
      NothingAfterTheEnd(first, fs, m, n - 1);
    }
  }
}
