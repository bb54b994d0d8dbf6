/**
 Request keys: every `Start` is called with an ID taken from the counter or from the synthetic
 IDs, and no taken ID is used for two calls.  Then no pending request is ever replaced.
 */
module RequestKeys {
  import ReqIDs
  import RequestProtocol

  /** `use[i]` says which of the keys the `Start` of step `i` was given; two calls are given two keys. */
  ghost predicate Keyed(as_: seq<RequestProtocol.Action>, n: nat, keys: seq<int>, use: seq<nat>) {
    && n <= |as_| == |use|
    && (forall i :: 0 <= i < n && as_[i].Start? ==> use[i] < |keys| && as_[i].reqID == keys[use[i]])
    && (forall i, j :: 0 <= i < j < n && as_[i].Start? && as_[j].Start? ==> use[i] != use[j])
  }

  lemma {:induction false} StartedAt(as_: seq<RequestProtocol.Action>, n: nat, r: int) returns (i: nat)
    requires n <= |as_| && r in RequestProtocol.Started(as_, n)
    ensures i < n && as_[i].Start? && as_[i].reqID == r
  {
    if r in RequestProtocol.StartedBy(as_[n - 1]) {
      i := n - 1;
    } else {
      i := StartedAt(as_, n - 1, r);
    }
  }

  lemma {:induction false} KeyedStartsAreFresh(
    ids: seq<ReqIDs.Action>, m: nat, as_: seq<RequestProtocol.Action>, n: nat, use: seq<nat>)
    requires m <= |ids| && Keyed(as_, n, ReqIDs.Keys(ReqIDs.Run(ids, m)), use)
    ensures RequestProtocol.FreshStarts(as_, n)
  {
    if n > 0 {
      KeyedStartsAreFresh(ids, m, as_, n - 1, use);
      var a := as_[n - 1];
      if a.Start? && a.reqID in RequestProtocol.Started(as_, n - 1) {
        var i := StartedAt(as_, n - 1, a.reqID);
        if use[i] < use[n - 1] {
          ReqIDs.KeysAreDistinct(ids, m, use[i], use[n - 1]);
        } else {
          ReqIDs.KeysAreDistinct(ids, m, use[n - 1], use[i]);
        }
        assert false;
      }
    }
  }

  /**
   Whatever threads race for IDs and on the request map, no channel is replaced by a later
   `Start`: each is in the map, held by one thread about to resolve it, or closed.
   */
  lemma NoRequestIsLost(
    ids: seq<ReqIDs.Action>, m: nat, as_: seq<RequestProtocol.Action>, n: nat, use: seq<nat>, c: nat)
    requires m <= |ids| && Keyed(as_, n, ReqIDs.Keys(ReqIDs.Run(ids, m)), use)
    requires RequestProtocol.Run(as_, n).Ok? && c < |RequestProtocol.Run(as_, n).sys.chans|
    ensures !RequestProtocol.Overwritten(as_, n, c)
    ensures var s := RequestProtocol.Run(as_, n).sys;
            RequestProtocol.Pending(s, c) || RequestProtocol.Held(s, c) || s.chans[c].closed
  {
    KeyedStartsAreFresh(ids, m, as_, n, use);
    RequestProtocol.FreshStartsNeverOverwrite(as_, n, c);
    RequestProtocol.ExactlyOnePlace(as_, n, c);
  }
}
