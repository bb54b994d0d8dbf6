/**
 The reader of a connection: version reply, handshake, batches.  A run is the sequence of frames
 read before the connection ends; the loop may end before it, on a version it cannot accept.
 */
module ReadLoop {
  import opened Wrappers
  import opened Wire
  import opened Decimals

  const MIN_CLIENT_VERSION: int64 := 157
  const NEXT_VALID_ID: int64 := 9
  const MANAGED_ACCOUNTS: int64 := 15

  /** A message that was read has at least one field. */
  type Fields = s: seq<string> | |s| > 0 witness [""]

  /** A message read, and whether more bytes were waiting when it had been handled. */
  datatype Frame = Frame(fields: Fields, pending: bool)

  /** The calls of the hooks that bound and make up batches. */
  datatype Hook = Arrived | Message(fields: seq<string>) | Processed

  datatype State = State(
    serverVersion: int64, hasReqID: bool, apiReady: bool, accounts: seq<string>, nextID: int64, inBatch: bool,
    hooks: seq<Hook>, readies: seq<nat>, ended: bool)

  /** The state right after connecting, when `first` is the next request ID. */
  function Connected(first: int64): State {
    State(0, false, false, [], first, false, [], [], false)
  }

  // ----- Account names -----

  predicate IsSpace(c: char) {
    c == ' ' || 9 <= c as int <= 13
  }

  function TrimLeft(s: string): string {
    if s != "" && IsSpace(s[0]) then TrimLeft(s[1..]) else s
  }

  function TrimRight(s: string): string {
    if s != "" && IsSpace(s[|s| - 1]) then TrimRight(s[..|s| - 1]) else s
  }

  function TrimSpace(s: string): string {
    TrimRight(TrimLeft(s))
  }

  /** The first `n` pieces, trimmed, without the empty ones. */
  function Names(pieces: seq<string>, n: nat): seq<string>
    requires n <= |pieces|
  {
    if n == 0 then [] else
    var name := TrimSpace(pieces[n - 1]);
    if name == "" then Names(pieces, n - 1) else Names(pieces, n - 1) + [name]
  }

  function AccountsIn(s: string): seq<string> {
    var pieces := Split(s, ',', |s|);
    Names(pieces, |pieces|)
  }

  predicate Blank(s: string) {
    forall i :: 0 <= i < |s| ==> IsSpace(s[i])
  }

  lemma {:induction false} TrimLeftBlankIff(s: string)
    ensures TrimLeft(s) == "" <==> Blank(s)
    ensures TrimLeft(s) != "" ==> !IsSpace(TrimLeft(s)[0])
  {
    if s != "" && IsSpace(s[0]) {
      TrimLeftBlankIff(s[1..]);
      assert Blank(s) ==> forall i :: 0 <= i < |s| - 1 ==> s[1..][i] == s[i + 1];
      assert Blank(s[1..]) ==> forall i :: 0 < i < |s| ==> s[i] == s[1..][i - 1];
    }
  }

  lemma {:induction false} TrimRightKeepsFirst(s: string)
    requires s != "" && !IsSpace(s[0])
    ensures TrimRight(s) != "" && TrimRight(s)[0] == s[0]
    decreases |s|
  {
    if IsSpace(s[|s| - 1]) {
      TrimRightKeepsFirst(s[..|s| - 1]);
    }
  }

  lemma TrimSpaceBlankIff(s: string)
    ensures TrimSpace(s) == "" <==> Blank(s)
  {
    TrimLeftBlankIff(s);
    if TrimLeft(s) != "" {
      TrimRightKeepsFirst(TrimLeft(s));
    }
  }

  lemma {:induction false} NamesEmptyIff(pieces: seq<string>, n: nat)
    requires n <= |pieces|
    ensures Names(pieces, n) == [] <==> forall i :: 0 <= i < n ==> Blank(pieces[i])
  {
    if n > 0 {
      NamesEmptyIff(pieces, n - 1);
      TrimSpaceBlankIff(pieces[n - 1]);
    }
  }

  predicate AllBlank(pieces: seq<string>) {
    forall i :: 0 <= i < |pieces| ==> Blank(pieces[i])
  }

  lemma AllBlankSnoc(q: seq<string>, piece: string)
    ensures AllBlank(q + [piece]) <==> AllBlank(q) && Blank(piece)
  {
    if AllBlank(q + [piece]) {
      assert (q + [piece])[|q|] == piece && forall i :: 0 <= i < |q| ==> (q + [piece])[i] == q[i];
    }
  }

  lemma {:induction false} PiecesBlankIff(s: string, n: nat)
    requires n <= |s|
    ensures AllBlank(Split(s, ',', n)) <==> forall i :: 0 <= i < n ==> s[i] == ',' || IsSpace(s[i])
  {
    if n > 0 {
      PiecesBlankIff(s, n - 1);
      var q, c := Split(s, ',', n - 1), s[n - 1];
      var before, last := q[..|q| - 1], q[|q| - 1];
      assert q == before + [last];
      if c == ',' {
        AllBlankSnoc(q, "");
      } else {
        assert Split(s, ',', n) == before + [last + [c]];
        AllBlankSnoc(before, last);
        AllBlankSnoc(before, last + [c]);
        BlankSnoc(last, c);
      }
    }
  }

  lemma BlankSnoc(s: string, c: char)
    ensures Blank(s + [c]) <==> Blank(s) && IsSpace(c)
  {
    if Blank(s + [c]) {
      assert (s + [c])[|s|] == c && forall i :: 0 <= i < |s| ==> (s + [c])[i] == s[i];
    }
  }

  /** A list names no account if and only if it holds nothing but commas, spaces, tabs and line, form or page breaks. */
  lemma NoAccountsIff(s: string)
    ensures AccountsIn(s) == [] <==> forall i :: 0 <= i < |s| ==> s[i] in {',', ' '} || s[i] as int in {9, 10, 11, 12, 13}
  {
    NamesEmptyIff(Split(s, ',', |s|), |Split(s, ',', |s|)|);
    PiecesBlankIff(s, |s|);
  }

  /** Trimming takes white space off both ends, and no more. */
  lemma {:induction false} TrimLeftMeans(s: string) returns (l: string)
    ensures s == l + TrimLeft(s) && Blank(l)
    ensures TrimLeft(s) != "" ==> TrimLeft(s)[|TrimLeft(s)| - 1] == s[|s| - 1] && |TrimLeft(s)| <= |s|
  {
    l := "";
    if s != "" && IsSpace(s[0]) {
      var rest := TrimLeftMeans(s[1..]);
      l := [s[0]] + rest;
      assert s == [s[0]] + s[1..] && TrimLeft(s) == TrimLeft(s[1..]);
      hide TrimLeft, IsSpace;
    }
  }

  lemma {:induction false} TrimRightMeans(s: string) returns (r: string)
    ensures s == TrimRight(s) + r && Blank(r)
    ensures TrimRight(s) != "" ==> !IsSpace(TrimRight(s)[|TrimRight(s)| - 1])
    decreases |s|
  {
    r := "";
    if s != "" && IsSpace(s[|s| - 1]) {
      var rest := TrimRightMeans(s[..|s| - 1]);
      r := rest + [s[|s| - 1]];
      assert s == s[..|s| - 1] + [s[|s| - 1]];
    }
  }

  /** A text that trimming leaves alone: empty, or with no white space at either end. */
  predicate Trimmed(s: string) {
    s != "" ==> !IsSpace(s[0]) && !IsSpace(s[|s| - 1])
  }

  lemma TrimSpaceMeans(s: string) returns (l: string, r: string)
    ensures s == l + TrimSpace(s) + r && Blank(l) && Blank(r) && Trimmed(TrimSpace(s))
    ensures Trimmed(s) ==> TrimSpace(s) == s
  {
    hide TrimLeft, TrimRight;
    l := TrimLeftMeans(s);
    r := TrimRightMeans(TrimLeft(s));
    TrimLeftBlankIff(s);
    if TrimLeft(s) != "" { TrimRightKeepsFirst(TrimLeft(s)); }
  }

  /** Can the name stand in a list of names? */
  predicate IsName(s: string) {
    s != "" && Trimmed(s) && ',' !in s
  }

  /** The first `n` names, each followed by a comma. */
  function ListText(names: seq<string>, n: nat): string
    requires n <= |names|
  {
    if n == 0 then "" else ListText(names, n - 1) + names[n - 1] + ","
  }

  lemma {:induction false} ListPieces(names: seq<string>, n: nat)
    requires n <= |names| && forall i :: 0 <= i < |names| ==> IsName(names[i])
    ensures Split(ListText(names, n), ',', |ListText(names, n)|) == names[..n] + [""]
  {
    if n > 0 {
      ListPieces(names, n - 1);
      assert IsName(names[n - 1]) && names[..n] == names[..n - 1] + [names[n - 1]];
      hide Split;
      SplitPiece(ListText(names, n - 1), names[n - 1], names[..n - 1], ',');
    }
  }

  lemma {:induction false} NamesOfNames(pieces: seq<string>, n: nat)
    requires n <= |pieces| && forall i :: 0 <= i < n ==> IsName(pieces[i])
    ensures Names(pieces, n) == pieces[..n]
  {
    if n > 0 {
      NamesOfNames(pieces, n - 1);
      var l, r := TrimSpaceMeans(pieces[n - 1]);
      assert pieces[..n] == pieces[..n - 1] + [pieces[n - 1]];
    }
  }

  lemma {:induction false} NamesAreNames(pieces: seq<string>, n: nat, i: nat)
    requires n <= |pieces| && i < |Names(pieces, n)| && forall j :: 0 <= j < |pieces| ==> ',' !in pieces[j]
    ensures IsName(Names(pieces, n)[i])
  {
    if i == |Names(pieces, n)| - 1 && TrimSpace(pieces[n - 1]) != "" {
      var l, r := TrimSpaceMeans(pieces[n - 1]);
      var name, piece := TrimSpace(pieces[n - 1]), pieces[n - 1];
      assert forall k :: 0 <= k < |name| ==> name[k] == piece[|l| + k];
    } else {
      NamesAreNames(pieces, n - 1, i);
    }
  }

  /** Names joined by commas are read back, all of them and in order, if and only if each can stand in such a list. */
  lemma {:induction false} AccountsRoundTripIff(names: seq<string>)
    ensures AccountsIn(ListText(names, |names|)) == names <==> forall i :: 0 <= i < |names| ==> IsName(names[i])
  {
    hide *;
    var text := ListText(names, |names|);
    if forall i :: 0 <= i < |names| ==> IsName(names[i]) {
      NamesReadBack(names);
    }
    if AccountsIn(text) == names {
      forall i | 0 <= i < |names| ensures IsName(names[i]) {
        AccountsAreNames(text, i);
      }
    }
  }

  lemma {:induction false} NamesReadBack(names: seq<string>)
    requires forall i :: 0 <= i < |names| ==> IsName(names[i])
    ensures AccountsIn(ListText(names, |names|)) == names
  {
    var text := ListText(names, |names|);
    var pieces := Split(text, ',', |text|);
    ListPieces(names, |names|);
    assert names[..|names|] == names;
    NamesOfNames(pieces, |names|);
    assert TrimSpace("") == "";
    hide Split, ListText, IsName;
    assert pieces[..|names|] == names;
  }

  lemma AccountsAreNames(s: string, i: nat)
    requires i < |AccountsIn(s)|
    ensures IsName(AccountsIn(s)[i])
  {
    hide Split, Names, IsName;
    var pieces := Split(s, ',', |s|);
    forall j | 0 <= j < |pieces| ensures ',' !in pieces[j] { PiecesHoldNoSeparator(s, ',', |s|, j); }
    NamesAreNames(pieces, |pieces|, i);
  }

  // ----- One frame -----

  /** Is the frame taken for the version reply? */
  predicate IsVersionReply(s: State, f: Frame) {
    s.serverVersion == 0 && |f.fields| == 2
  }

  predicate GoodVersion(f: Frame)
    requires |f.fields| == 2
  {
    IsInt(f.fields[0]) && ParseInt(f.fields[0]) >= MIN_CLIENT_VERSION
  }

  function Max(a: int64, b: int64): int64 {
    if a >= b then a else b
  }

  /** Before the client is ready, what a frame tells of the next ID and of the accounts. */
  function Snooped(s: State, f: Frame): State
    requires |f.fields| >= 3
  {
    var msgID := ParseInt(f.fields[0]);
    if msgID == NEXT_VALID_ID then s.(hasReqID := true, nextID := Max(s.nextID, ParseInt(f.fields[2])))
    else if msgID == MANAGED_ACCOUNTS then s.(accounts := AccountsIn(f.fields[2]))
    else s
  }

  function OnSnoop(s: State, f: Frame, n: nat): State {
    if s.apiReady || |f.fields| < 3 then s else
    var t := Snooped(s, f);
    if t.hasReqID && |t.accounts| > 0 then t.(apiReady := true, readies := t.readies + [n]) else t
  }

  function OnDispatch(s: State, f: Frame): State {
    var start := if s.inBatch then [] else [Arrived];
    var end := if f.pending then [] else [Processed];
    s.(inBatch := f.pending, hooks := s.hooks + start + [Message(f.fields)] + end)
  }

  /** The loop's turn for frame number `n`. */
  function Step(s: State, f: Frame, n: nat): State {
    if s.ended then s
    else if IsVersionReply(s, f) then
      if GoodVersion(f) then s.(serverVersion := ParseInt(f.fields[0])) else s.(ended := true)
    else OnDispatch(OnSnoop(s, f, n), f)
  }

  function Run(first: int64, fs: seq<Frame>, n: nat): State
    requires n <= |fs|
  {
    if n == 0 then Connected(first) else Step(Run(first, fs, n - 1), fs[n - 1], n - 1)
  }

  // ----- Batches -----

  datatype Phase = Idle | Opened | Busy | Bad

  /** The hooks as a word of (Arrived Message+ Processed)*, with the last batch perhaps unfinished. */
  function PhaseAfter(p: Phase, h: Hook): Phase {
    match (p, h)
    case (Idle, Arrived) => Opened
    case (Opened, Message(_)) => Busy
    case (Busy, Message(_)) => Busy
    case (Busy, Processed) => Idle
    case _ => Bad
  }

  function PhaseOf(hooks: seq<Hook>, n: nat): Phase
    requires n <= |hooks|
  {
    if n == 0 then Idle else PhaseAfter(PhaseOf(hooks, n - 1), hooks[n - 1])
  }

  lemma {:induction false} PhaseOfPrefix(a: seq<Hook>, b: seq<Hook>, n: nat)
    requires n <= |a|
    ensures PhaseOf(a + b, n) == PhaseOf(a, n)
  {
    if n > 0 {
      PhaseOfPrefix(a, b, n - 1);
    }
  }

  lemma PhaseOfMore(a: seq<Hook>, h: Hook)
    ensures PhaseOf(a + [h], |a| + 1) == PhaseAfter(PhaseOf(a, |a|), h)
  {
    PhaseOfPrefix(a, [h], |a|);
  }

  /** The phase the trace is in is the one the `inBatch` flag says. */
  ghost predicate InPhase(s: State) {
    PhaseOf(s.hooks, |s.hooks|) == if s.inBatch then Busy else Idle
  }

  lemma DispatchKeepsPhase(s: State, f: Frame)
    requires InPhase(s)
    ensures InPhase(OnDispatch(s, f))
  {
    var a := s.hooks + if s.inBatch then [] else [Arrived];
    if s.inBatch {
      assert a == s.hooks;
    } else {
      PhaseOfMore(s.hooks, Arrived);
    }
    PhaseOfMore(a, Message(f.fields));
    if f.pending {
      assert OnDispatch(s, f).hooks == a + [Message(f.fields)];
    } else {
      PhaseOfMore(a + [Message(f.fields)], Processed);
    }
  }

  // ----- What is dispatched -----

  /** The first frame of two fields: the one taken for the version reply. */
  function VersionFrame(fs: seq<Frame>, n: nat): (v: Option<nat>)
    requires n <= |fs|
    ensures v.Some? ==> v.value < n && |fs[v.value].fields| == 2
  {
    if n == 0 then None
    else if VersionFrame(fs, n - 1).Some? then VersionFrame(fs, n - 1)
    else if |fs[n - 1].fields| == 2 then Some(n - 1) else None
  }

  function FieldsOfFrames(fs: seq<Frame>, i: nat, n: nat): seq<seq<string>>
    requires i <= n <= |fs|
    decreases n
  {
    if n == i then [] else FieldsOfFrames(fs, i, n - 1) + [fs[n - 1].fields]
  }

  function MessagesOf(hooks: seq<Hook>, n: nat): seq<seq<string>>
    requires n <= |hooks|
  {
    if n == 0 then [] else
    match hooks[n - 1]
    case Message(fields) => MessagesOf(hooks, n - 1) + [fields]
    case _ => MessagesOf(hooks, n - 1)
  }

  /** Does a version reply announce a version that the client accepts: a numeral of at least 157? */
  predicate Acceptable(f: Frame) {
    var sign, digits := SignOf(f.fields[0]), RestOf(f.fields[0]);
    IsNumeral(sign, digits) && 157 <= Meaning(sign, digits) <= 0x7FFF_FFFF_FFFF_FFFF
  }

  function VersionIn(f: Frame): int64
    requires Acceptable(f)
  {
    Meaning(SignOf(f.fields[0]), RestOf(f.fields[0]))
  }

  lemma GoodIffAcceptable(f: Frame)
    requires |f.fields| == 2
    ensures GoodVersion(f) <==> Acceptable(f)
    ensures Acceptable(f) ==> ParseInt(f.fields[0]) == VersionIn(f)
  {
    var sign, digits := SignOf(f.fields[0]), RestOf(f.fields[0]);
    assert f.fields[0] == sign + digits;
    hide IsInt, ParseInt, SignOf, RestOf, IsNumeral, Meaning;
    if IsNumeral(sign, digits) {
      NumeralParses(sign, digits);
    } else {
      OtherTextParses(f.fields[0]);
    }
  }

  /** What the handler should have been given of the first `n` frames. */
  function Dispatched(fs: seq<Frame>, n: nat): seq<seq<string>>
    requires n <= |fs|
  {
    match VersionFrame(fs, n)
    case None => FieldsOfFrames(fs, 0, n)
    case Some(v) => FieldsOfFrames(fs, 0, v) + if Acceptable(fs[v]) then FieldsOfFrames(fs, v + 1, n) else []
  }

  /** The server version the frames announce, 0 if none that is acceptable. */
  function Announced(fs: seq<Frame>, n: nat): int64
    requires n <= |fs|
  {
    var v := VersionFrame(fs, n);
    if v.Some? && Acceptable(fs[v.value]) then VersionIn(fs[v.value]) else 0
  }

  /** Has the loop ended on a version reply it cannot accept? */
  predicate Refused(fs: seq<Frame>, n: nat)
    requires n <= |fs|
  {
    var v := VersionFrame(fs, n);
    v.Some? && !Acceptable(fs[v.value])
  }

  /** Does frame `n` reach the handler: no version reply, and none was refused before? */
  predicate HandedOver(fs: seq<Frame>, n: nat)
    requires n < |fs|
  {
    !Refused(fs, n) && !(VersionFrame(fs, n).None? && |fs[n].fields| == 2)
  }

  lemma {:induction false} MessagesPrefix(a: seq<Hook>, b: seq<Hook>, n: nat)
    requires n <= |a|
    ensures MessagesOf(a + b, n) == MessagesOf(a, n)
  {
    if n > 0 {
      MessagesPrefix(a, b, n - 1);
    }
  }

  lemma MessagesMore(a: seq<Hook>, h: Hook)
    ensures MessagesOf(a + [h], |a| + 1) == MessagesOf(a, |a|) + if h.Message? then [h.fields] else []
  {
    MessagesPrefix(a, [h], |a|);
  }

  lemma DispatchAddsOne(s: State, f: Frame)
    ensures var t := OnDispatch(s, f); MessagesOf(t.hooks, |t.hooks|) == MessagesOf(s.hooks, |s.hooks|) + [f.fields]
  {
    var a := s.hooks + if s.inBatch then [] else [Arrived];
    if s.inBatch {
      assert a == s.hooks;
    } else {
      MessagesMore(s.hooks, Arrived);
    }
    MessagesMore(a, Message(f.fields));
    if f.pending {
      assert OnDispatch(s, f).hooks == a + [Message(f.fields)];
    } else {
      MessagesMore(a + [Message(f.fields)], Processed);
    }
  }

  /** Snooping is no concern of the handler. */
  lemma SnoopLeaves(s: State, f: Frame, n: nat)
    ensures var t := OnSnoop(s, f, n);
            && t.hooks == s.hooks && t.inBatch == s.inBatch && t.serverVersion == s.serverVersion && t.ended == s.ended
  {
    hide ParseInt, AccountsIn;
  }

  lemma VersionFrameStep(fs: seq<Frame>, n: nat)
    requires n < |fs|
    ensures VersionFrame(fs, n + 1) == if VersionFrame(fs, n).None? && |fs[n].fields| == 2 then Some(n) else VersionFrame(fs, n)
  {
  }

  lemma DispatchedStep(fs: seq<Frame>, n: nat)
    requires n < |fs|
    ensures Dispatched(fs, n + 1) == Dispatched(fs, n) +
            if HandedOver(fs, n) then [fs[n].fields] else []
    ensures HandedOver(fs, n) ==> Announced(fs, n + 1) == Announced(fs, n) && !Refused(fs, n + 1)
  {
    hide Acceptable, VersionIn;
    VersionFrameStep(fs, n);
  }

  /** The messages handed over, the version and the end of the loop are what the frames say. */
  ghost predicate Follows(s: State, fs: seq<Frame>, n: nat)
    requires n <= |fs|
  {
    && MessagesOf(s.hooks, |s.hooks|) == Dispatched(fs, n)
    && s.serverVersion == Announced(fs, n) && s.ended == Refused(fs, n)
  }

  lemma DispatchFollows(s: State, fs: seq<Frame>, n: nat)
    requires n < |fs| && Follows(s, fs, n) && !s.ended && !IsVersionReply(s, fs[n])
    ensures Follows(OnDispatch(OnSnoop(s, fs[n], n), fs[n]), fs, n + 1)
  {
    SnoopLeaves(s, fs[n], n);
    DispatchAddsOne(OnSnoop(s, fs[n], n), fs[n]);
    DispatchedStep(fs, n);
    HandedOverIff(s, fs, n);
    hide OnSnoop, MessagesOf, Dispatched, Announced, Refused, HandedOver;
  }

  lemma StepFollows(s: State, fs: seq<Frame>, n: nat)
    requires n < |fs| && Follows(s, fs, n)
    ensures Follows(Step(s, fs[n], n), fs, n + 1)
  {
    if !s.ended && !IsVersionReply(s, fs[n]) {
      DispatchFollows(s, fs, n);
    } else {
      DispatchedStep(fs, n);
      if IsVersionReply(s, fs[n]) { GoodIffAcceptable(fs[n]); }
      hide GoodVersion, Acceptable, VersionIn, ParseInt, OnDispatch, OnSnoop;
    }
  }

  /**
   Every frame but the version reply is handed to the message handler exactly once, in order,
   up to a reply the loop ends on; the server version is the one announced, set once.
   */
  lemma {:induction false} EveryRunDispatches(first: int64, fs: seq<Frame>, n: nat)
    requires n <= |fs|
    ensures Follows(Run(first, fs, n), fs, n)
  {
    if n > 0 {
      EveryRunDispatches(first, fs, n - 1);
      StepFollows(Run(first, fs, n - 1), fs, n - 1);
    }
  }

  /** Did the last frame that reached the handler leave bytes waiting? */
  predicate LeftWaiting(fs: seq<Frame>, n: nat)
    requires n <= |fs|
  {
    n > 0 && if HandedOver(fs, n - 1) then fs[n - 1].pending else LeftWaiting(fs, n - 1)
  }

  lemma HandedOverIff(s: State, fs: seq<Frame>, n: nat)
    requires n < |fs| && Follows(s, fs, n)
    ensures HandedOver(fs, n) <==> !s.ended && !IsVersionReply(s, fs[n])
  {
  }

  lemma StepKeepsPhase(s: State, fs: seq<Frame>, n: nat)
    requires n < |fs| && Follows(s, fs, n) && InPhase(s) && s.inBatch == LeftWaiting(fs, n)
    ensures InPhase(Step(s, fs[n], n)) && Step(s, fs[n], n).inBatch == LeftWaiting(fs, n + 1)
  {
    SnoopLeaves(s, fs[n], n);
    HandedOverIff(s, fs, n);
    hide OnSnoop, Follows, HandedOver;
    if HandedOver(fs, n) {
      DispatchKeepsPhase(OnSnoop(s, fs[n], n), fs[n]);
    }
  }

  /**
   In every run the hooks are called as (Arrived Message+ Processed)*, where only the last batch
   may be unfinished, and is just when the last frame handed over left bytes waiting.
   */
  lemma {:induction false} EveryRunBatches(first: int64, fs: seq<Frame>, n: nat)
    requires n <= |fs|
    ensures InPhase(Run(first, fs, n)) && Run(first, fs, n).inBatch == LeftWaiting(fs, n)
    ensures var hooks := Run(first, fs, n).hooks; PhaseOf(hooks, |hooks|) == if LeftWaiting(fs, n) then Busy else Idle
  {
    hide Step, Follows;
    if n > 0 {
      EveryRunBatches(first, fs, n - 1);
      EveryRunDispatches(first, fs, n - 1);
      StepKeepsPhase(Run(first, fs, n - 1), fs, n - 1);
    }
  }

  lemma {:induction false} VersionFrameStays(fs: seq<Frame>, m: nat, n: nat)
    requires m <= n <= |fs| && VersionFrame(fs, m).Some?
    ensures VersionFrame(fs, n) == VersionFrame(fs, m)
    decreases n
  {
    if m < n {
      VersionFrameStays(fs, m, n - 1);
    }
  }

  /** Once set, the server version is at least 157 and never changes. */
  lemma {:induction false} VersionIsSetOnce(first: int64, fs: seq<Frame>, m: nat, n: nat)
    requires m <= n <= |fs| && Run(first, fs, m).serverVersion != 0
    ensures Run(first, fs, n).serverVersion == Run(first, fs, m).serverVersion >= 157
  {
    EveryRunDispatches(first, fs, m);
    EveryRunDispatches(first, fs, n);
    VersionFrameStays(fs, m, n);
  }

  // ----- Readiness -----

  /** A message of at least three fields with the given ID: 9 brings the next valid ID, 15 the managed accounts. */
  predicate Says(f: Frame, msgID: int64) {
    |f.fields| >= 3 && ParseInt(f.fields[0]) == msgID
  }

  predicate IDKnown(fs: seq<Frame>, n: nat)
    requires n <= |fs|
  {
    exists i :: 0 <= i < n && Says(fs[i], 9)
  }

  /** The account list that the last message about accounts gave. */
  function AccountsKnown(fs: seq<Frame>, n: nat): seq<string>
    requires n <= |fs|
  {
    if n == 0 then []
    else if Says(fs[n - 1], 15) then AccountsIn(fs[n - 1].fields[2])
    else AccountsKnown(fs, n - 1)
  }

  /** By the first `n` frames, are both a valid ID and a non-empty account list known? */
  predicate Known(fs: seq<Frame>, n: nat)
    requires n <= |fs|
  {
    IDKnown(fs, n) && AccountsKnown(fs, n) != []
  }

  /** The first frame by which both are known. */
  function ReadyFrame(fs: seq<Frame>, n: nat): Option<nat>
    requires n <= |fs|
  {
    if n == 0 then None
    else if ReadyFrame(fs, n - 1).Some? then ReadyFrame(fs, n - 1)
    else if Known(fs, n) then Some(n - 1) else None
  }

  /** What the client knows, and whether and when it became ready. */
  ghost predicate Aware(s: State, fs: seq<Frame>, n: nat)
    requires n <= |fs|
  {
    && s.apiReady == ReadyFrame(fs, n).Some?
    && s.readies == (if ReadyFrame(fs, n).Some? then [ReadyFrame(fs, n).value] else [])
    && (!s.apiReady ==> s.hasReqID == IDKnown(fs, n) && s.accounts == AccountsKnown(fs, n))
  }

  lemma IDKnownStep(fs: seq<Frame>, n: nat)
    requires n < |fs|
    ensures IDKnown(fs, n + 1) <==> IDKnown(fs, n) || Says(fs[n], 9)
  {
    if IDKnown(fs, n) {
      var i :| 0 <= i < n && Says(fs[i], 9);
      assert 0 <= i < n + 1;
    }
  }

  lemma SnoopKeepsAware(s: State, fs: seq<Frame>, n: nat)
    requires n < |fs| && Aware(s, fs, n)
    ensures Aware(OnSnoop(s, fs[n], n), fs, n + 1)
  {
    IDKnownStep(fs, n);
    if !s.apiReady {
      NotYetKnown(fs, n);
    }
  }

  lemma NotYetKnown(fs: seq<Frame>, n: nat)
    requires n <= |fs| && ReadyFrame(fs, n).None?
    ensures !Known(fs, n)
  {
  }

  lemma StepKeepsAware(s: State, fs: seq<Frame>, n: nat)
    requires n < |fs| && Aware(s, fs, n) && !Step(s, fs[n], n).ended
    ensures Aware(Step(s, fs[n], n), fs, n + 1)
  {
    if IsVersionReply(s, fs[n]) {
      VersionReplyTellsNothing(s, fs, n);
    } else {
      SnoopKeepsAware(s, fs, n);
    }
    hide OnSnoop, ReadyFrame, IDKnown, AccountsKnown, GoodVersion, ParseInt;
  }

  lemma VersionReplyTellsNothing(s: State, fs: seq<Frame>, n: nat)
    requires n < |fs| && Aware(s, fs, n) && |fs[n].fields| == 2
    ensures Aware(s, fs, n + 1)
  {
    IDKnownStep(fs, n);
    if !s.apiReady { NotYetKnown(fs, n); }
    hide IDKnown;
  }

  /**
   Up to a refused version, the client is ready just when both a valid ID and a non-empty
   account list are known, and `OnReady` is called exactly once, at the first such frame.
   */
  lemma {:induction false} EveryRunReady(first: int64, fs: seq<Frame>, n: nat)
    requires n <= |fs| && !Run(first, fs, n).ended
    ensures Aware(Run(first, fs, n), fs, n)
  {
    if n > 0 {
      var s := Run(first, fs, n - 1);
      NextIDStays(s, fs[n - 1], n - 1);
      hide Step, Aware;
      EveryRunReady(first, fs, n - 1);
      StepKeepsAware(s, fs, n - 1);
    }
  }

  /** The highest of the first request ID and the valid IDs heard before the client was ready. */
  function HighestID(first: int64, fs: seq<Frame>, n: nat): int64
    requires n <= |fs|
  {
    if n == 0 then first else
    var before := HighestID(first, fs, n - 1);
    if ReadyFrame(fs, n - 1).None? && Says(fs[n - 1], 9) && ParseInt(fs[n - 1].fields[2]) > before
    then ParseInt(fs[n - 1].fields[2]) else before
  }

  lemma NextIDStep(s: State, fs: seq<Frame>, n: nat, first: int64)
    requires n < |fs| && !Step(s, fs[n], n).ended && s.nextID == HighestID(first, fs, n)
    requires s.apiReady == ReadyFrame(fs, n).Some?
    ensures Step(s, fs[n], n).nextID == HighestID(first, fs, n + 1)
  {
    hide ParseInt, AccountsIn, IsInt, ReadyFrame;
  }

  /** Up to a refused version, the next request ID is exactly the highest of those. */
  lemma {:induction false} EveryRunNextID(first: int64, fs: seq<Frame>, n: nat)
    requires n <= |fs| && !Run(first, fs, n).ended
    ensures Run(first, fs, n).nextID == HighestID(first, fs, n)
  {
    if n > 0 {
      NextIDStays(Run(first, fs, n - 1), fs[n - 1], n - 1);
      hide Step, ReadyFrame, Says, ParseInt;
      EveryRunNextID(first, fs, n - 1);
      EveryRunReady(first, fs, n - 1);
      NextIDStep(Run(first, fs, n - 1), fs, n - 1, first);
    }
  }

  lemma NextIDStays(s: State, f: Frame, n: nat)
    requires !Step(s, f, n).ended
    ensures !s.ended && Step(s, f, n).nextID >= s.nextID
  {
    hide ParseInt, AccountsIn, IsInt;
  }

  /** From a valid ID heard before the client was ready, the next request ID is never below it. */
  lemma {:induction false} HeardIDsAreHonoured(first: int64, fs: seq<Frame>, i: nat, n: nat)
    requires i < n <= |fs| && !Run(first, fs, n).ended
    requires ReadyFrame(fs, i).None? && Says(fs[i], 9)
    ensures Run(first, fs, n).nextID >= ParseInt(fs[i].fields[2])
    decreases n
  {
    NextIDStays(Run(first, fs, n - 1), fs[n - 1], n - 1);
    if i < n - 1 {
      hide Step, ParseInt, ReadyFrame;
      HeardIDsAreHonoured(first, fs, i, n - 1);
    } else {
      EveryRunReady(first, fs, i);
      HeardIsHonoured(Run(first, fs, i), fs[i], i);
    }
  }

  lemma HeardIsHonoured(s: State, f: Frame, n: nat)
    requires !Step(s, f, n).ended && !s.apiReady && Says(f, 9)
    ensures Step(s, f, n).nextID >= ParseInt(f.fields[2])
  {
    hide ParseInt, AccountsIn, IsInt;
  }
}
