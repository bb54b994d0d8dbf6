/**
 Order conditions.  Each record carries its wire type in a field of its own, beside being of one
 of six kinds; a record made by `CreateCondition` has the type of its kind.
 */
module Conditions {
  import opened Wrappers
  import opened Wire
  import opened FieldReader
  import opened Blocks

  datatype Condition =
    | PriceCondition(condType: int64, conjunction: string, isMore: bool, price: Float, conID: int64, exchange: string,
                     triggerMethod: int64)
    | TimeCondition(condType: int64, conjunction: string, isMore: bool, time: string)
    | MarginCondition(condType: int64, conjunction: string, isMore: bool, percent: int64)
    | ExecutionCondition(condType: int64, conjunction: string, secType: string, exchange: string, symbol: string)
    | VolumeCondition(condType: int64, conjunction: string, isMore: bool, volume: int64, conID: int64, exchange: string)
    | PercentChangeCondition(condType: int64, conjunction: string, isMore: bool, changePercent: Float, conID: int64,
                             exchange: string)

  function CreateCondition(condType: int64): Option<Condition> {
    match condType
    case 1 => Some(PriceCondition(1, "a", false, Number("0"), 0, "", 0))
    case 3 => Some(TimeCondition(3, "a", false, ""))
    case 4 => Some(MarginCondition(4, "a", false, 0))
    case 5 => Some(ExecutionCondition(5, "a", "", "", ""))
    case 6 => Some(VolumeCondition(6, "a", false, 0, 0, ""))
    case 7 => Some(PercentChangeCondition(7, "a", false, Number("0"), 0, ""))
    case _ => None
  }

  function EncodeCondition(c: Condition): seq<Field> {
    match c
    case PriceCondition(t, conj, more, price, conID, exchange, method_) =>
      [Int(t), Text(conj), Bool(more), Real(price), Int64(conID), Text(exchange), Int(method_)]
    case TimeCondition(t, conj, more, time) => [Int(t), Text(conj), Bool(more), Text(time)]
    case MarginCondition(t, conj, more, percent) => [Int(t), Text(conj), Bool(more), Int(percent)]
    case ExecutionCondition(t, conj, secType, exchange, symbol) =>
      [Int(t), Text(conj), Text(secType), Text(exchange), Text(symbol)]
    case VolumeCondition(t, conj, more, volume, conID, exchange) =>
      [Int(t), Text(conj), Bool(more), Int(volume), Int64(conID), Text(exchange)]
    case PercentChangeCondition(t, conj, more, percent, conID, exchange) =>
      [Int(t), Text(conj), Bool(more), Real(percent), Int64(conID), Text(exchange)]
  }

  /** Overwrites every field of a condition but its type with what stands at `pos`. */
  function ReadConditionFields(c: Condition, slots: seq<string>, pos: nat): Read<Condition> {
    match c
    case PriceCondition(t, _, _, _, _, _, _) =>
      Read(PriceCondition(t, At(slots, pos), BoolAt(slots, pos + 1), FloatAt(slots, pos + 2), IntAt(slots, pos + 3),
                          At(slots, pos + 4), IntAt(slots, pos + 5)), pos + 6)
    case TimeCondition(t, _, _, _) =>
      Read(TimeCondition(t, At(slots, pos), BoolAt(slots, pos + 1), At(slots, pos + 2)), pos + 3)
    case MarginCondition(t, _, _, _) =>
      Read(MarginCondition(t, At(slots, pos), BoolAt(slots, pos + 1), IntAt(slots, pos + 2)), pos + 3)
    case ExecutionCondition(t, _, _, _, _) =>
      Read(ExecutionCondition(t, At(slots, pos), At(slots, pos + 1), At(slots, pos + 2), At(slots, pos + 3)), pos + 4)
    case VolumeCondition(t, _, _, _, _, _) =>
      Read(VolumeCondition(t, At(slots, pos), BoolAt(slots, pos + 1), IntAt(slots, pos + 2), IntAt(slots, pos + 3),
                           At(slots, pos + 4)), pos + 5)
    case PercentChangeCondition(t, _, _, _, _, _) =>
      Read(PercentChangeCondition(t, At(slots, pos), BoolAt(slots, pos + 1), FloatAt(slots, pos + 2),
                                  IntAt(slots, pos + 3), At(slots, pos + 4)), pos + 5)
  }

  /** One turn of the reader's loop: a type nobody knows takes up one field and yields nothing. */
  function ConditionAt(slots: seq<string>, pos: nat): Read<Option<Condition>> {
    match CreateCondition(IntAt(slots, pos))
    case None => Read(None, pos + 1)
    case Some(c) =>
      var r := ReadConditionFields(c, slots, pos + 1);
      Read(Some(r.value), r.end)
  }

  function ListAt(slots: seq<string>, pos: nat, n: nat): (r: Read<seq<Condition>>)
    ensures |r.value| <= n
  {
    if n == 0 then Read([], pos) else
    var r := ListAt(slots, pos, n - 1);
    var one := ConditionAt(slots, r.end);
    Read(if one.value.Some? then r.value + [one.value.value] else r.value, one.end)
  }

  datatype Conditions = Conditions(list: Slice<Condition>, ignoreRTH: bool, cancelOrder: bool)

  function ConditionRows(list: seq<Condition>): seq<seq<Field>> {
    seq(|list|, i requires 0 <= i < |list| => EncodeCondition(list[i]))
  }

  function ConditionsFields(cs: Conditions): seq<Field> {
    [Int(|cs.list|)]
    + if |cs.list| > 0 then Rows(ConditionRows(cs.list), |cs.list|) + [Bool(cs.ignoreRTH), Bool(cs.cancelOrder)] else []
  }

  /** What is read into a fresh order. */
  function ConditionsAt(slots: seq<string>, pos: nat): Read<Conditions> {
    var n := CountAt(slots, pos);
    if n > 0 then
      var r := ListAt(slots, pos + 1, n);
      Read(Conditions(r.value, BoolAt(slots, r.end), BoolAt(slots, r.end + 1)), r.end + 2)
    else Read(Conditions([], false, false), pos + 1)
  }

  // ----- Round trip -----

  /** The wire type of a condition's kind. */
  function KindType(c: Condition): int64 {
    match c
    case PriceCondition(_, _, _, _, _, _, _) => 1
    case TimeCondition(_, _, _, _) => 3
    case MarginCondition(_, _, _, _) => 4
    case ExecutionCondition(_, _, _, _, _) => 5
    case VolumeCondition(_, _, _, _, _, _) => 6
    case PercentChangeCondition(_, _, _, _, _, _) => 7
  }

  /** Does it have the type of its kind, as `CreateCondition` makes it, and no value that stands for "not set"? */
  predicate Faithful(c: Condition) {
    && c.condType == KindType(c)
    && (match c
        case PriceCondition(_, _, _, price, conID, _, _) => price != Unset && conID != UNSET_INTEGER
        case VolumeCondition(_, _, _, _, conID, _) => conID != UNSET_INTEGER
        case PercentChangeCondition(_, _, _, percent, conID, _) => percent != Unset && conID != UNSET_INTEGER
        case _ => true)
  }

  lemma CreatedHasItsKind(t: int64)
    ensures CreateCondition(t).Some? <==> t in {1, 3, 4, 5, 6, 7}
    ensures CreateCondition(t).Some? ==> CreateCondition(t).value.condType == t == KindType(CreateCondition(t).value)
  {
  }

  /** A type nobody knows takes up one field and adds nothing to the list. */
  lemma UnknownTypeIsPassedOver(slots: seq<string>, pos: nat, n: nat)
    requires IntAt(slots, ListAt(slots, pos, n).end) !in {1, 3, 4, 5, 6, 7}
    ensures ListAt(slots, pos, n + 1) == Read(ListAt(slots, pos, n).value, ListAt(slots, pos, n).end + 1)
  {
  }

  /** Reading keeps the kind and the type. */
  lemma ReadKeepsKind(slots: seq<string>, pos: nat)
    requires ConditionAt(slots, pos).value.Some?
    ensures var c := ConditionAt(slots, pos).value.value; c.condType == IntAt(slots, pos) == KindType(c)
  {
    CreatedHasItsKind(IntAt(slots, pos));
  }

  lemma PriceReadBackIff(slots: seq<string>, pos: nat, c: Condition, blank: Condition)
    requires Holds(slots, pos, EncodeCondition(c))
    requires c.PriceCondition? && blank.PriceCondition? && blank.condType == c.condType == KindType(c)
    ensures ReadConditionFields(blank, slots, pos + 1).end == pos + |EncodeCondition(c)|
    ensures ReadConditionFields(blank, slots, pos + 1).value == c <==> Faithful(c)
  {
    hide Holds, At, IntAt, FloatAt, BoolAt;
    var fs := EncodeCondition(c);
    HeldText(slots, pos, fs, 1);
    HeldBool(slots, pos, fs, 2);
    HeldRealIff(slots, pos, fs, 3);
    HeldInt64Iff(slots, pos, fs, 4);
    HeldText(slots, pos, fs, 5);
    HeldInt(slots, pos, fs, 6);
  }

  lemma TimeReadBackIff(slots: seq<string>, pos: nat, c: Condition, blank: Condition)
    requires Holds(slots, pos, EncodeCondition(c))
    requires c.TimeCondition? && blank.TimeCondition? && blank.condType == c.condType == KindType(c)
    ensures ReadConditionFields(blank, slots, pos + 1).end == pos + |EncodeCondition(c)|
    ensures ReadConditionFields(blank, slots, pos + 1).value == c <==> Faithful(c)
  {
    hide Holds, At, IntAt, FloatAt, BoolAt;
    var fs := EncodeCondition(c);
    HeldText(slots, pos, fs, 1);
    HeldBool(slots, pos, fs, 2);
    HeldText(slots, pos, fs, 3);
  }

  lemma MarginReadBackIff(slots: seq<string>, pos: nat, c: Condition, blank: Condition)
    requires Holds(slots, pos, EncodeCondition(c))
    requires c.MarginCondition? && blank.MarginCondition? && blank.condType == c.condType == KindType(c)
    ensures ReadConditionFields(blank, slots, pos + 1).end == pos + |EncodeCondition(c)|
    ensures ReadConditionFields(blank, slots, pos + 1).value == c <==> Faithful(c)
  {
    hide Holds, At, IntAt, FloatAt, BoolAt;
    var fs := EncodeCondition(c);
    HeldText(slots, pos, fs, 1);
    HeldBool(slots, pos, fs, 2);
    HeldInt(slots, pos, fs, 3);
  }

  lemma ExecutionReadBackIff(slots: seq<string>, pos: nat, c: Condition, blank: Condition)
    requires Holds(slots, pos, EncodeCondition(c))
    requires c.ExecutionCondition? && blank.ExecutionCondition? && blank.condType == c.condType == KindType(c)
    ensures ReadConditionFields(blank, slots, pos + 1).end == pos + |EncodeCondition(c)|
    ensures ReadConditionFields(blank, slots, pos + 1).value == c <==> Faithful(c)
  {
    hide Holds, At, IntAt, FloatAt, BoolAt;
    var fs := EncodeCondition(c);
    HeldText(slots, pos, fs, 1);
    HeldText(slots, pos, fs, 2);
    HeldText(slots, pos, fs, 3);
    HeldText(slots, pos, fs, 4);
  }

  lemma VolumeReadBackIff(slots: seq<string>, pos: nat, c: Condition, blank: Condition)
    requires Holds(slots, pos, EncodeCondition(c))
    requires c.VolumeCondition? && blank.VolumeCondition? && blank.condType == c.condType == KindType(c)
    ensures ReadConditionFields(blank, slots, pos + 1).end == pos + |EncodeCondition(c)|
    ensures ReadConditionFields(blank, slots, pos + 1).value == c <==> Faithful(c)
  {
    hide Holds, At, IntAt, FloatAt, BoolAt;
    var fs := EncodeCondition(c);
    HeldText(slots, pos, fs, 1);
    HeldBool(slots, pos, fs, 2);
    HeldInt(slots, pos, fs, 3);
    HeldInt64Iff(slots, pos, fs, 4);
    HeldText(slots, pos, fs, 5);
  }

  lemma PercentChangeReadBackIff(slots: seq<string>, pos: nat, c: Condition, blank: Condition)
    requires Holds(slots, pos, EncodeCondition(c))
    requires c.PercentChangeCondition? && blank.PercentChangeCondition? && blank.condType == c.condType == KindType(c)
    ensures ReadConditionFields(blank, slots, pos + 1).end == pos + |EncodeCondition(c)|
    ensures ReadConditionFields(blank, slots, pos + 1).value == c <==> Faithful(c)
  {
    hide Holds, At, IntAt, FloatAt, BoolAt;
    var fs := EncodeCondition(c);
    HeldText(slots, pos, fs, 1);
    HeldBool(slots, pos, fs, 2);
    HeldRealIff(slots, pos, fs, 3);
    HeldInt64Iff(slots, pos, fs, 4);
    HeldText(slots, pos, fs, 5);
  }

  /** Reading the fields of a condition into one of the same kind and type. */
  lemma FieldsReadBackIff(slots: seq<string>, pos: nat, c: Condition, blank: Condition)
    requires Holds(slots, pos, EncodeCondition(c))
    requires blank.condType == c.condType == KindType(c) == KindType(blank)
    ensures ReadConditionFields(blank, slots, pos + 1).end == pos + |EncodeCondition(c)|
    ensures ReadConditionFields(blank, slots, pos + 1).value == c <==> Faithful(c)
  {
    hide Holds, EncodeCondition, ReadConditionFields, Faithful;
    match c
    case PriceCondition(_, _, _, _, _, _, _) => PriceReadBackIff(slots, pos, c, blank);
    case TimeCondition(_, _, _, _) => TimeReadBackIff(slots, pos, c, blank);
    case MarginCondition(_, _, _, _) => MarginReadBackIff(slots, pos, c, blank);
    case ExecutionCondition(_, _, _, _, _) => ExecutionReadBackIff(slots, pos, c, blank);
    case VolumeCondition(_, _, _, _, _, _) => VolumeReadBackIff(slots, pos, c, blank);
    case PercentChangeCondition(_, _, _, _, _, _) => PercentChangeReadBackIff(slots, pos, c, blank);
  }

  lemma TypeHeld(slots: seq<string>, pos: nat, c: Condition)
    requires Holds(slots, pos, EncodeCondition(c))
    ensures IntAt(slots, pos) == c.condType
  {
    hide Holds, IntAt;
    HeldInt(slots, pos, EncodeCondition(c), 0);
  }

  lemma ConditionReadBackIff(slots: seq<string>, pos: nat, c: Condition)
    requires Holds(slots, pos, EncodeCondition(c))
    ensures ConditionAt(slots, pos).value == Some(c) <==> Faithful(c)
    ensures Faithful(c) ==> ConditionAt(slots, pos) == Read(Some(c), pos + |EncodeCondition(c)|)
  {
    hide Holds, EncodeCondition, ReadConditionFields, IntAt;
    TypeHeld(slots, pos, c);
    if c.condType == KindType(c) {
      CreatedHasItsKind(c.condType);
      FieldsReadBackIff(slots, pos, c, CreateCondition(c.condType).value);
    } else if ConditionAt(slots, pos).value.Some? {
      ReadKeepsKind(slots, pos);
    }
  }

  predicate AllFaithful(list: seq<Condition>, n: nat)
    requires n <= |list|
  {
    n == 0 || (AllFaithful(list, n - 1) && Faithful(list[n - 1]))
  }

  lemma {:induction false} FaithfulPrefixReadBack(slots: seq<string>, pos: nat, list: seq<Condition>, n: nat)
    requires n <= |list| && Holds(slots, pos, Rows(ConditionRows(list), |list|)) && AllFaithful(list, n)
    ensures ListAt(slots, pos, n) == Read(list[..n], pos + |Rows(ConditionRows(list), n)|)
  {
    if n > 0 {
      FaithfulPrefixReadBack(slots, pos, list, n - 1);
      FaithfulStep(slots, pos, list, n - 1);
    }
  }

  lemma FaithfulStep(slots: seq<string>, pos: nat, list: seq<Condition>, n: nat)
    requires n < |list| && Holds(slots, pos, Rows(ConditionRows(list), |list|)) && AllFaithful(list, n + 1)
    requires ListAt(slots, pos, n) == Read(list[..n], pos + |Rows(ConditionRows(list), n)|)
    ensures ListAt(slots, pos, n + 1) == Read(list[..n + 1], pos + |Rows(ConditionRows(list), n + 1)|)
  {
    var p := pos + |Rows(ConditionRows(list), n)|;
    NextRead(slots, p, pos, list, n);
    ListStep(slots, pos, n, list[..n], p, list[n]);
    OneMore(list, n);
  }

  lemma OneMore(list: seq<Condition>, n: nat)
    requires n < |list|
    ensures list[..n + 1] == list[..n] + [list[n]]
    ensures |Rows(ConditionRows(list), n + 1)| == |Rows(ConditionRows(list), n)| + |EncodeCondition(list[n])|
  {
  }

  lemma {:induction false} NextRead(slots: seq<string>, p: nat, pos: nat, list: seq<Condition>, n: nat)
    requires n < |list| && Holds(slots, pos, Rows(ConditionRows(list), |list|))
    requires p == pos + |Rows(ConditionRows(list), n)|
    ensures ConditionAt(slots, p).value == Some(list[n]) <==> Faithful(list[n])
    ensures Faithful(list[n]) ==> ConditionAt(slots, p) == Read(Some(list[n]), p + |EncodeCondition(list[n])|)
  {
    RowHeld(slots, pos, ConditionRows(list), |list|, n);
    ConditionReadBackIff(slots, p, list[n]);
  }

  lemma ListStep(slots: seq<string>, pos: nat, n: nat, before: seq<Condition>, p: nat, c: Condition)
    requires ListAt(slots, pos, n) == Read(before, p) && ConditionAt(slots, p).value == Some(c)
    ensures ListAt(slots, pos, n + 1) == Read(before + [c], ConditionAt(slots, p).end)
  {
  }

  /** What was read is never taken back, and each turn reads at most one more. */
  lemma {:induction false} ListGrows(slots: seq<string>, pos: nat, n: nat, k: nat, next: seq<Condition>)
    requires k <= n && next == ListAt(slots, pos, k).value
    ensures next <= ListAt(slots, pos, n).value && |ListAt(slots, pos, n).value| <= |next| + n - k
    decreases n
  {
    if k < n {
      ListGrows(slots, pos, n - 1, k, next);
    }
  }

  lemma NextDiffers(slots: seq<string>, pos: nat, list: seq<Condition>, k: nat)
    returns (next: seq<Condition>)
    requires k < |list| && Holds(slots, pos, Rows(ConditionRows(list), |list|))
    requires AllFaithful(list, k) && !Faithful(list[k])
    ensures next == ListAt(slots, pos, k + 1).value
    ensures |next| == k || (|next| == k + 1 && next[k] != list[k])
  {
    FaithfulPrefixReadBack(slots, pos, list, k);
    var p := pos + |Rows(ConditionRows(list), k)|;
    NextRead(slots, p, pos, list, k);
    next := ListAt(slots, pos, k + 1).value;
    if ConditionAt(slots, p).value.Some? {
      ListStep(slots, pos, k, list[..k], p, ConditionAt(slots, p).value.value);
    }
  }

  /** The first condition that is not faithful spoils the list. */
  lemma UnfaithfulSpoils(slots: seq<string>, pos: nat, list: seq<Condition>, k: nat)
    requires k < |list| && Holds(slots, pos, Rows(ConditionRows(list), |list|))
    requires AllFaithful(list, k) && !Faithful(list[k])
    ensures ListAt(slots, pos, |list|).value != list
  {
    var next := NextDiffers(slots, pos, list, k);
    NeverMended(slots, pos, list, k, next);
  }

  lemma NeverMended(slots: seq<string>, pos: nat, list: seq<Condition>, k: nat, next: seq<Condition>)
    requires k < |list| && next == ListAt(slots, pos, k + 1).value
    requires |next| == k || (|next| == k + 1 && next[k] != list[k])
    ensures ListAt(slots, pos, |list|).value != list
  {
    ListGrows(slots, pos, |list|, k + 1, next);
    Clash(next, ListAt(slots, pos, |list|).value, list, k);
  }

  lemma Clash(next: seq<Condition>, full: seq<Condition>, list: seq<Condition>, k: nat)
    requires k < |list| && next <= full && |full| <= |next| + |list| - (k + 1)
    requires |next| == k || (|next| == k + 1 && next[k] != list[k])
    ensures full != list
  {
  }

  lemma {:induction false} FirstUnfaithful(list: seq<Condition>, n: nat) returns (k: nat)
    requires n <= |list| && !AllFaithful(list, n)
    ensures k < n && AllFaithful(list, k) && !Faithful(list[k])
  {
    if AllFaithful(list, n - 1) {
      k := n - 1;
    } else {
      k := FirstUnfaithful(list, n - 1);
    }
  }

  lemma ListReadBackIff(slots: seq<string>, pos: nat, list: seq<Condition>)
    requires Holds(slots, pos, Rows(ConditionRows(list), |list|))
    ensures ListAt(slots, pos, |list|).value == list <==> AllFaithful(list, |list|)
    ensures AllFaithful(list, |list|) ==> ListAt(slots, pos, |list|).end == pos + |Rows(ConditionRows(list), |list|)|
  {
    if AllFaithful(list, |list|) {
      FaithfulPrefixReadBack(slots, pos, list, |list|);
      assert list[..|list|] == list;
    } else {
      var k := FirstUnfaithful(list, |list|);
      UnfaithfulSpoils(slots, pos, list, k);
    }
  }

  /**
   Emitted conditions are read back the same if and only if each has the type of its kind and
   no value that stands for "not set", and no flag is set without a condition; and then the
   reader stops exactly at the end of what was emitted.
   */
  lemma ConditionsReadBackIff(slots: seq<string>, pos: nat, cs: Conditions)
    requires Holds(slots, pos, ConditionsFields(cs))
    ensures ConditionsAt(slots, pos).value == cs <==>
            if |cs.list| > 0 then AllFaithful(cs.list, |cs.list|) else !cs.ignoreRTH && !cs.cancelOrder
    ensures ConditionsAt(slots, pos).value == cs ==> ConditionsAt(slots, pos).end == pos + |ConditionsFields(cs)|
  {
    if |cs.list| == 0 {
      HeldCount(slots, pos, 0, []);
    } else {
      SomeReadBackIff(slots, pos, cs);
    }
  }

  lemma SomeReadBackIff(slots: seq<string>, pos: nat, cs: Conditions)
    requires |cs.list| > 0 && Holds(slots, pos, ConditionsFields(cs))
    ensures ConditionsAt(slots, pos).value == cs <==> AllFaithful(cs.list, |cs.list|)
    ensures ConditionsAt(slots, pos).value == cs ==> ConditionsAt(slots, pos).end == pos + |ConditionsFields(cs)|
  {
    SomeHeld(slots, pos, cs);
    ListReadBackIff(slots, pos + 1, cs.list);
    if AllFaithful(cs.list, |cs.list|) {
      FlagsReadBack(slots, ListAt(slots, pos + 1, |cs.list|).end, cs);
    }
  }

  lemma SomeHeld(slots: seq<string>, pos: nat, cs: Conditions)
    requires |cs.list| > 0 && Holds(slots, pos, ConditionsFields(cs))
    ensures var rows := Rows(ConditionRows(cs.list), |cs.list|);
            && CountAt(slots, pos) == |cs.list| && Holds(slots, pos + 1, rows)
            && Holds(slots, pos + 1 + |rows|, [Bool(cs.ignoreRTH), Bool(cs.cancelOrder)])
            && |ConditionsFields(cs)| == 1 + |rows| + 2
  {
    hide Holds, Rows, EncodeCondition, CountAt;
    var rows, flags := Rows(ConditionRows(cs.list), |cs.list|), [Bool(cs.ignoreRTH), Bool(cs.cancelOrder)];
    HeldCount(slots, pos, |cs.list|, rows + flags);
    HoldsConcat(slots, pos + 1, rows, flags);
  }

  lemma FlagsReadBack(slots: seq<string>, pos: nat, cs: Conditions)
    requires Holds(slots, pos, [Bool(cs.ignoreRTH), Bool(cs.cancelOrder)])
    ensures BoolAt(slots, pos) == cs.ignoreRTH && BoolAt(slots, pos + 1) == cs.cancelOrder
  {
    var flags := [Bool(cs.ignoreRTH), Bool(cs.cancelOrder)];
    HeldBool(slots, pos, flags, 0);
    HeldBool(slots, pos, flags, 1);
  }
}
