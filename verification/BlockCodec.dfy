/**
 The loops that append the blocks of an order to an outgoing message, and those that read them
 from an incoming one.
 */
module BlockCodec {
  import opened Wrappers
  import opened Wire
  import opened FieldReader
  import opened Blocks
  import opened Conditions

  // ----- Writing -----

  lemma RowsStep(rows: seq<seq<Field>>, n: nat, pre: seq<Field>)
    requires n < |rows|
    ensures pre + Rows(rows, n + 1) == pre + Rows(rows, n) + rows[n]
  {
    assert Rows(rows, n + 1) == Rows(rows, n) + rows[n];
  }

  lemma NoRows(rows: seq<seq<Field>>)
    ensures Rows(rows, 0) == []
  {
  }

  method AppendLegs(fields: seq<Field>, legs: Slice<ComboLeg>) returns (r: seq<Field>)
    ensures r == fields + LegBlock(legs)
  {
    r := fields + [Int(|legs|)];
    for i := 0 to |legs|
      invariant r == fields + [Int(|legs|)] + Rows(LegRows(legs), i)
    {
      var leg := legs[i];
      RowsStep(LegRows(legs), i, fields + [Int(|legs|)]);
      r := r + [Int64(leg.conID), Int(leg.ratio), Text(leg.action), Text(leg.exchange), Int(leg.openClose),
                Int(leg.shortSaleSlot), Text(leg.designatedLocation), Int(leg.exemptCode)];
    }
    assert fields + [Int(|legs|)] + Rows(LegRows(legs), |legs|) == fields + LegBlock(legs);
  }

  method AppendPrices(fields: seq<Field>, prices: Slice<Float>) returns (r: seq<Field>)
    ensures r == fields + PriceBlock(prices)
  {
    r := fields + [Int(|prices|)];
    for i := 0 to |prices|
      invariant r == fields + [Int(|prices|)] + Rows(PriceRows(prices), i)
    {
      RowsStep(PriceRows(prices), i, fields + [Int(|prices|)]);
      r := r + [Real(prices[i])];
    }
    assert fields + [Int(|prices|)] + Rows(PriceRows(prices), |prices|) == fields + PriceBlock(prices);
  }

  method AppendParams(fields: seq<Field>, params: Slice<TagValue>) returns (r: seq<Field>)
    ensures r == fields + ParamBlock(params)
  {
    r := fields + [Int(|params|)];
    for i := 0 to |params|
      invariant r == fields + [Int(|params|)] + Rows(ParamRows(params), i)
    {
      RowsStep(ParamRows(params), i, fields + [Int(|params|)]);
      r := r + [Text(params[i].tag), Text(params[i].value)];
    }
    assert fields + [Int(|params|)] + Rows(ParamRows(params), |params|) == fields + ParamBlock(params);
  }

  /** Only a BAG order carries the combo block. */
  method AppendCombo(fields: seq<Field>, secType: string, c: Combo) returns (r: seq<Field>)
    ensures r == if secType == "BAG" then fields + ComboFields(c) else fields
  {
    r := fields;
    if secType == "BAG" {
      r := AppendLegs(r, c.legs);
      r := AppendPrices(r, c.orderLegs);
      r := AppendParams(r, c.params);
      assert r == fields + ComboFields(c);
    }
  }

  method AppendDeltaNeutral(fields: seq<Field>, d: Option<DeltaNeutral>) returns (r: seq<Field>)
    ensures r == fields + DeltaNeutralFields(d)
  {
    if d.Some? {
      r := fields + [Bool(true), Int64(d.value.conID), Real(d.value.delta), Real(d.value.price)];
    } else {
      r := fields + [Bool(false)];
    }
  }

  method AppendAlgo(fields: seq<Field>, a: Algo) returns (r: seq<Field>)
    ensures r == fields + AlgoFields(a)
  {
    r := fields + [Text(a.strategy)];
    if a.strategy != "" {
      r := AppendParams(r, a.params);
      assert fields + [Text(a.strategy)] + ParamBlock(a.params) == fields + AlgoFields(a);
    } else {
      assert r == fields + AlgoFields(a);
    }
  }

  method AppendConditions(fields: seq<Field>, cs: Conditions) returns (r: seq<Field>)
    ensures r == fields + ConditionsFields(cs)
  {
    hide Rows, EncodeCondition;
    r := fields + [Int(|cs.list|)];
    ghost var start := r;
    NoRows(ConditionRows(cs.list));
    if |cs.list| > 0 {
      for i := 0 to |cs.list|
        invariant r == start + Rows(ConditionRows(cs.list), i)
      {
        RowsStep(ConditionRows(cs.list), i, start);
        r := r + EncodeCondition(cs.list[i]);
      }
      r := r + [Bool(cs.ignoreRTH), Bool(cs.cancelOrder)];
    }
    assert r == fields + ConditionsFields(cs);
  }

  // ----- Reading -----

  method ReadCount(r: FieldReader) returns (n: nat)
    requires r.Valid()
    modifies r
    ensures r.Valid() && r.at == old(r.at) + 1 && n == CountAt(r.fields, old(r.at))
    ensures n <= 0x7FFF_FFFF_FFFF_FFFF
  {
    var count := r.ReadInt();
    n := if count > 0 then count else 0;
  }

  method ReadLeg(r: FieldReader) returns (leg: ComboLeg)
    requires r.Valid()
    modifies r
    ensures r.Valid() && r.at == old(r.at) + 8 && leg == LegAt(r.fields, old(r.at))
  {
    hide At, IntAt;
    var conID := r.ReadInt();
    var ratio := r.ReadInt();
    var action := r.ReadString();
    var exchange := r.ReadString();
    var openClose := r.ReadInt();
    var shortSaleSlot := r.ReadInt();
    var designatedLocation := r.ReadString();
    var exemptCode := r.ReadInt();
    leg := ComboLeg(conID, ratio, action, exchange, openClose, shortSaleSlot, designatedLocation, exemptCode);
  }

  method ReadLegList(r: FieldReader, n: nat) returns (list: seq<ComboLeg>)
    requires r.Valid()
    modifies r
    ensures r.Valid() && r.at == old(r.at) + 8 * n && list == LegsAt(r.fields, old(r.at), n)
  {
    hide LegAt, r.Valid;
    list := [];
    ghost var start := r.at;
    for i := 0 to n
      invariant r.Valid() && r.at == start + 8 * i && |list| == i
      invariant forall j :: 0 <= j < i ==> list[j] == LegAt(r.fields, start + 8 * j)
    {
      var leg := ReadLeg(r);
      list := list + [leg];
    }
    SameIff(list, LegsAt(r.fields, start, n));
  }

  method ReadLegs(r: FieldReader) returns (legs: Slice<ComboLeg>)
    requires r.Valid()
    modifies r
    ensures r.Valid() && LegBlockAt(r.fields, old(r.at)) == Read(legs, r.at)
  {
    var n := ReadCount(r);
    legs := ReadLegList(r, n);
  }

  method ReadPrices(r: FieldReader) returns (prices: Slice<Float>)
    requires r.Valid()
    modifies r
    ensures r.Valid() && PriceBlockAt(r.fields, old(r.at)) == Read(prices, r.at)
  {
    var n := ReadCount(r);
    var list: seq<Float> := [];
    ghost var start := r.at;
    for i := 0 to n
      invariant r.Valid() && r.at == start + i && |list| == i
      invariant forall j :: 0 <= j < i ==> list[j] == FloatAt(r.fields, start + j)
    {
      var price := r.ReadFloat();
      list := list + [price];
    }
    prices := list;
    SameIff(list, PricesAt(r.fields, start, n));
  }

  method ReadParams(r: FieldReader) returns (params: Slice<TagValue>)
    requires r.Valid()
    modifies r
    ensures r.Valid() && ParamBlockAt(r.fields, old(r.at)) == Read(params, r.at)
  {
    var n := ReadCount(r);
    var list: seq<TagValue> := [];
    ghost var start := r.at;
    for i := 0 to n
      invariant r.Valid() && r.at == start + 2 * i && |list| == i
      invariant forall j :: 0 <= j < i ==> list[j] == ParamAt(r.fields, start + 2 * j)
    {
      var tag := r.ReadString();
      var value := r.ReadString();
      list := list + [TagValue(tag, value)];
    }
    params := list;
    SameIff(list, ParamsAt(r.fields, start, n));
  }

  method ReadCombo(r: FieldReader) returns (c: Combo)
    requires r.Valid()
    modifies r
    ensures r.Valid() && ComboAt(r.fields, old(r.at)) == Read(c, r.at)
  {
    var legs := ReadLegs(r);
    var prices := ReadPrices(r);
    var params := ReadParams(r);
    c := Combo(legs, prices, params);
  }

  method ReadDeltaNeutral(r: FieldReader) returns (d: Option<DeltaNeutral>)
    requires r.Valid()
    modifies r
    ensures r.Valid() && DeltaNeutralAt(r.fields, old(r.at)) == Read(d, r.at)
  {
    d := None;
    var present := r.ReadBool();
    if present {
      var conID := r.ReadInt();
      var delta := r.ReadFloat();
      var price := r.ReadFloat();
      d := Some(DeltaNeutral(conID, delta, price));
    }
  }

  method ReadAlgo(r: FieldReader) returns (a: Algo)
    requires r.Valid()
    modifies r
    ensures r.Valid() && AlgoAt(r.fields, old(r.at)) == Read(a, r.at)
  {
    var strategy := r.ReadString();
    var params: Slice<TagValue> := [];
    if strategy != "" {
      params := ReadParams(r);
    }
    a := Algo(strategy, params);
  }

  method ReadPriceCondition(r: FieldReader, blank: Condition) returns (c: Condition)
    requires r.Valid() && blank.PriceCondition?
    modifies r
    ensures r.Valid() && ReadConditionFields(blank, r.fields, old(r.at)) == Read(c, r.at)
  {
    hide At, IntAt, FloatAt, BoolAt;
    var conjunction := r.ReadString();
    var more := r.ReadBool();
    var price := r.ReadFloat();
    var conID := r.ReadInt();
    var exchange := r.ReadString();
    var triggerMethod := r.ReadInt();
    c := PriceCondition(blank.condType, conjunction, more, price, conID, exchange, triggerMethod);
  }

  method ReadInto(r: FieldReader, blank: Condition) returns (c: Condition)
    requires r.Valid()
    modifies r
    ensures r.Valid() && ReadConditionFields(blank, r.fields, old(r.at)) == Read(c, r.at)
  {
    hide At, IntAt, FloatAt, BoolAt;
    if blank.PriceCondition? {
      c := ReadPriceCondition(r, blank);
      return;
    }
    var conjunction := r.ReadString();
    match blank
    case TimeCondition(t, _, _, _) =>
      var more := r.ReadBool();
      var time := r.ReadString();
      c := TimeCondition(t, conjunction, more, time);
    case MarginCondition(t, _, _, _) =>
      var more := r.ReadBool();
      var percent := r.ReadInt();
      c := MarginCondition(t, conjunction, more, percent);
    case ExecutionCondition(t, _, _, _, _) =>
      var secType := r.ReadString();
      var exchange := r.ReadString();
      var symbol := r.ReadString();
      c := ExecutionCondition(t, conjunction, secType, exchange, symbol);
    case VolumeCondition(t, _, _, _, _, _) =>
      var more := r.ReadBool();
      var volume := r.ReadInt();
      var conID := r.ReadInt();
      var exchange := r.ReadString();
      c := VolumeCondition(t, conjunction, more, volume, conID, exchange);
    case PercentChangeCondition(t, _, _, _, _, _) =>
      var more := r.ReadBool();
      var percent := r.ReadFloat();
      var conID := r.ReadInt();
      var exchange := r.ReadString();
      c := PercentChangeCondition(t, conjunction, more, percent, conID, exchange);
  }

  /** One turn of the reader's loop over conditions. */
  method ReadCondition(r: FieldReader) returns (c: Option<Condition>)
    requires r.Valid()
    modifies r
    ensures r.Valid() && ConditionAt(r.fields, old(r.at)) == Read(c, r.at)
  {
    var condType := r.ReadInt();
    c := CreateCondition(condType);
    if c.Some? {
      var filled := ReadInto(r, c.value);
      c := Some(filled);
    }
  }

  lemma ListTurn(
    slots: seq<string>, pos: nat, n: nat, list: seq<Condition>, p: nat, one: Read<Option<Condition>>)
    requires ListAt(slots, pos, n) == Read(list, p) && ConditionAt(slots, p) == one
    ensures ListAt(slots, pos, n + 1) == Read(if one.value.Some? then list + [one.value.value] else list, one.end)
  {
  }

  method ReadList(r: FieldReader, n: nat) returns (list: seq<Condition>)
    requires r.Valid()
    modifies r
    ensures r.Valid() && ListAt(r.fields, old(r.at), n) == Read(list, r.at) && |list| <= n
  {
    list := [];
    for i := 0 to n
      invariant r.Valid() && ListAt(r.fields, old(r.at), i) == Read(list, r.at)
    {
      ghost var p, before := r.at, list;
      var c := ReadCondition(r);
      ListTurn(r.fields, old(r.at), i, before, p, Read(c, r.at));
      if c.Some? {
        list := list + [c.value];
      }
    }
  }

  lemma ListThenFlags(slots: seq<string>, pos: nat, list: seq<Condition>, end: nat)
    requires |list| <= CountAt(slots, pos)
    requires CountAt(slots, pos) > 0 && ListAt(slots, pos + 1, CountAt(slots, pos)) == Read(list, end)
    ensures ConditionsAt(slots, pos) == Read(Conditions(list, BoolAt(slots, end), BoolAt(slots, end + 1)), end + 2)
  {
  }

  method ReadConditions(r: FieldReader) returns (cs: Conditions)
    requires r.Valid()
    modifies r
    ensures r.Valid() && ConditionsAt(r.fields, old(r.at)) == Read(cs, r.at)
  {
    hide BoolAt, CountAt, ListAt;
    var n := ReadCount(r);
    cs := Conditions([], false, false);
    if n > 0 {
      var list := ReadList(r, n);
      ListThenFlags(r.fields, old(r.at), list, r.at);
      var ignoreRTH := r.ReadBool();
      var cancelOrder := r.ReadBool();
      cs := Conditions(list, ignoreRTH, cancelOrder);
    }
  }

  // ----- From one end of the wire to the other -----

  ghost predicate Plain(fs: seq<Field>) {
    forall i :: 0 <= i < |fs| ==> !fs[i].Con?
  }

  lemma {:induction false} RowsArePlain(rows: seq<seq<Field>>, n: nat)
    requires n <= |rows| && forall i :: 0 <= i < |rows| ==> Plain(rows[i])
    ensures Plain(Rows(rows, n))
  {
    if n > 0 {
      RowsArePlain(rows, n - 1);
      var a, b := Rows(rows, n - 1), rows[n - 1];
      assert Plain(b);
    }
  }

  ghost predicate AllClean(fields: seq<Field>) {
    forall i :: 0 <= i < |fields| ==> Clean(fields[i])
  }

  /**
   A block of NUL-free fields, anywhere in a message, stands among the fields the message is
   split back into, right where the fields before it end.
   */
  lemma {:induction false} BlockSurvivesTheWire(pre: seq<Field>, block: seq<Field>, post: seq<Field>)
    requires Plain(block) && AllClean(pre + block + post)
    ensures Holds(FieldsOf(Message(pre + block + post)), |Slots(pre, |pre|)|, block)
  {
    hide Slots, HoldsTo, FieldsOf, Message;
    BuiltMessageReadsBackIff(pre + block + post);
    BlockInMessage(pre, block, post);
  }

  /** Wherever a contract stands in a message of NUL-free fields, it is read back from its place. */
  lemma {:induction false} ContractSurvivesTheWire(pre: seq<Field>, c: Contract, post: seq<Field>)
    requires AllClean(pre + [Con(c)] + post)
    ensures ContractAt(FieldsOf(Message(pre + [Con(c)] + post)), |Slots(pre, |pre|)|) == c
  {
    var fields := pre + [Con(c)] + post;
    assert fields == pre + ([Con(c)] + post);
    hide *;
    BuiltMessageIsClean(fields);
    ContractAmongSlots(fields, |pre|);
    SlotsStart(pre, [Con(c)] + post, |pre|);
    StandingContractReads(Slots(fields, |fields|), |Slots(pre, |pre|)|, c);
  }

  lemma BuiltMessageIsClean(fields: seq<Field>)
    requires AllClean(fields)
    ensures FieldsOf(Message(fields)) == Slots(fields, |fields|)
  {
    BuiltMessageReadsBackIff(fields);
  }

  lemma StandingContractReads(slots: seq<string>, pos: nat, c: Contract)
    requires ContractStands(slots, pos, c)
    ensures ContractAt(slots, pos) == c
  {
    IntRoundTrip(c.conID);
    hide Itoa, ParseInt;
  }

  lemma ComboIsPlain(c: Combo)
    ensures Plain(ComboFields(c))
  {
    RowsArePlain(LegRows(c.legs), |c.legs|);
    RowsArePlain(PriceRows(c.orderLegs), |c.orderLegs|);
    RowsArePlain(ParamRows(c.params), |c.params|);
    assert Plain(LegBlock(c.legs)) && Plain(PriceBlock(c.orderLegs)) && Plain(ParamBlock(c.params));
  }

  lemma ConditionsArePlain(cs: Conditions)
    ensures Plain(ConditionsFields(cs))
  {
    RowsArePlain(ConditionRows(cs.list), |cs.list|);
  }

  lemma AlgoIsPlain(a: Algo)
    ensures Plain(AlgoFields(a))
  {
    RowsArePlain(ParamRows(a.params), |a.params|);
  }

  /** The delta-neutral contract of an order arrives unchanged if and only if there is none or all of it is set. */
  lemma {:induction false} DeltaNeutralSurvivesTheWireIff(pre: seq<Field>, d: Option<DeltaNeutral>, post: seq<Field>)
    requires AllClean(pre + DeltaNeutralFields(d) + post)
    ensures DeltaNeutralAt(FieldsOf(Message(pre + DeltaNeutralFields(d) + post)), |Slots(pre, |pre|)|).value == d <==>
            d.None? || (d.value.conID != UNSET_INTEGER && d.value.delta != Unset && d.value.price != Unset)
  {
    hide Slots, Holds, FieldsOf, Message, AllClean, DeltaNeutralAt;
    BlockSurvivesTheWire(pre, DeltaNeutralFields(d), post);
    DeltaNeutralReadBackIff(FieldsOf(Message(pre + DeltaNeutralFields(d) + post)), |Slots(pre, |pre|)|, d);
  }

  /** The algorithm of an order arrives unchanged if and only if it names a strategy or has no parameters. */
  lemma {:induction false} AlgoSurvivesTheWireIff(pre: seq<Field>, a: Algo, post: seq<Field>)
    requires AllClean(pre + AlgoFields(a) + post)
    ensures AlgoAt(FieldsOf(Message(pre + AlgoFields(a) + post)), |Slots(pre, |pre|)|).value == a <==>
            a.strategy != "" || a.params == []
  {
    hide *;
    AlgoIsPlain(a);
    BlockSurvivesTheWire(pre, AlgoFields(a), post);
    AlgoReadBackIff(FieldsOf(Message(pre + AlgoFields(a) + post)), |Slots(pre, |pre|)|, a);
  }

  /** The combo of a BAG order arrives unchanged if and only if all of it is set. */
  lemma {:induction false} ComboSurvivesTheWireIff(pre: seq<Field>, c: Combo, post: seq<Field>)
    requires AllClean(pre + ComboFields(c) + post)
    ensures ComboAt(FieldsOf(Message(pre + ComboFields(c) + post)), |Slots(pre, |pre|)|).value == c <==> ComboIsSet(c)
  {
    hide *;
    ComboIsPlain(c);
    BlockSurvivesTheWire(pre, ComboFields(c), post);
    ComboReadBackIff(FieldsOf(Message(pre + ComboFields(c) + post)), |Slots(pre, |pre|)|, c);
  }

  /** The conditions of an order arrive unchanged if and only if they are faithful and no flag stands alone. */
  lemma {:induction false} ConditionsSurviveTheWireIff(pre: seq<Field>, cs: Conditions, post: seq<Field>)
    requires AllClean(pre + ConditionsFields(cs) + post)
    ensures ConditionsAt(FieldsOf(Message(pre + ConditionsFields(cs) + post)), |Slots(pre, |pre|)|).value == cs <==>
            if |cs.list| > 0 then AllFaithful(cs.list, |cs.list|) else !cs.ignoreRTH && !cs.cancelOrder
  {
    hide *;
    ConditionsArePlain(cs);
    BlockSurvivesTheWire(pre, ConditionsFields(cs), post);
    ConditionsReadBackIff(FieldsOf(Message(pre + ConditionsFields(cs) + post)), |Slots(pre, |pre|)|, cs);
  }
}
