/**
 The variable-length blocks that placing an order writes and an openOrder message reads: combo
 legs, delta-neutral contract, algorithm and conditions.
 */
module Blocks {
  import opened Wrappers
  import opened Wire
  import opened FieldReader

  /** A list whose length is an int of the source. */
  type Slice<T> = s: seq<T> | |s| <= 0x7FFF_FFFF_FFFF_FFFF witness []

  // ----- Where a block stands among the fields of a message -----

  /** Do the first `n` of the fields, encoded, stand at `pos`? */
  ghost predicate HoldsTo(slots: seq<string>, pos: nat, fs: seq<Field>, n: nat)
    requires n <= |fs|
  {
    n == 0 || (
      && HoldsTo(slots, pos, fs, n - 1)
      && !fs[n - 1].Con? && pos + n <= |slots| && slots[pos + n - 1] == Encode(fs[n - 1]))
  }

  ghost predicate Holds(slots: seq<string>, pos: nat, fs: seq<Field>) {
    HoldsTo(slots, pos, fs, |fs|)
  }

  /** The field `i` places into a block that stands at `pos`. */
  lemma {:induction false} HeldField(slots: seq<string>, pos: nat, fs: seq<Field>, n: nat, i: nat)
    requires i < n <= |fs| && HoldsTo(slots, pos, fs, n)
    ensures !fs[i].Con? && pos + i < |slots| && At(slots, pos + i) == Encode(fs[i])
    decreases n
  {
    if i < n - 1 {
      HeldField(slots, pos, fs, n - 1, i);
    }
  }

  lemma HeldText(slots: seq<string>, pos: nat, fs: seq<Field>, i: nat)
    requires i < |fs| && Holds(slots, pos, fs) && fs[i].Text?
    ensures At(slots, pos + i) == fs[i].text
  {
    HeldField(slots, pos, fs, |fs|, i);
  }

  lemma HeldInt(slots: seq<string>, pos: nat, fs: seq<Field>, i: nat)
    requires i < |fs| && Holds(slots, pos, fs) && fs[i].Int?
    ensures IntAt(slots, pos + i) == fs[i].n
  {
    HeldField(slots, pos, fs, |fs|, i);
    IntRoundTrip(fs[i].n);
  }

  lemma HeldInt64Iff(slots: seq<string>, pos: nat, fs: seq<Field>, i: nat)
    requires i < |fs| && Holds(slots, pos, fs) && fs[i].Int64?
    ensures IntAt(slots, pos + i) == fs[i].v <==> fs[i].v != UNSET_INTEGER
  {
    HeldField(slots, pos, fs, |fs|, i);
    Int64RoundTripIff(fs[i].v);
  }

  lemma HeldRealIff(slots: seq<string>, pos: nat, fs: seq<Field>, i: nat)
    requires i < |fs| && Holds(slots, pos, fs) && fs[i].Real?
    ensures FloatAt(slots, pos + i) == fs[i].f <==> fs[i].f != Unset
  {
    HeldField(slots, pos, fs, |fs|, i);
    FloatRoundTripIff(fs[i].f);
  }

  lemma HeldBool(slots: seq<string>, pos: nat, fs: seq<Field>, i: nat)
    requires i < |fs| && Holds(slots, pos, fs) && fs[i].Bool?
    ensures BoolAt(slots, pos + i) == fs[i].b
  {
    HeldField(slots, pos, fs, |fs|, i);
  }

  lemma {:induction false} HoldsFirst(slots: seq<string>, pos: nat, a: seq<Field>, b: seq<Field>, n: nat)
    requires n <= |a| && HoldsTo(slots, pos, a + b, n)
    ensures HoldsTo(slots, pos, a, n)
  {
    if n > 0 {
      HoldsFirst(slots, pos, a, b, n - 1);
    }
  }

  lemma {:induction false} HoldsSecond(slots: seq<string>, pos: nat, a: seq<Field>, b: seq<Field>, n: nat)
    requires n <= |b| && HoldsTo(slots, pos, a + b, |a| + n)
    ensures HoldsTo(slots, pos + |a|, b, n) && HoldsTo(slots, pos, a + b, |a|)
  {
    if n > 0 {
      assert (a + b)[|a| + n - 1] == b[n - 1];
      HoldsSecond(slots, pos, a, b, n - 1);
    }
  }

  lemma HoldsConcat(slots: seq<string>, pos: nat, a: seq<Field>, b: seq<Field>)
    requires Holds(slots, pos, a + b)
    ensures Holds(slots, pos, a) && Holds(slots, pos + |a|, b)
  {
    HoldsSecond(slots, pos, a, b, |b|);
    HoldsFirst(slots, pos, a, b, |a|);
  }

  lemma HoldsThree(slots: seq<string>, pos: nat, a: seq<Field>, b: seq<Field>, c: seq<Field>)
    requires Holds(slots, pos, a + b + c)
    ensures Holds(slots, pos, a) && Holds(slots, pos + |a|, b) && Holds(slots, pos + |a| + |b|, c)
  {
    HoldsConcat(slots, pos, a + b, c);
    HoldsConcat(slots, pos, a, b);
  }

  /** The first `n` rows one after the other. */
  function Rows(rows: seq<seq<Field>>, n: nat): seq<Field>
    requires n <= |rows|
  {
    if n == 0 then [] else Rows(rows, n - 1) + rows[n - 1]
  }

  lemma {:induction false} RowHeld(slots: seq<string>, pos: nat, rows: seq<seq<Field>>, n: nat, i: nat)
    requires i < n <= |rows| && Holds(slots, pos, Rows(rows, n))
    ensures Holds(slots, pos + |Rows(rows, i)|, rows[i])
    decreases n
  {
    HoldsConcat(slots, pos, Rows(rows, n - 1), rows[n - 1]);
    if i < n - 1 {
      RowHeld(slots, pos, rows, n - 1, i);
    }
  }

  lemma {:induction false} RowsWidth(rows: seq<seq<Field>>, n: nat, w: nat)
    requires n <= |rows| && forall i :: 0 <= i < |rows| ==> |rows[i]| == w
    ensures |Rows(rows, n)| == w * n
  {
    if n > 0 {
      RowsWidth(rows, n - 1, w);
    }
  }

  /** A block stands in a message right after the wire fields of what comes before it. */
  lemma {:induction false} BlockInMessage(pre: seq<Field>, block: seq<Field>, post: seq<Field>)
    requires forall i :: 0 <= i < |block| ==> !block[i].Con?
    ensures Holds(Slots(pre + block + post, |pre + block + post|), |Slots(pre, |pre|)|, block)
  {
    hide HoldsTo, Slots, Encode;
    SlotsStart(pre + block, post, |pre + block|);
    SlotsStart(pre, block, |pre|);
    StandsFrom(pre, block, |block|);
    SlotsGrow(pre + block + post, |pre + block|, |pre + block + post|);
    HoldsInLonger(Slots(pre + block, |pre + block|), Slots(pre + block + post, |pre + block + post|),
                  |Slots(pre, |pre|)|, block, |block|);
  }

  lemma {:induction false} SlotsStart(a: seq<Field>, b: seq<Field>, n: nat)
    requires n <= |a|
    ensures Slots(a + b, n) == Slots(a, n)
  {
    if n > 0 {
      SlotsStart(a, b, n - 1);
    }
  }

  lemma {:induction false} HoldsInLonger(slots: seq<string>, more: seq<string>, pos: nat, fs: seq<Field>, n: nat)
    requires n <= |fs| && slots <= more && HoldsTo(slots, pos, fs, n)
    ensures HoldsTo(more, pos, fs, n)
  {
    if n > 0 {
      HoldsInLonger(slots, more, pos, fs, n - 1);
    }
  }

  lemma {:induction false} StandsFrom(pre: seq<Field>, block: seq<Field>, n: nat)
    requires n <= |block| && forall i :: 0 <= i < |block| ==> !block[i].Con?
    ensures |Slots(pre + block, |pre| + n)| == |Slots(pre, |pre|)| + n
    ensures HoldsTo(Slots(pre + block, |pre| + n), |Slots(pre, |pre|)|, block, n)
  {
    if n == 0 {
      SlotsStart(pre, block, |pre|);
    } else {
      StandsFrom(pre, block, n - 1);
      NextSlot(pre, block, n);
      HoldsNext(Slots(pre + block, |pre| + n - 1), |Slots(pre, |pre|)|, block, n);
      hide *;
    }
  }

  lemma HoldsNext(slots: seq<string>, pos: nat, block: seq<Field>, n: nat)
    requires 0 < n <= |block| && !block[n - 1].Con? && |slots| == pos + n - 1 && HoldsTo(slots, pos, block, n - 1)
    ensures HoldsTo(slots + [Encode(block[n - 1])], pos, block, n)
  {
    hide Encode;
    HoldsInLonger(slots, slots + [Encode(block[n - 1])], pos, block, n - 1);
  }

  lemma NextSlot(pre: seq<Field>, block: seq<Field>, n: nat)
    requires 0 < n <= |block| && !block[n - 1].Con?
    ensures Slots(pre + block, |pre| + n) == Slots(pre + block, |pre| + n - 1) + [Encode(block[n - 1])]
  {
    hide Encode;
    assert (pre + block)[|pre| + n - 1] == block[n - 1];
  }

  // ----- Contracts -----

  /** A contract read by the places of its 12 wire fields. */
  function ContractAt(slots: seq<string>, pos: nat): Contract {
    Contract(conID := IntAt(slots, pos), symbol := At(slots, pos + 1), secType := At(slots, pos + 2),
             lastTradeDate := At(slots, pos + 3), strike := At(slots, pos + 4), right := At(slots, pos + 5),
             multiplier := At(slots, pos + 6), exchange := At(slots, pos + 7), primaryExchange := At(slots, pos + 8),
             currency := At(slots, pos + 9), localSymbol := At(slots, pos + 10), tradingClass := At(slots, pos + 11))
  }

  // ----- Combo legs -----

  datatype ComboLeg = ComboLeg(
    conID: int64, ratio: int64, action: string, exchange: string, openClose: int64, shortSaleSlot: int64,
    designatedLocation: string, exemptCode: int64)

  datatype Combo = Combo(legs: Slice<ComboLeg>, orderLegs: Slice<Float>, params: Slice<TagValue>)

  function LegFields(leg: ComboLeg): seq<Field> {
    [Int64(leg.conID), Int(leg.ratio), Text(leg.action), Text(leg.exchange), Int(leg.openClose),
     Int(leg.shortSaleSlot), Text(leg.designatedLocation), Int(leg.exemptCode)]
  }

  function LegRows(legs: seq<ComboLeg>): seq<seq<Field>> {
    seq(|legs|, i requires 0 <= i < |legs| => LegFields(legs[i]))
  }

  function PriceRows(prices: seq<Float>): seq<seq<Field>> {
    seq(|prices|, i requires 0 <= i < |prices| => [Real(prices[i])])
  }

  function ParamFields(p: TagValue): seq<Field> {
    [Text(p.tag), Text(p.value)]
  }

  function ParamRows(params: seq<TagValue>): seq<seq<Field>> {
    seq(|params|, i requires 0 <= i < |params| => ParamFields(params[i]))
  }

  function LegBlock(legs: Slice<ComboLeg>): seq<Field>
  {
    [Int(|legs|)] + Rows(LegRows(legs), |legs|)
  }

  function PriceBlock(prices: Slice<Float>): seq<Field>
  {
    [Int(|prices|)] + Rows(PriceRows(prices), |prices|)
  }

  function ParamBlock(params: Slice<TagValue>): seq<Field>
  {
    [Int(|params|)] + Rows(ParamRows(params), |params|)
  }

  function ComboFields(c: Combo): seq<Field> {
    LegBlock(c.legs) + PriceBlock(c.orderLegs) + ParamBlock(c.params)
  }

  /** How many entries a count stands for: none when it is negative. */
  function CountAt(slots: seq<string>, pos: nat): nat {
    if IntAt(slots, pos) > 0 then IntAt(slots, pos) else 0
  }

  function LegAt(slots: seq<string>, pos: nat): ComboLeg {
    ComboLeg(IntAt(slots, pos), IntAt(slots, pos + 1), At(slots, pos + 2), At(slots, pos + 3), IntAt(slots, pos + 4),
             IntAt(slots, pos + 5), At(slots, pos + 6), IntAt(slots, pos + 7))
  }

  function LegsAt(slots: seq<string>, pos: nat, n: nat): seq<ComboLeg> {
    seq(n, i requires 0 <= i < n => LegAt(slots, pos + 8 * i))
  }

  function PricesAt(slots: seq<string>, pos: nat, n: nat): seq<Float> {
    seq(n, i requires 0 <= i < n => FloatAt(slots, pos + i))
  }

  function ParamAt(slots: seq<string>, pos: nat): TagValue {
    TagValue(At(slots, pos), At(slots, pos + 1))
  }

  function ParamsAt(slots: seq<string>, pos: nat, n: nat): seq<TagValue> {
    seq(n, i requires 0 <= i < n => ParamAt(slots, pos + 2 * i))
  }

  /** A value read, and the position after it. */
  datatype Read<T> = Read(value: T, end: nat)

  function LegBlockAt(slots: seq<string>, pos: nat): Read<Slice<ComboLeg>> {
    var n := CountAt(slots, pos);
    Read(LegsAt(slots, pos + 1, n), pos + 1 + 8 * n)
  }

  function PriceBlockAt(slots: seq<string>, pos: nat): Read<Slice<Float>> {
    var n := CountAt(slots, pos);
    Read(PricesAt(slots, pos + 1, n), pos + 1 + n)
  }

  function ParamBlockAt(slots: seq<string>, pos: nat): Read<Slice<TagValue>> {
    var n := CountAt(slots, pos);
    Read(ParamsAt(slots, pos + 1, n), pos + 1 + 2 * n)
  }

  function ComboAt(slots: seq<string>, pos: nat): Read<Combo> {
    var legs := LegBlockAt(slots, pos);
    var prices := PriceBlockAt(slots, legs.end);
    var params := ParamBlockAt(slots, prices.end);
    Read(Combo(legs.value, prices.value, params.value), params.end)
  }

  /** Is no part of the block a value that stands for "not set"? */
  ghost predicate ComboIsSet(c: Combo) {
    && (forall i :: 0 <= i < |c.legs| ==> c.legs[i].conID != UNSET_INTEGER)
    && (forall i :: 0 <= i < |c.orderLegs| ==> c.orderLegs[i] != Unset)
  }

  lemma LegReadBackIff(slots: seq<string>, pos: nat, leg: ComboLeg)
    requires Holds(slots, pos, LegFields(leg))
    ensures LegAt(slots, pos) == leg <==> leg.conID != UNSET_INTEGER
  {
    hide Holds, At, IntAt;
    var fs := LegFields(leg);
    HeldInt64Iff(slots, pos, fs, 0);
    HeldInt(slots, pos, fs, 1);
    HeldText(slots, pos, fs, 2);
    HeldText(slots, pos, fs, 3);
    HeldInt(slots, pos, fs, 4);
    HeldInt(slots, pos, fs, 5);
    HeldText(slots, pos, fs, 6);
    HeldInt(slots, pos, fs, 7);
  }

  lemma SameIff<T>(a: seq<T>, b: seq<T>)
    requires |a| == |b|
    ensures a == b <==> forall i :: 0 <= i < |a| ==> a[i] == b[i]
  {
  }

  lemma LegRowsWidth(legs: seq<ComboLeg>, n: nat)
    requires n <= |legs|
    ensures |Rows(LegRows(legs), n)| == 8 * n
  {
    hide Rows;
    RowsWidth(LegRows(legs), n, 8);
  }

  lemma LegInRows(slots: seq<string>, pos: nat, legs: seq<ComboLeg>, i: nat)
    requires i < |legs| && Holds(slots, pos, Rows(LegRows(legs), |legs|))
    ensures LegAt(slots, pos + 8 * i) == legs[i] <==> legs[i].conID != UNSET_INTEGER
  {
    hide Holds, Rows, LegFields, LegAt;
    LegRowsWidth(legs, i);
    RowHeld(slots, pos, LegRows(legs), |legs|, i);
    LegReadBackIff(slots, pos + 8 * i, legs[i]);
  }

  lemma {:induction false} LegsReadBackIff(slots: seq<string>, pos: nat, legs: seq<ComboLeg>)
    requires Holds(slots, pos, Rows(LegRows(legs), |legs|))
    ensures LegsAt(slots, pos, |legs|) == legs <==> forall i :: 0 <= i < |legs| ==> legs[i].conID != UNSET_INTEGER
  {
    hide Holds, Rows, LegRows, LegAt;
    var r := LegsAt(slots, pos, |legs|);
    forall i | 0 <= i < |legs| ensures r[i] == legs[i] <==> legs[i].conID != UNSET_INTEGER {
      LegInRows(slots, pos, legs, i);
    }
    SameIff(r, legs);
  }

  lemma {:induction false} PricesReadBackIff(slots: seq<string>, pos: nat, prices: seq<Float>)
    requires Holds(slots, pos, Rows(PriceRows(prices), |prices|))
    ensures PricesAt(slots, pos, |prices|) == prices <==> forall i :: 0 <= i < |prices| ==> prices[i] != Unset
  {
    var r := PricesAt(slots, pos, |prices|);
    forall i | 0 <= i < |prices| ensures r[i] == prices[i] <==> prices[i] != Unset {
      RowsWidth(PriceRows(prices), i, 1);
      RowHeld(slots, pos, PriceRows(prices), |prices|, i);
      HeldRealIff(slots, pos + i, [Real(prices[i])], 0);
    }
    SameIff(r, prices);
  }

  lemma {:induction false} ParamsReadBack(slots: seq<string>, pos: nat, params: seq<TagValue>)
    requires Holds(slots, pos, Rows(ParamRows(params), |params|))
    ensures ParamsAt(slots, pos, |params|) == params
  {
    var r := ParamsAt(slots, pos, |params|);
    forall i | 0 <= i < |params| ensures r[i] == params[i] {
      RowsWidth(ParamRows(params), i, 2);
      RowHeld(slots, pos, ParamRows(params), |params|, i);
      var fs := ParamFields(params[i]);
      HeldText(slots, pos + 2 * i, fs, 0);
      HeldText(slots, pos + 2 * i, fs, 1);
    }
    SameIff(r, params);
  }

  /** A list stands behind its length. */
  lemma HeldCount(slots: seq<string>, pos: nat, n: int64, rest: seq<Field>)
    requires n >= 0 && Holds(slots, pos, [Int(n)] + rest)
    ensures CountAt(slots, pos) == n && Holds(slots, pos + 1, rest)
  {
    HoldsConcat(slots, pos, [Int(n)], rest);
    HeldInt(slots, pos, [Int(n)], 0);
  }

  /** A list whose count is empty, no number, zero or negative is read as empty. */
  lemma NoCountNoList(slots: seq<string>, pos: nat)
    requires IntAt(slots, pos) <= 0
    ensures LegBlockAt(slots, pos).value == [] && LegBlockAt(slots, pos).end == pos + 1
    ensures PriceBlockAt(slots, pos).value == [] && PriceBlockAt(slots, pos).end == pos + 1
    ensures ParamBlockAt(slots, pos).value == [] && ParamBlockAt(slots, pos).end == pos + 1
  {
  }

  lemma LegBlockReadBackIff(slots: seq<string>, pos: nat, legs: Slice<ComboLeg>)
    requires Holds(slots, pos, LegBlock(legs))
    ensures LegBlockAt(slots, pos).end == pos + |LegBlock(legs)|
    ensures LegBlockAt(slots, pos).value == legs <==> forall i :: 0 <= i < |legs| ==> legs[i].conID != UNSET_INTEGER
  {
    hide Holds, Rows, LegFields, LegAt;
    HeldCount(slots, pos, |legs|, Rows(LegRows(legs), |legs|));
    LegRowsWidth(legs, |legs|);
    LegsReadBackIff(slots, pos + 1, legs);
  }

  lemma PriceBlockReadBackIff(slots: seq<string>, pos: nat, prices: Slice<Float>)
    requires Holds(slots, pos, PriceBlock(prices))
    ensures PriceBlockAt(slots, pos).end == pos + |PriceBlock(prices)|
    ensures PriceBlockAt(slots, pos).value == prices <==> forall i :: 0 <= i < |prices| ==> prices[i] != Unset
  {
    HeldCount(slots, pos, |prices|, Rows(PriceRows(prices), |prices|));
    RowsWidth(PriceRows(prices), |prices|, 1);
    PricesReadBackIff(slots, pos + 1, prices);
  }

  lemma ParamBlockReadBack(slots: seq<string>, pos: nat, params: Slice<TagValue>)
    requires Holds(slots, pos, ParamBlock(params))
    ensures ParamBlockAt(slots, pos) == Read(params, pos + |ParamBlock(params)|)
  {
    HeldCount(slots, pos, |params|, Rows(ParamRows(params), |params|));
    RowsWidth(ParamRows(params), |params|, 2);
    ParamsReadBack(slots, pos + 1, params);
  }

  /**
   The reader stops exactly at the end of an emitted combo block, and reads the same combo
   if and only if no ConID and no leg price in it is a value that stands for "not set".
   */
  lemma ComboReadBackIff(slots: seq<string>, pos: nat, c: Combo)
    requires Holds(slots, pos, ComboFields(c))
    ensures ComboAt(slots, pos).end == pos + |ComboFields(c)|
    ensures ComboAt(slots, pos).value == c <==> ComboIsSet(c)
  {
    hide Holds, LegBlock, PriceBlock, ParamBlock, LegBlockAt, PriceBlockAt, ParamBlockAt;
    var legs, prices, params := LegBlock(c.legs), PriceBlock(c.orderLegs), ParamBlock(c.params);
    HoldsThree(slots, pos, legs, prices, params);
    LegBlockReadBackIff(slots, pos, c.legs);
    PriceBlockReadBackIff(slots, pos + |legs|, c.orderLegs);
    ParamBlockReadBack(slots, pos + |legs| + |prices|, c.params);
    assert |ComboFields(c)| == |legs| + |prices| + |params|;
  }

  // ----- Delta-neutral contract -----

  datatype DeltaNeutral = DeltaNeutral(conID: int64, delta: Float, price: Float)

  function DeltaNeutralFields(d: Option<DeltaNeutral>): seq<Field> {
    match d
    case None => [Bool(false)]
    case Some(dnc) => [Bool(true), Int64(dnc.conID), Real(dnc.delta), Real(dnc.price)]
  }

  function DeltaNeutralAt(slots: seq<string>, pos: nat): Read<Option<DeltaNeutral>> {
    if BoolAt(slots, pos)
    then Read(Some(DeltaNeutral(IntAt(slots, pos + 1), FloatAt(slots, pos + 2), FloatAt(slots, pos + 3))), pos + 4)
    else Read(None, pos + 1)
  }

  /**
   The reader stops exactly at the end of an emitted delta-neutral block, and reads the same
   one if and only if there is none or none of its values stands for "not set".
   */
  lemma DeltaNeutralReadBackIff(slots: seq<string>, pos: nat, d: Option<DeltaNeutral>)
    requires Holds(slots, pos, DeltaNeutralFields(d))
    ensures DeltaNeutralAt(slots, pos).end == pos + |DeltaNeutralFields(d)|
    ensures DeltaNeutralAt(slots, pos).value == d <==>
            d.None? || (d.value.conID != UNSET_INTEGER && d.value.delta != Unset && d.value.price != Unset)
  {
    var fs := DeltaNeutralFields(d);
    HeldBool(slots, pos, fs, 0);
    if d.Some? {
      HeldInt64Iff(slots, pos, fs, 1);
      HeldRealIff(slots, pos, fs, 2);
      HeldRealIff(slots, pos, fs, 3);
    }
  }

  // ----- Algorithm -----

  datatype Algo = Algo(strategy: string, params: Slice<TagValue>)

  function AlgoFields(a: Algo): seq<Field> {
    [Text(a.strategy)] + if a.strategy != "" then ParamBlock(a.params) else []
  }

  function AlgoAt(slots: seq<string>, pos: nat): Read<Algo> {
    var strategy := At(slots, pos);
    if strategy != "" then
      var params := ParamBlockAt(slots, pos + 1);
      Read(Algo(strategy, params.value), params.end)
    else Read(Algo(strategy, []), pos + 1)
  }

  /**
   The reader stops exactly at the end of an emitted algorithm block, and reads the same one if
   and only if it names a strategy or has no parameters.
   */
  lemma AlgoReadBackIff(slots: seq<string>, pos: nat, a: Algo)
    requires Holds(slots, pos, AlgoFields(a))
    ensures AlgoAt(slots, pos).end == pos + |AlgoFields(a)|
    ensures AlgoAt(slots, pos).value == a <==> a.strategy != "" || a.params == []
  {
    hide Holds, ParamBlock, ParamBlockAt, At;
    var rest := if a.strategy != "" then ParamBlock(a.params) else [];
    HoldsConcat(slots, pos, [Text(a.strategy)], rest);
    HeldText(slots, pos, [Text(a.strategy)], 0);
    if a.strategy != "" {
      ParamBlockReadBack(slots, pos + 1, a.params);
    }
  }
}
