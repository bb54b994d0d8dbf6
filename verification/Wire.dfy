/**
 Field encoding and message building.  Text is a sequence of chars, one per byte; a float is
 the text that Go prints for it.
 */
module Wire {
  type int64 = x: int | -0x8000_0000_0000_0000 <= x < 0x8000_0000_0000_0000

  const NUL: char := 0 as char

  /** The int64 that stands for "not set". */
  const UNSET_INTEGER: int64 := 0x7FFF_FFFF

  // ----- Decimal integers -----

  function Digit(d: int): char
    requires 0 <= d < 10
  {
    ('0' as int + d) as char
  }

  function Digits(n: nat): string {
    if n < 10 then [Digit(n)] else Digits(n / 10) + [Digit(n % 10)]
  }

  function Itoa(n: int): string {
    if n < 0 then "-" + Digits(-n) else Digits(n)
  }

  const MAX_UINT64: nat := 0xFFFF_FFFF_FFFF_FFFF

  /** Parsing an unsigned number left to right stops at the first character that is no digit or overflows. */
  datatype Parsed = Value(n: nat) | BadSyntax | OutOfRange

  function ParseUint(s: string, k: nat): Parsed
    requires k <= |s|
  {
    if k == 0 then Value(0) else
    var p := ParseUint(s, k - 1);
    if !p.Value? then p
    else if !('0' <= s[k - 1] <= '9') then BadSyntax
    else
      var n := p.n * 10 + (s[k - 1] as int - '0' as int);
      if n > MAX_UINT64 then OutOfRange else Value(n)
  }

  const MAX_INT64: int64 := 0x7FFF_FFFF_FFFF_FFFF
  const MIN_INT64: int64 := -0x8000_0000_0000_0000

  function Signed(neg: bool, n: int): int64
    requires n >= 0
  {
    if neg then (if -n < MIN_INT64 then MIN_INT64 else -n) else if n > MAX_INT64 then MAX_INT64 else n
  }

  /** Does `strconv.ParseInt` in base 10 report no error? */
  predicate IsInt(s: string) {
    s != "" &&
    var neg := s[0] == '-';
    var digits := if neg || s[0] == '+' then s[1..] else s;
    digits != "" &&
    match ParseUint(digits, |digits|)
    case Value(n) => n < 0x8000_0000_0000_0000 || (neg && n == 0x8000_0000_0000_0000)
    case _ => false
  }

  /** `strconv.ParseInt` in base 10, with its error dropped: 0 for bad syntax, the nearest int64 when out of range. */
  function ParseInt(s: string): int64 {
    if s == "" then 0 else
    var neg := s[0] == '-';
    var digits := if neg || s[0] == '+' then s[1..] else s;
    if digits == "" then 0 else
    match ParseUint(digits, |digits|)
    case BadSyntax => 0
    case OutOfRange => if neg then MIN_INT64 else MAX_INT64
    case Value(n) => Signed(neg, n)
  }

  lemma {:induction false} ParseUintPrefix(s: string, t: string, k: nat)
    requires k <= |s|
    ensures ParseUint(s + t, k) == ParseUint(s, k)
  {
    if k > 0 {
      ParseUintPrefix(s, t, k - 1);
    }
  }

  lemma {:induction false} DigitsParse(n: nat)
    requires n <= MAX_UINT64
    ensures Digits(n) != "" && ParseUint(Digits(n), |Digits(n)|) == Value(n)
    ensures forall i :: 0 <= i < |Digits(n)| ==> '0' <= Digits(n)[i] <= '9'
  {
    if n >= 10 {
      DigitsParse(n / 10);
      ParseUintPrefix(Digits(n / 10), [Digit(n % 10)], |Digits(n / 10)|);
    } else {
      assert ParseUint(Digits(n), 0) == Value(0);
    }
  }

  /** Every int64 is recovered from its decimal text, which holds no NUL. */
  lemma IntRoundTrip(n: int64)
    ensures ParseInt(Itoa(n)) == n && NulFree(Itoa(n)) && Itoa(n) != ""
  {
    var m: int := n;
    if m < 0 {
      DigitsParse(-m);
      SignedParse("-", Digits(-m));
    } else {
      DigitsParse(n);
      SignedParse("", Digits(m));
    }
  }

  /** Parsing a sign, or none, and digits. */
  lemma SignedParse(sign: string, digits: string)
    requires sign == "" || sign == "-"
    requires digits != "" && '0' <= digits[0] <= '9' && ParseUint(digits, |digits|).Value?
    ensures ParseInt(sign + digits) == Signed(sign == "-", ParseUint(digits, |digits|).n)
  {
    hide ParseUint, Signed;
    if sign == "" {
      assert sign + digits == digits;
    } else {
      assert (sign + digits)[1..] == digits;
    }
  }

  // ----- Fields -----

  /** A printed number; the empty text and the two spellings of infinity are not among them. */
  type NumberText = s: string | s != "" && s != "Infinite" && s != "Infinity" witness "0"

  datatype Float = Unset | Infinite | Number(text: NumberText)

  datatype TagValue = TagValue(tag: string, value: string)

  datatype Contract = Contract(
    conID: int64, symbol: string, secType: string, lastTradeDate: string, strike: string, right: string,
    multiplier: string, exchange: string, primaryExchange: string, currency: string, localSymbol: string,
    tradingClass: string)

  datatype Field =
    | Nil
    | Text(text: string)
    | Int(n: int64)
    | Int64(v: int64)
    | Real(f: Float)
    | Bool(b: bool)
    | Tags(tags: seq<TagValue>)
    | Con(con: Contract)

  function TagText(tags: seq<TagValue>, n: nat): string
    requires n <= |tags|
  {
    if n == 0 then "" else TagText(tags, n - 1) + tags[n - 1].tag + "=" + tags[n - 1].value + ";"
  }

  /** The text of a tag-value list, taken apart again: what stands before each semicolon, cut at its first equals sign. */
  function TagsIn(text: string): seq<TagValue> {
    var pieces := Split(text, ';', |text|);
    seq(|pieces| - 1, i requires 0 <= i < |pieces| - 1 => TagIn(pieces[i]))
  }

  function TagIn(piece: string): TagValue {
    var k := Find(piece, '=', 0);
    if k < |piece| then TagValue(piece[..k], piece[k + 1..]) else TagValue(piece, "")
  }

  /** Where a char first stands from `k` on, or the end. */
  function Find(s: string, c: char, k: nat): (r: nat)
    requires k <= |s|
    ensures k <= r <= |s| && (r < |s| ==> s[r] == c) && forall i :: k <= i < r ==> s[i] != c
    decreases |s| - k
  {
    if k == |s| || s[k] == c then k else Find(s, c, k + 1)
  }

  /** The wire text of a field that is no contract. */
  function Encode(f: Field): string
    requires !f.Con?
  {
    match f
    case Nil => ""
    case Text(s) => s
    case Int(n) => Itoa(n)
    case Int64(v) => if v == UNSET_INTEGER then "" else Itoa(v)
    case Real(Unset) => ""
    case Real(Infinite) => "Infinite"
    case Real(Number(text)) => text
    case Bool(b) => if b then "1" else "0"
    case Tags(tags) => TagText(tags, |tags|)
  }

  /** The 12 wire fields of a contract. */
  function ContractSlots(c: Contract): (r: seq<string>)
    ensures |r| == 12
  {
    [Itoa(c.conID), c.symbol, c.secType, c.lastTradeDate, c.strike, c.right, c.multiplier, c.exchange,
     c.primaryExchange, c.currency, c.localSymbol, c.tradingClass]
  }

  function SlotsOf(f: Field): seq<string> {
    if f.Con? then ContractSlots(f.con) else [Encode(f)]
  }

  /** The wire fields of the first `n` fields. */
  function Slots(fields: seq<Field>, n: nat): seq<string>
    requires n <= |fields|
  {
    if n == 0 then [] else Slots(fields, n - 1) + SlotsOf(fields[n - 1])
  }

  /** The first `n` wire fields, each ended by a NUL. */
  function Ended(slots: seq<string>, n: nat): string
    requires n <= |slots|
  {
    if n == 0 then "" else Ended(slots, n - 1) + slots[n - 1] + [NUL]
  }

  ghost predicate NulFree(s: string) {
    forall i :: 0 <= i < |s| ==> s[i] != NUL
  }

  ghost predicate AllNulFree(slots: seq<string>) {
    forall i :: 0 <= i < |slots| ==> NulFree(slots[i])
  }

  // ----- Splitting -----

  /** The pieces of the first `n` chars between separators: one more than there are separators. */
  function Split(s: string, sep: char, n: nat): (r: seq<string>)
    requires n <= |s|
    ensures |r| > 0
  {
    if n == 0 then [""] else
    var r := Split(s, sep, n - 1);
    if s[n - 1] == sep then r + [""] else r[|r| - 1 := r[|r| - 1] + [s[n - 1]]]
  }

  /** What the reader makes of a message: its pieces, without a last one that is empty. */
  function FieldsOf(msg: string): seq<string> {
    var r := Split(msg, NUL, |msg|);
    if r[|r| - 1] == "" then r[..|r| - 1] else r
  }

  lemma {:induction false} SplitPrefix(s: string, t: string, n: nat, sep: char := NUL)
    requires n <= |s|
    ensures Split(s + t, sep, n) == Split(s, sep, n)
  {
    if n > 0 {
      SplitPrefix(s, t, n - 1, sep);
    }
  }

  /** Splitting `s + t`, where `t` has no separator, lengthens the last piece. */
  lemma {:induction false} SplitText(s: string, t: string, k: nat, sep: char := NUL)
    requires k <= |t| && forall i :: 0 <= i < |t| ==> t[i] != sep
    ensures var r := Split(s, sep, |s|); Split(s + t, sep, |s| + k) == r[|r| - 1 := r[|r| - 1] + t[..k]]
  {
    var r := Split(s, sep, |s|);
    if k == 0 {
      SplitPrefix(s, t, |s|, sep);
      assert r[|r| - 1] + t[..0] == r[|r| - 1];
    } else {
      SplitText(s, t, k - 1, sep);
      assert (s + t)[|s| + k - 1] == t[k - 1];
      assert r[|r| - 1] + t[..k] == r[|r| - 1] + t[..k - 1] + [t[k - 1]];
    }
  }

  lemma {:induction false} SplitEnded(slots: seq<string>, n: nat)
    requires n <= |slots| && AllNulFree(slots)
    ensures Split(Ended(slots, n), NUL, |Ended(slots, n)|) == slots[..n] + [""]
  {
    hide Split;
    if n == 0 {
      SplitNothing();
    } else {
      SplitEnded(slots, n - 1);
      SplitPiece(Ended(slots, n - 1), slots[n - 1], slots[..n - 1]);
      assert slots[..n] == slots[..n - 1] + [slots[n - 1]];
    }
  }

  lemma SplitNothing()
    ensures Split("", NUL, 0) == [""]
  {
  }

  /** One more text, ended by a separator, is one more piece. */
  lemma SplitPiece(s: string, t: string, pieces: seq<string>, sep: char := NUL)
    requires (forall i :: 0 <= i < |t| ==> t[i] != sep) && Split(s, sep, |s|) == pieces + [""]
    ensures Split(s + t + [sep], sep, |s + t + [sep]|) == pieces + [t] + [""]
  {
    SplitText(s, t, |t|, sep);
    SplitPrefix(s + t, [sep], |s + t|, sep);
    assert "" + t[..|t|] == t;
    assert Split(s + t, sep, |s + t|) == pieces + [t];
  }

  lemma {:induction false} PiecesHoldNoSeparator(s: string, sep: char, n: nat, j: nat)
    requires n <= |s| && j < |Split(s, sep, n)|
    ensures sep !in Split(s, sep, n)[j]
  {
    if n > 0 {
      var r := Split(s, sep, n - 1);
      PiecesHoldNoSeparator(s, sep, n - 1, if j < |r| then j else 0);
    }
  }

  function Nuls(s: string, n: nat): nat
    requires n <= |s|
  {
    if n == 0 then 0 else Nuls(s, n - 1) + if s[n - 1] == NUL then 1 else 0
  }

  lemma {:induction false} OnePieceMoreThanNuls(s: string, n: nat)
    requires n <= |s|
    ensures |Split(s, NUL, n)| == Nuls(s, n) + 1
  {
    if n > 0 {
      OnePieceMoreThanNuls(s, n - 1);
    }
  }

  lemma {:induction false} NulsOfConcat(s: string, t: string, k: nat)
    requires k <= |t|
    ensures Nuls(s + t, |s| + k) == Nuls(s, |s|) + Nuls(t, k)
  {
    if k == 0 {
      NulsOfPrefix(s, t, |s|);
    } else {
      NulsOfConcat(s, t, k - 1);
      assert (s + t)[|s| + k - 1] == t[k - 1];
    }
  }

  lemma {:induction false} NulsOfPrefix(s: string, t: string, n: nat)
    requires n <= |s|
    ensures Nuls(s + t, n) == Nuls(s, n)
  {
    if n > 0 {
      NulsOfPrefix(s, t, n - 1);
    }
  }

  lemma {:induction false} NulFreeIffNoNuls(s: string, n: nat)
    requires n <= |s|
    ensures Nuls(s, n) == 0 <==> forall i :: 0 <= i < n ==> s[i] != NUL
  {
    if n > 0 {
      NulFreeIffNoNuls(s, n - 1);
    }
  }

  /** A message holds one NUL per wire field, and more just when some field holds one. */
  lemma {:induction false} NulsOfEnded(slots: seq<string>, n: nat)
    requires n <= |slots|
    ensures Nuls(Ended(slots, n), |Ended(slots, n)|) >= n
    ensures Nuls(Ended(slots, n), |Ended(slots, n)|) == n ==> forall i :: 0 <= i < n ==> NulFree(slots[i])
  {
    if n > 0 {
      NulsOfEnded(slots, n - 1);
      var s, t := Ended(slots, n - 1), slots[n - 1];
      NulsOfConcat(s, t, |t|);
      NulsOfConcat(s + t, [NUL], 1);
      NulFreeIffNoNuls(t, |t|);
    }
  }

  lemma EndedLast(slots: seq<string>)
    requires |slots| > 0
    ensures var m := Ended(slots, |slots|); |FieldsOf(m)| == Nuls(m, |m|)
  {
    var m := Ended(slots, |slots|);
    OnePieceMoreThanNuls(m, |m|);
    assert m[|m| - 1] == NUL;
  }

  /** A message is split back into exactly the wire fields it was built from if and only if none of them holds a NUL. */
  lemma MessageRoundTripIff(slots: seq<string>)
    ensures FieldsOf(Ended(slots, |slots|)) == slots <==> AllNulFree(slots)
  {
    if AllNulFree(slots) {
      SplitEnded(slots, |slots|);
      assert slots[..|slots|] == slots;
    } else {
      EndedLast(slots);
      NulsOfEnded(slots, |slots|);
    }
  }

  lemma {:induction false} PiecesRejoin(s: string, n: nat)
    requires n <= |s|
    ensures var r := Split(s, NUL, n); Ended(r, |r| - 1) + r[|r| - 1] == s[..n]
  {
    if n > 0 {
      PiecesRejoin(s, n - 1);
      RejoinStep(Split(s, NUL, n - 1), Split(s, NUL, n), s[n - 1]);
      assert s[..n] == s[..n - 1] + [s[n - 1]];
    }
  }

  lemma {:induction false} RejoinStep(q: seq<string>, r: seq<string>, c: char)
    requires |q| > 0 && r == if c == NUL then q + [""] else q[|q| - 1 := q[|q| - 1] + [c]]
    ensures Ended(r, |r| - 1) + r[|r| - 1] == Ended(q, |q| - 1) + q[|q| - 1] + [c]
  {
    EndedPrefix(q, r, |q| - 1);
    if c == NUL {
      EndedPrefix(q, r, |q|);
      assert Ended(r, |r| - 1) + "" == Ended(q, |q| - 1) + q[|q| - 1] + [NUL];
    }
  }

  lemma {:induction false} EndedPrefix(a: seq<string>, b: seq<string>, n: nat)
    requires n <= |a| && n <= |b| && forall i :: 0 <= i < n ==> a[i] == b[i]
    ensures Ended(a, n) == Ended(b, n)
  {
    if n > 0 {
      EndedPrefix(a, b, n - 1);
    }
  }

  lemma LastPieceEmptyIff(msg: string)
    ensures var r := Split(msg, NUL, |msg|); r[|r| - 1] == "" <==> msg == "" || msg[|msg| - 1] == NUL
  {
  }

  /** Conversely, rebuilding a message from its fields gives it back if and only if it is empty or ends in NUL. */
  lemma FieldsRoundTripIff(msg: string)
    ensures Ended(FieldsOf(msg), |FieldsOf(msg)|) == msg <==> msg == "" || msg[|msg| - 1] == NUL
  {
    var r := Split(msg, NUL, |msg|);
    PiecesRejoin(msg, |msg|);
    LastPieceEmptyIff(msg);
    assert msg[..|msg|] == msg;
    if r[|r| - 1] == "" {
      EndedPrefix(r, FieldsOf(msg), |r| - 1);
    } else {
      assert |Ended(r, |r|)| == |msg| + 1;
    }
  }

  // ----- Typed reads of one field -----

  function FloatIn(s: string): Float {
    if s == "" then Number("0") else if s == "Infinite" || s == "Infinity" then Infinite else Number(s)
  }

  predicate BoolIn(s: string) {
    s == "1" || s == "true"
  }

  /** Every int64 is read back except the sentinel 2^31-1, which is sent as an empty field and reads as 0. */
  lemma Int64RoundTripIff(v: int64)
    ensures ParseInt(Encode(Int64(v))) == v <==> v != 0x7FFF_FFFF
    ensures v == 0x7FFF_FFFF ==> Encode(Int64(v)) == "" && ParseInt("") == 0
  {
    IntRoundTrip(v);
  }

  /** Every float is read back except the unset one, which reads as zero. */
  lemma FloatRoundTripIff(f: Float)
    ensures FloatIn(Encode(Real(f))) == f <==> f != Unset
    ensures f == Unset ==> Encode(Real(f)) == "" && FloatIn("") == Number("0")
    ensures f == Infinite ==> Encode(Real(f)) == "Infinite" && FloatIn("Infinity") == Infinite
  {
    match f
    case Unset => assert Encode(Real(f)) == "";
    case Infinite => assert Encode(Real(f)) == "Infinite";
    case Number(text) => assert Encode(Real(f)) == text;
  }

  /** Both bools are read back, and no other text but "true" reads as true. */
  lemma BoolRoundTrip(b: bool)
    ensures BoolIn(Encode(Bool(b))) == b
    ensures forall s :: BoolIn(s) <==> s == Encode(Bool(true)) || s == "true"
  {
  }

  // ----- Tag-value lists -----

  /** Can the tag be told from its value, and the pair from the next one? */
  predicate Separable(t: TagValue) {
    '=' !in t.tag && ';' !in t.tag && ';' !in t.value
  }

  lemma {:induction false} TagPieces(tags: seq<TagValue>, n: nat)
    requires n <= |tags| && forall i :: 0 <= i < |tags| ==> Separable(tags[i])
    ensures var r := Split(TagText(tags, n), ';', |TagText(tags, n)|);
            && |r| == n + 1 && r[n] == ""
            && forall i :: 0 <= i < n ==> r[i] == tags[i].tag + "=" + tags[i].value
  {
    if n > 0 {
      TagPieces(tags, n - 1);
      var s, t := TagText(tags, n - 1), tags[n - 1];
      var r := Split(s, ';', |s|);
      assert TagText(tags, n) == s + (t.tag + "=" + t.value) + ";";
      assert r == r[..n - 1] + [""];
      assert Separable(t);
      hide *;
      SeparablePiece(t);
      SplitPiece(s, t.tag + "=" + t.value, r[..n - 1], ';');
    }
  }

  lemma SeparablePiece(t: TagValue)
    requires Separable(t)
    ensures var piece := t.tag + "=" + t.value; forall i :: 0 <= i < |piece| ==> piece[i] != ';'
  {
  }

  lemma TagOfPiece(t: TagValue)
    requires '=' !in t.tag
    ensures TagIn(t.tag + "=" + t.value) == t
  {
    var piece := t.tag + "=" + t.value;
    assert piece[|t.tag|] == '=';
    assert forall i :: 0 <= i < |t.tag| ==> piece[i] == t.tag[i];
    assert Find(piece, '=', 0) == |t.tag|;
  }

  /** Reading a list of tags and values back gives it unchanged if and only if no separator stands where it would mislead. */
  lemma TagsRoundTripIff(tags: seq<TagValue>)
    ensures TagsIn(TagText(tags, |tags|)) == tags <==> forall i :: 0 <= i < |tags| ==> Separable(tags[i])
  {
    hide TagText, TagsIn, Separable;
    var text := TagText(tags, |tags|);
    if forall i :: 0 <= i < |tags| ==> Separable(tags[i]) {
      SeparableReadBack(tags);
    }
    if TagsIn(text) == tags {
      forall i | 0 <= i < |tags| ensures Separable(tags[i]) {
        assert tags[i] == TagsIn(text)[i];
        ReadTagsSeparable(text, i);
      }
    }
  }

  lemma SeparableReadBack(tags: seq<TagValue>)
    requires forall i :: 0 <= i < |tags| ==> Separable(tags[i])
    ensures TagsIn(TagText(tags, |tags|)) == tags
  {
    TagPieces(tags, |tags|);
    hide Split, TagText, TagIn;
    forall i | 0 <= i < |tags| ensures TagIn(tags[i].tag + "=" + tags[i].value) == tags[i] {
      assert Separable(tags[i]);
      TagOfPiece(tags[i]);
    }
  }

  lemma ReadTagsSeparable(text: string, i: nat)
    requires i < |TagsIn(text)|
    ensures Separable(TagsIn(text)[i])
  {
    PiecesHoldNoSeparator(text, ';', |text|, i);
  }

  // ----- Which fields survive -----

  ghost predicate CleanTag(t: TagValue) {
    NulFree(t.tag) && NulFree(t.value)
  }

  /** Is no NUL among the text a field holds? */
  ghost predicate Clean(f: Field) {
    match f
    case Text(s) => NulFree(s)
    case Real(Number(text)) => NulFree(text)
    case Tags(tags) => forall i :: 0 <= i < |tags| ==> CleanTag(tags[i])
    case Con(c) =>
      && NulFree(c.symbol) && NulFree(c.secType) && NulFree(c.lastTradeDate) && NulFree(c.strike) && NulFree(c.right)
      && NulFree(c.multiplier) && NulFree(c.exchange) && NulFree(c.primaryExchange) && NulFree(c.currency)
      && NulFree(c.localSymbol) && NulFree(c.tradingClass)
    case _ => true
  }

  lemma NulFreeConcat(s: string, t: string)
    ensures NulFree(s + t) <==> NulFree(s) && NulFree(t)
  {
    if NulFree(s + t) {
      assert forall i :: 0 <= i < |s| ==> (s + t)[i] == s[i];
      assert forall i :: 0 <= i < |t| ==> (s + t)[|s| + i] == t[i];
    }
  }

  lemma {:induction false} TagTextNulFree(tags: seq<TagValue>, n: nat)
    requires n <= |tags|
    ensures NulFree(TagText(tags, n)) <==> forall i :: 0 <= i < n ==> CleanTag(tags[i])
  {
    if n > 0 {
      TagTextNulFree(tags, n - 1);
      var s, t := TagText(tags, n - 1), tags[n - 1];
      NulFreeConcat(s, t.tag);
      NulFreeConcat(s + t.tag, "=");
      NulFreeConcat(s + t.tag + "=", t.value);
      NulFreeConcat(s + t.tag + "=" + t.value, ";");
    }
  }

  lemma EncodedNulFree(f: Field)
    requires !f.Con?
    ensures NulFree(Encode(f)) <==> Clean(f)
  {
    match f
    case Int(n) => IntRoundTrip(n);
    case Int64(v) => IntRoundTrip(v);
    case Tags(tags) => TagTextNulFree(tags, |tags|);
    case _ =>
  }

  lemma SlotsOfNulFree(f: Field)
    ensures AllNulFree(SlotsOf(f)) <==> Clean(f)
  {
    if f.Con? {
      IntRoundTrip(f.con.conID);
      ContractNulFree(f.con);
    } else {
      EncodedNulFree(f);
      assert SlotsOf(f)[0] == Encode(f);
    }
  }

  lemma ContractNulFree(c: Contract)
    requires NulFree(Itoa(c.conID))
    ensures AllNulFree(ContractSlots(c)) <==> Clean(Con(c))
  {
    var r := ContractSlots(c);
    if AllNulFree(r) {
      assert NulFree(r[1]) && NulFree(r[2]) && NulFree(r[3]) && NulFree(r[4]) && NulFree(r[5]) && NulFree(r[6])
          && NulFree(r[7]) && NulFree(r[8]) && NulFree(r[9]) && NulFree(r[10]) && NulFree(r[11]);
    }
  }

  lemma {:induction false} SlotsNulFree(fields: seq<Field>, n: nat)
    requires n <= |fields|
    ensures AllNulFree(Slots(fields, n)) <==> forall i :: 0 <= i < n ==> Clean(fields[i])
  {
    if n > 0 {
      SlotsNulFree(fields, n - 1);
      SlotsOfNulFree(fields[n - 1]);
      AllNulFreeConcat(Slots(fields, n - 1), SlotsOf(fields[n - 1]));
    }
  }

  lemma AllNulFreeConcat(a: seq<string>, b: seq<string>)
    ensures AllNulFree(a + b) <==> AllNulFree(a) && AllNulFree(b)
  {
    if AllNulFree(a + b) {
      assert forall i :: 0 <= i < |a| ==> (a + b)[i] == a[i];
      assert forall i :: 0 <= i < |b| ==> (a + b)[|a| + i] == b[i];
    }
  }

  // ----- Building a message -----

  function Message(fields: seq<Field>): string {
    Ended(Slots(fields, |fields|), |Slots(fields, |fields|)|)
  }

  /**
   A built message is split back into the encoded fields, in order, each contract as 12 of them
   and empty ones kept, if and only if no field's text holds a NUL.
   */
  lemma BuiltMessageReadsBackIff(fields: seq<Field>)
    ensures FieldsOf(Message(fields)) == Slots(fields, |fields|) <==> forall i :: 0 <= i < |fields| ==> Clean(fields[i])
  {
    MessageRoundTripIff(Slots(fields, |fields|));
    SlotsNulFree(fields, |fields|);
  }

  lemma {:induction false} EndedConcat(a: seq<string>, b: seq<string>, n: nat)
    requires n <= |b|
    ensures Ended(a + b, |a| + n) == Ended(a, |a|) + Ended(b, n)
  {
    if n == 0 {
      EndedPrefix(a + b, a, |a|);
    } else {
      EndedConcat(a, b, n - 1);
      assert (a + b)[|a| + n - 1] == b[n - 1];
      assert Ended(a, |a|) + Ended(b, n) == Ended(a, |a|) + Ended(b, n - 1) + b[n - 1] + [NUL];
    }
  }

  /** `strings.Join` with a NUL between the pieces. */
  function Join(slots: seq<string>, n: nat): string
    requires 0 < n <= |slots|
  {
    if n == 1 then slots[0] else Join(slots, n - 1) + [NUL] + slots[n - 1]
  }

  lemma {:induction false} JoinEnded(slots: seq<string>, n: nat)
    requires 0 < n <= |slots|
    ensures Join(slots, n) + [NUL] == Ended(slots, n)
  {
    if n > 1 {
      JoinEnded(slots, n - 1);
    } else {
      assert Ended(slots, 1) == "" + slots[0] + [NUL];
    }
  }

  function EncodeContract(c: Contract): string {
    Join(ContractSlots(c), 12)
  }

  method EncodeTags(tags: seq<TagValue>) returns (text: string)
    ensures text == Encode(Tags(tags))
    ensures TagsIn(text) == tags <==> forall i :: 0 <= i < |tags| ==> Separable(tags[i])
  {
    TagsRoundTripIff(tags);
    text := "";
    for i := 0 to |tags|
      invariant text == TagText(tags, i)
    {
      text := text + tags[i].tag;
      text := text + "=";
      text := text + tags[i].value;
      text := text + ";";
    }
  }

  /** What the reader makes of the text of a field: the field, unless it was not set, or nothing was sent. */
  ghost predicate ReadsBack(f: Field, text: string) {
    match f
    case Nil => text == ""
    case Text(s) => text == s
    case Int(n) => text != "" && ParseInt(text) == n
    case Int64(v) => if v == UNSET_INTEGER then text == "" else text != "" && ParseInt(text) == v
    case Real(x) => if x == Unset then text == "" else text != "" && FloatIn(text) == x
    case Bool(b) => |text| == 1 && BoolIn(text) == b
    case Tags(tags) => (forall i :: 0 <= i < |tags| ==> Separable(tags[i])) <==> TagsIn(text) == tags
    case Con(_) => false
  }

  /** The switch over the types of fields; its text reads back as the field, and holds a NUL only if the field does. */
  method EncodeField(f: Field) returns (text: string)
    requires !f.Con?
    ensures text == Encode(f)
    ensures ReadsBack(f, text) && (NulFree(text) <==> Clean(f))
  {
    EncodedNulFree(f);
    match f
    case Nil => text := "";
    case Text(s) => text := s;
    case Int(n) =>
      IntRoundTrip(n);
      text := Itoa(n);
    case Int64(v) =>
      IntRoundTrip(v);
      if v == UNSET_INTEGER {
        text := "";
      } else {
        text := Itoa(v);
      }
    case Real(x) =>
      match x {
        case Unset => text := "";
        case Infinite => text := "Infinite";
        case Number(t) => text := t;
      }
    case Bool(b) =>
      if b {
        text := "1";
      } else {
        text := "0";
      }
    case Tags(tags) =>
      TagsRoundTripIff(tags);
      text := EncodeTags(tags);
  }

  /** The 12 wire fields of a contract, each at its place. */
  ghost predicate ContractStands(slots: seq<string>, pos: nat, c: Contract) {
    && pos + 12 <= |slots|
    && slots[pos] == Itoa(c.conID) && slots[pos + 1] == c.symbol && slots[pos + 2] == c.secType
    && slots[pos + 3] == c.lastTradeDate && slots[pos + 4] == c.strike && slots[pos + 5] == c.right
    && slots[pos + 6] == c.multiplier && slots[pos + 7] == c.exchange && slots[pos + 8] == c.primaryExchange
    && slots[pos + 9] == c.currency && slots[pos + 10] == c.localSymbol && slots[pos + 11] == c.tradingClass
  }

  lemma {:induction false} SlotsGrow(fs: seq<Field>, m: nat, n: nat)
    requires m <= n <= |fs|
    ensures Slots(fs, m) <= Slots(fs, n)
    decreases n
  {
    if m < n {
      SlotsGrow(fs, m, n - 1);
    }
  }

  /** Wherever a contract is among the fields, its wire fields stand behind those of the fields before it. */
  lemma ContractAmongSlots(fields: seq<Field>, i: nat)
    requires i < |fields| && fields[i].Con?
    ensures ContractStands(Slots(fields, |fields|), |Slots(fields, i)|, fields[i].con)
  {
    hide Itoa;
    ContractBehind(Slots(fields, i), fields[i].con);
    SlotsStep(fields, i);
    SlotsGrow(fields, i + 1, |fields|);
    hide Slots;
    StandsInLonger(Slots(fields, i + 1), Slots(fields, |fields|), |Slots(fields, i)|, fields[i].con);
  }

  lemma ContractBehind(before: seq<string>, c: Contract)
    ensures ContractStands(before + ContractSlots(c), |before|, c)
  {
    hide Itoa;
    var s, r := ContractSlots(c), before + ContractSlots(c);
    assert forall j :: 0 <= j < 12 ==> r[|before| + j] == s[j];
  }

  lemma StandsInLonger(slots: seq<string>, more: seq<string>, pos: nat, c: Contract)
    requires slots <= more && ContractStands(slots, pos, c)
    ensures ContractStands(more, pos, c)
  {
  }

  method BuildMessage(fields: seq<Field>) returns (msg: string)
    ensures msg == Message(fields)
    ensures (forall i :: 0 <= i < |fields| ==> Clean(fields[i])) <==> FieldsOf(msg) == Slots(fields, |fields|)
    ensures FieldsOf(msg) == Slots(fields, |fields|) ==>
              forall i :: 0 <= i < |fields| && fields[i].Con? ==>
                            ContractStands(FieldsOf(msg), |Slots(fields, i)|, fields[i].con)
  {
    hide Encode, ContractStands, ContractSlots, EncodeContract, Split, FieldsOf, Clean;
    msg := "";
    for i := 0 to |fields|
      invariant msg == Ended(Slots(fields, i), |Slots(fields, i)|)
    {
      var text;
      if fields[i].Con? {
        text := EncodeContract(fields[i].con);
      } else {
        text := EncodeField(fields[i]);
      }
      OneMoreField(fields, i, text);
      msg := msg + text + [NUL];
    }
    BuiltMessageReadsBackIff(fields);
    forall i | 0 <= i < |fields| && fields[i].Con?
      ensures ContractStands(Slots(fields, |fields|), |Slots(fields, i)|, fields[i].con)
    {
      ContractAmongSlots(fields, i);
    }
  }

  lemma SlotsStep(fields: seq<Field>, i: nat)
    requires i < |fields|
    ensures Slots(fields, i + 1) == Slots(fields, i) + SlotsOf(fields[i])
  {
  }

  lemma OneMoreField(fields: seq<Field>, i: nat, text: string)
    requires i < |fields|
    requires text == if fields[i].Con? then EncodeContract(fields[i].con) else Encode(fields[i])
    ensures Ended(Slots(fields, i + 1), |Slots(fields, i + 1)|) == Ended(Slots(fields, i), |Slots(fields, i)|) + text + [NUL]
  {
    hide *;
    var before, slots := Slots(fields, i), SlotsOf(fields[i]);
    SlotsStep(fields, i);
    FieldText(fields[i]);
    JoinEnded(slots, |slots|);
    EndedConcat(before, slots, |slots|);
    assert Ended(before, |before|) + text + [NUL] == Ended(before, |before|) + (text + [NUL]);
  }

  /** The text of a field is its wire fields, joined. */
  lemma FieldText(f: Field)
    ensures |SlotsOf(f)| > 0
    ensures Join(SlotsOf(f), |SlotsOf(f)|) == if f.Con? then EncodeContract(f.con) else Encode(f)
  {
    hide Encode, ContractSlots;
  }
}
