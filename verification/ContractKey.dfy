/**
 The key of a BAG contract: its legs are sorted by ConID, by a sort that may order equal ConIDs
 either way, and hashed in 64-bit arithmetic that wraps around.
 */
module ContractKey {
  import opened Wire
  import opened Blocks

  const TWO_64: int := 0x1_0000_0000_0000_0000
  const TWO_63: int := 0x8000_0000_0000_0000
  const TWO_58: int := 0x400_0000_0000_0000

  /** The int64 that a 64-bit register holds for `x`. */
  function Wrap(x: int): int64 {
    (x + TWO_63) % TWO_64 - TWO_63
  }

  /** The hash of the first `n` legs, in the order given. */
  function Hash(legs: seq<ComboLeg>, n: nat): int64
    requires n <= |legs|
  {
    if n == 0 then 0 else
    var h := Wrap(Hash(legs, n - 1) * 31 + legs[n - 1].conID);
    Wrap(h * 31 + legs[n - 1].ratio)
  }

  ghost predicate SortedByConID(legs: seq<ComboLeg>) {
    forall i, j :: 0 <= i < j < |legs| ==> legs[i].conID <= legs[j].conID
  }

  /** What an unstable sort by ConID may return. */
  ghost predicate IsSortOf(sorted: seq<ComboLeg>, legs: seq<ComboLeg>) {
    multiset(sorted) == multiset(legs) && SortedByConID(sorted)
  }

  // ----- The hash without the wrapping -----

  function Poly(legs: seq<ComboLeg>, n: nat): int
    requires n <= |legs|
  {
    if n == 0 then 0 else Next(Poly(legs, n - 1), legs[n - 1].conID, legs[n - 1].ratio)
  }

  function Next(h: int, conID: int, ratio: int): int {
    (h * 31 + conID) * 31 + ratio
  }

  lemma WrapNext(h: int, conID: int, ratio: int)
    ensures Wrap(Wrap(Wrap(h) * 31 + conID) * 31 + ratio) == Wrap(Next(h, conID, ratio))
  {
    var k := (h + TWO_63) / TWO_64;
    assert Wrap(h) == h - k * TWO_64;
    var x := h * 31 + conID;
    WrapShift(x, 31 * k);
    var m := (x + TWO_63) / TWO_64;
    assert Wrap(x) == x - m * TWO_64;
    WrapShift(x * 31 + ratio, 31 * m);
  }

  lemma WrapShift(x: int, k: int)
    ensures Wrap(x - k * TWO_64) == Wrap(x)
  {
  }

  lemma {:induction false} HashIsWrappedPoly(legs: seq<ComboLeg>, n: nat)
    requires n <= |legs|
    ensures Hash(legs, n) == Wrap(Poly(legs, n))
  {
    if n > 0 {
      HashIsWrappedPoly(legs, n - 1);
      WrapNext(Poly(legs, n - 1), legs[n - 1].conID, legs[n - 1].ratio);
    }
  }

  lemma WrapEqualIff(x: int, y: int)
    ensures Wrap(x) == Wrap(y) <==> (x - y) % TWO_64 == 0
  {
    var k, m := (x + TWO_63) / TWO_64, (y + TWO_63) / TWO_64;
    assert Wrap(x) == x - k * TWO_64 && Wrap(y) == y - m * TWO_64;
  }

  // ----- Legs that the sort may exchange without changing the hash -----

  /** A ratio is a rest below 2^58 and a multiple of 2^58; 961, by which each leg multiplies, is 1 modulo 2^64 / 2^58. */
  function Rest(leg: ComboLeg): int { leg.ratio % TWO_58 }
  function Turns(leg: ComboLeg): int { leg.ratio / TWO_58 }

  /** Do legs with equal ConIDs have ratios that are equal modulo 2^58? */
  ghost predicate Congruent(legs: seq<ComboLeg>) {
    forall x, y :: x in legs && y in legs && x.conID == y.conID ==> Rest(x) == Rest(y)
  }

  datatype Part = Part(conID: int, rest: int)

  function PartOf(leg: ComboLeg): Part {
    Part(leg.conID, Rest(leg))
  }

  function Parts(legs: seq<ComboLeg>): seq<Part> {
    seq(|legs|, i requires 0 <= i < |legs| => PartOf(legs[i]))
  }

  function TotalTurns(legs: seq<ComboLeg>, n: nat): int
    requires n <= |legs|
  {
    if n == 0 then 0 else TotalTurns(legs, n - 1) + Turns(legs[n - 1])
  }

  function PartPoly(parts: seq<Part>, n: nat): int
    requires n <= |parts|
  {
    if n == 0 then 0 else Next(PartPoly(parts, n - 1), parts[n - 1].conID, parts[n - 1].rest)
  }

  /** Modulo 2^64 the hash depends only on the parts, in order, and on the total number of turns. */
  lemma {:induction false} PolySplits(legs: seq<ComboLeg>, n: nat) returns (k: int)
    requires n <= |legs|
    ensures Poly(legs, n) == PartPoly(Parts(legs), n) + TWO_58 * TotalTurns(legs, n) + k * TWO_64
  {
    if n == 0 {
      k := 0;
    } else {
      var leg := legs[n - 1];
      var m := PolySplits(legs, n - 1);
      k := 961 * m + 15 * TotalTurns(legs, n - 1);
      SplitStep(PartPoly(Parts(legs), n - 1), TotalTurns(legs, n - 1), m, leg.conID, Rest(leg), Turns(leg));
      assert leg.ratio == Rest(leg) + TWO_58 * Turns(leg);
    }
  }

  lemma SplitStep(h: int, total: int, m: int, conID: int, rest: int, turns: int)
    ensures Next(h + TWO_58 * total + m * TWO_64, conID, rest + TWO_58 * turns)
            == Next(h, conID, rest) + TWO_58 * (total + turns) + (961 * m + 15 * total) * TWO_64
  {
  }

  // ----- Permutations -----

  function Without<T>(s: seq<T>, j: nat): seq<T>
    requires j < |s|
  {
    s[..j] + s[j + 1..]
  }

  lemma WithoutMultiset<T>(s: seq<T>, j: nat)
    requires j < |s|
    ensures multiset(Without(s, j)) == multiset(s) - multiset{s[j]}
  {
    assert s == s[..j] + [s[j]] + s[j + 1..];
  }

  lemma PartsWithout(s: seq<ComboLeg>, j: nat)
    requires j < |s|
    ensures Parts(Without(s, j)) == Without(Parts(s), j) && Parts(s)[j] == PartOf(s[j])
  {
  }

  lemma {:induction false} TurnsWithout(s: seq<ComboLeg>, j: nat, n: nat)
    requires j < n <= |s|
    ensures TotalTurns(s, n) == TotalTurns(Without(s, j), n - 1) + Turns(s[j])
    decreases n
  {
    if n - 1 == j {
      TurnsPrefix(s, Without(s, j), j);
    } else {
      TurnsWithout(s, j, n - 1);
      assert Without(s, j)[n - 2] == s[n - 1];
    }
  }

  lemma {:induction false} TurnsPrefix(s: seq<ComboLeg>, t: seq<ComboLeg>, n: nat)
    requires n <= |s| && n <= |t| && forall i :: 0 <= i < n ==> s[i] == t[i]
    ensures TotalTurns(s, n) == TotalTurns(t, n)
  {
    if n > 0 {
      TurnsPrefix(s, t, n - 1);
    }
  }

  lemma IndexOf<T>(s: seq<T>, x: T) returns (j: nat)
    requires x in multiset(s)
    ensures j < |s| && s[j] == x
  {
    assert x in s;
    j :| j < |s| && s[j] == x;
  }

  lemma SameSize<T>(a: seq<T>, b: seq<T>)
    requires multiset(a) == multiset(b)
    ensures |a| == |b|
  {
    assert |multiset(a)| == |a| && |multiset(b)| == |b|;
  }

  lemma {:induction false} PermutedParts(a: seq<ComboLeg>, b: seq<ComboLeg>)
    requires multiset(a) == multiset(b)
    ensures |a| == |b|
    ensures multiset(Parts(a)) == multiset(Parts(b)) && TotalTurns(a, |a|) == TotalTurns(b, |b|)
    decreases |a|
  {
    SameSize(a, b);
    if |a| > 0 {
      var n := |a| - 1;
      assert a[n] in multiset(a);
      var j := IndexOf(b, a[n]);
      WithoutMultiset(b, j);
      WithoutMultiset(a, n);
      PermutedParts(Without(a, n), Without(b, j));
      TurnsWithout(a, n, |a|);
      TurnsWithout(b, j, |b|);
      PartsRestored(a, n);
      PartsRestored(b, j);
    }
  }

  lemma PartsRestored(s: seq<ComboLeg>, j: nat)
    requires j < |s|
    ensures multiset(Parts(s)) == multiset(Parts(Without(s, j))) + multiset{PartOf(s[j])}
  {
    PartsWithout(s, j);
    WithoutMultiset(Parts(s), j);
    assert PartOf(s[j]) in multiset(Parts(s));
  }

  ghost predicate OrderedParts(p: seq<Part>) {
    && (forall i, j :: 0 <= i < j < |p| ==> p[i].conID <= p[j].conID)
    && (forall i, j :: 0 <= i < |p| && 0 <= j < |p| && p[i].conID == p[j].conID ==> p[i] == p[j])
  }

  lemma LastPartSame(p: seq<Part>, q: seq<Part>)
    requires OrderedParts(p) && OrderedParts(q) && multiset(p) == multiset(q) && |p| == |q| > 0
    ensures p[|p| - 1] == q[|q| - 1]
  {
    var n := |p| - 1;
    assert p[n] in multiset(p) && q[n] in multiset(q);
    var i := IndexOf(q, p[n]);
    var j := IndexOf(p, q[n]);
    assert p[j].conID <= p[n].conID && q[i].conID <= q[n].conID;
    assert p[j] == p[n];
  }

  /** Sorted parts in which a ConID determines the rest are determined by their multiset. */
  lemma {:induction false} OrderedPartsUnique(p: seq<Part>, q: seq<Part>)
    requires OrderedParts(p) && OrderedParts(q) && multiset(p) == multiset(q)
    ensures p == q
    decreases |p|
  {
    SameSize(p, q);
    if |p| > 0 {
      var n := |p| - 1;
      LastPartSame(p, q);
      WithoutMultiset(p, n);
      WithoutMultiset(q, n);
      OrderedWithoutLast(p);
      OrderedWithoutLast(q);
      OrderedPartsUnique(Without(p, n), Without(q, n));
      SameButLast(p, q, n);
    }
  }

  lemma SameButLast<T>(p: seq<T>, q: seq<T>, n: nat)
    requires |p| == |q| == n + 1 && Without(p, n) == Without(q, n) && p[n] == q[n]
    ensures p == q
  {
    assert p == Without(p, n) + [p[n]] && q == Without(q, n) + [q[n]];
  }

  lemma OrderedWithoutLast(p: seq<Part>)
    requires |p| > 0 && OrderedParts(p)
    ensures OrderedParts(Without(p, |p| - 1))
  {
  }

  lemma SortedPartsOrdered(legs: seq<ComboLeg>)
    requires SortedByConID(legs) && Congruent(legs)
    ensures OrderedParts(Parts(legs))
  {
    assert forall i :: 0 <= i < |legs| ==> legs[i] in legs;
  }

  lemma CongruentPermuted(a: seq<ComboLeg>, b: seq<ComboLeg>)
    requires multiset(a) == multiset(b) && Congruent(a)
    ensures Congruent(b)
  {
    forall x, y | x in b && y in b && x.conID == y.conID ensures Rest(x) == Rest(y) {
      assert x in multiset(a) && y in multiset(a);
    }
  }

  /**
   Two leg lists that are permutations of each other hash alike, whatever the sort does with
   equal ConIDs, when legs with equal ConIDs have ratios that are equal modulo 2^58.
   */
  lemma BagHashInvariant(a: seq<ComboLeg>, b: seq<ComboLeg>, s: seq<ComboLeg>, t: seq<ComboLeg>)
    requires multiset(a) == multiset(b) && Congruent(a) && IsSortOf(s, a) && IsSortOf(t, b)
    ensures Hash(s, |s|) == Hash(t, |t|)
  {
    CongruentPermuted(a, s);
    CongruentPermuted(a, t);
    PermutedParts(s, t);
    SortedPartsOrdered(s);
    SortedPartsOrdered(t);
    OrderedPartsUnique(Parts(s), Parts(t));
    SamePartsSameHash(s, t);
  }

  lemma SamePartsSameHash(s: seq<ComboLeg>, t: seq<ComboLeg>)
    requires |s| == |t| && Parts(s) == Parts(t) && TotalTurns(s, |s|) == TotalTurns(t, |t|)
    ensures Hash(s, |s|) == Hash(t, |t|)
  {
    HashIsWrappedPoly(s, |s|);
    HashIsWrappedPoly(t, |t|);
    var k := PolySplits(s, |s|);
    var m := PolySplits(t, |t|);
    var x := PartPoly(Parts(s), |s|) + TWO_58 * TotalTurns(s, |s|);
    WrapShift(x, -k);
    WrapShift(x, -m);
  }

  // ----- Legs whose order shows in the hash -----

  function Swapped(s: seq<ComboLeg>, k: nat): (t: seq<ComboLeg>)
    requires k + 1 < |s|
    ensures |t| == |s|
  {
    s[k := s[k + 1]][k + 1 := s[k]]
  }

  lemma {:induction false} PolyPrefix(s: seq<ComboLeg>, t: seq<ComboLeg>, n: nat)
    requires n <= |s| && n <= |t| && forall i :: 0 <= i < n ==> s[i] == t[i]
    ensures Poly(s, n) == Poly(t, n)
  {
    if n > 0 {
      PolyPrefix(s, t, n - 1);
    }
  }

  /** 960 d is a multiple of 2^64 only if d is one of 2^58: 960 is 64 times 15, and 15 is invertible modulo 2^58. */
  lemma SwapShows(d: int)
    requires d % TWO_58 != 0
    ensures (960 * d) % TWO_64 != 0
  {
    if (960 * d) % TWO_64 == 0 {
      var k := 960 * d / TWO_64;
      assert 15 * d == k * TWO_58;
      assert d == (0x2eeeeeeeeeeeeef * k - 11 * d) * TWO_58;
      Multiple(0x2eeeeeeeeeeeeef * k - 11 * d, d);
    }
  }

  lemma Multiple(k: int, d: int)
    requires d == k * TWO_58
    ensures d % TWO_58 == 0
  {
  }

  /** A difference stays visible: 961 is invertible modulo 2^64. */
  lemma DifferenceStays(d: int)
    requires d % TWO_64 != 0
    ensures (961 * d) % TWO_64 != 0
  {
    if (961 * d) % TWO_64 == 0 {
      DivideBy961(d, 961 * d / TWO_64);
    }
  }

  lemma DivideBy961(d: int, k: int)
    requires 961 * d == k * TWO_64
    ensures d % TWO_64 == 0
  {
    assert d == (0xd62d4941cc520c41 * k - 804 * d) * TWO_64;
  }

  lemma {:induction false} SwapDiffers(s: seq<ComboLeg>, k: nat, n: nat)
    requires k + 2 <= n <= |s| && s[k].conID == s[k + 1].conID && Rest(s[k]) != Rest(s[k + 1])
    ensures (Poly(s, n) - Poly(Swapped(s, k), n)) % TWO_64 != 0
    decreases n
  {
    hide Poly, Swapped, Rest;
    if n == k + 2 {
      SwapBase(s, k);
      RatiosDiffer(s[k], s[k + 1]);
      SwapShows(s[k].ratio - s[k + 1].ratio);
    } else {
      SwapDiffers(s, k, n - 1);
      DifferenceStays(Poly(s, n - 1) - Poly(Swapped(s, k), n - 1));
      SwapLater(s, k, n);
    }
  }

  lemma SwapBase(s: seq<ComboLeg>, k: nat)
    requires k + 2 <= |s| && s[k].conID == s[k + 1].conID
    ensures Poly(s, k + 2) - Poly(Swapped(s, k), k + 2) == 960 * (s[k].ratio - s[k + 1].ratio)
  {
    var t := Swapped(s, k);
    PolyPrefix(s, t, k);
    SwapHere(Poly(s, k), s[k].conID, s[k].ratio, s[k + 1].ratio);
    hide Next;
    assert Poly(s, k + 1) == Next(Poly(s, k), s[k].conID, s[k].ratio);
    assert Poly(t, k + 1) == Next(Poly(t, k), t[k].conID, t[k].ratio);
  }

  lemma SwapLater(s: seq<ComboLeg>, k: nat, n: nat)
    requires k + 2 < n <= |s|
    ensures Poly(s, n) - Poly(Swapped(s, k), n) == 961 * (Poly(s, n - 1) - Poly(Swapped(s, k), n - 1))
  {
    assert Swapped(s, k)[n - 1] == s[n - 1];
  }

  lemma SwapHere(h: int, conID: int, r: int, q: int)
    ensures Next(Next(h, conID, r), conID, q) - Next(Next(h, conID, q), conID, r) == 960 * (r - q)
  {
  }

  lemma RatiosDiffer(x: ComboLeg, y: ComboLeg)
    requires Rest(x) != Rest(y)
    ensures (x.ratio - y.ratio) % TWO_58 != 0
  {
  }

  lemma SwappedIsSort(s: seq<ComboLeg>, legs: seq<ComboLeg>, k: nat)
    requires IsSortOf(s, legs) && k + 1 < |s| && s[k].conID == s[k + 1].conID
    ensures IsSortOf(Swapped(s, k), legs)
  {
    assert multiset(Swapped(s, k)) == multiset(s);
  }

  lemma {:induction false} AdjacentDiffer(s: seq<ComboLeg>, i: nat, j: nat) returns (k: nat)
    requires SortedByConID(s) && i < j < |s| && s[i].conID == s[j].conID && Rest(s[i]) != Rest(s[j])
    ensures k + 1 < |s| && s[k].conID == s[k + 1].conID && Rest(s[k]) != Rest(s[k + 1])
    decreases j - i
  {
    assert s[i].conID <= s[i + 1].conID <= s[j].conID;
    if Rest(s[i]) != Rest(s[i + 1]) {
      k := i;
    } else {
      k := AdjacentDiffer(s, i + 1, j);
    }
  }

  lemma {:induction false} DifferingNeighbours(s: seq<ComboLeg>) returns (k: nat)
    requires SortedByConID(s) && !Congruent(s)
    ensures k + 1 < |s| && s[k].conID == s[k + 1].conID && Rest(s[k]) != Rest(s[k + 1])
  {
    var x, y :| x in s && y in s && x.conID == y.conID && Rest(x) != Rest(y);
    var i :| 0 <= i < |s| && s[i] == x;
    var j :| 0 <= j < |s| && s[j] == y;
    if i < j {
      k := AdjacentDiffer(s, i, j);
    } else {
      k := AdjacentDiffer(s, j, i);
    }
  }

  lemma {:induction false} SwapChangesHash(s: seq<ComboLeg>, k: nat)
    requires k + 1 < |s| && s[k].conID == s[k + 1].conID && Rest(s[k]) != Rest(s[k + 1])
    ensures Hash(s, |s|) != Hash(Swapped(s, k), |s|)
  {
    SwapDiffers(s, k, |s|);
    HashIsWrappedPoly(s, |s|);
    HashIsWrappedPoly(Swapped(s, k), |s|);
    WrapEqualIff(Poly(s, |s|), Poly(Swapped(s, k), |s|));
  }

  lemma CongruentIfSortIs(s: seq<ComboLeg>, legs: seq<ComboLeg>)
    requires IsSortOf(s, legs)
    ensures Congruent(s) <==> Congruent(legs)
  {
    if Congruent(s) { CongruentPermuted(s, legs); }
    if Congruent(legs) { CongruentPermuted(legs, s); }
  }

  /** Two results of the sort that hash differently, when legs with equal ConIDs have ratios that differ modulo 2^58. */
  lemma SortShows(legs: seq<ComboLeg>, s: seq<ComboLeg>) returns (t: seq<ComboLeg>)
    requires IsSortOf(s, legs) && !Congruent(legs)
    ensures IsSortOf(t, legs) && Hash(s, |s|) != Hash(t, |t|)
  {
    CongruentIfSortIs(s, legs);
    var k := DifferingNeighbours(s);
    t := Swapped(s, k);
    SwappedIsSort(s, legs, k);
    SwapChangesHash(s, k);
  }

  // ----- A sort exists -----

  function Insert(sorted: seq<ComboLeg>, leg: ComboLeg): seq<ComboLeg> {
    if sorted == [] || sorted[|sorted| - 1].conID <= leg.conID then sorted + [leg]
    else Insert(sorted[..|sorted| - 1], leg) + [sorted[|sorted| - 1]]
  }

  function Sorted(legs: seq<ComboLeg>): seq<ComboLeg> {
    if legs == [] then [] else Insert(Sorted(legs[..|legs| - 1]), legs[|legs| - 1])
  }

  lemma {:induction false} InsertSorts(sorted: seq<ComboLeg>, leg: ComboLeg)
    requires SortedByConID(sorted)
    ensures SortedByConID(Insert(sorted, leg)) && multiset(Insert(sorted, leg)) == multiset(sorted) + multiset{leg}
    decreases |sorted|
  {
    if sorted != [] && sorted[|sorted| - 1].conID > leg.conID {
      var before, last := sorted[..|sorted| - 1], sorted[|sorted| - 1];
      assert sorted == before + [last];
      InsertSorts(before, leg);
      hide SortedByConID;
      InsertBelow(before, leg, last);
    }
  }

  /** Whatever the legs before it and the inserted one are arranged to, the last leg stays behind them. */
  lemma InsertBelow(before: seq<ComboLeg>, leg: ComboLeg, last: ComboLeg)
    requires SortedByConID(before + [last]) && leg.conID <= last.conID && SortedByConID(Insert(before, leg))
    requires multiset(Insert(before, leg)) == multiset(before) + multiset{leg}
    ensures SortedByConID(Insert(before, leg) + [last])
  {
    hide Insert;
    var r := Insert(before, leg);
    forall i | 0 <= i < |r| ensures r[i].conID <= last.conID {
      assert r[i] in multiset(before) + multiset{leg};
      if r[i] != leg {
        AmongSorted(before, last, r[i]);
      }
    }
  }

  lemma AmongSorted(before: seq<ComboLeg>, last: ComboLeg, x: ComboLeg)
    requires SortedByConID(before + [last]) && x in before
    ensures x.conID <= last.conID
  {
    var i :| 0 <= i < |before| && before[i] == x;
    assert (before + [last])[i] == x && (before + [last])[|before|] == last;
  }

  lemma {:induction false} SortedIsSort(legs: seq<ComboLeg>)
    ensures IsSortOf(Sorted(legs), legs)
    decreases |legs|
  {
    if legs != [] {
      SortedIsSort(legs[..|legs| - 1]);
      InsertSorts(Sorted(legs[..|legs| - 1]), legs[|legs| - 1]);
      assert legs == legs[..|legs| - 1] + [legs[|legs| - 1]];
    }
  }

  /** Do all results of the sort hash alike? */
  ghost predicate HashIsDetermined(legs: seq<ComboLeg>) {
    forall s, t :: IsSortOf(s, legs) && IsSortOf(t, legs) ==> Hash(s, |s|) == Hash(t, |t|)
  }

  /**
   The bag hash does not depend on what the unstable sort does with equal ConIDs if and only if
   legs with equal ConIDs have ratios that are equal modulo 2^58.
   */
  lemma BagHashDeterminedIff(legs: seq<ComboLeg>)
    ensures HashIsDetermined(legs) <==> Congruent(legs)
  {
    if Congruent(legs) {
      forall s, t | IsSortOf(s, legs) && IsSortOf(t, legs) ensures Hash(s, |s|) == Hash(t, |t|) {
        BagHashInvariant(legs, legs, s, t);
      }
    } else {
      SortedIsSort(legs);
      var t := SortShows(legs, Sorted(legs));
    }
  }

  // ----- The key -----

  /** Sorts in place; which of two legs with equal ConIDs comes first is left open. */
  method SortSlice(a: array<ComboLeg>)
    modifies a
    ensures IsSortOf(a[..], old(a[..]))
  {
    for i := 0 to a.Length
      invariant multiset(a[..]) == multiset(old(a[..]))
      invariant SortedByConID(a[..i])
    {
      SiftDown(a, i);
    }
    assert a[..a.Length] == a[..];
  }

  method SwapDown(a: array<ComboLeg>, j: nat)
    requires 0 < j < a.Length
    modifies a
    ensures a[j] == old(a[j - 1]) && a[j - 1] == old(a[j])
    ensures forall i :: 0 <= i < a.Length && i != j && i != j - 1 ==> a[i] == old(a[i])
    ensures multiset(a[..]) == multiset(old(a[..]))
  {
    a[j], a[j - 1] := a[j - 1], a[j];
  }

  /** Moves the leg at `i` down among the sorted legs before it, past equals or not. */
  method SiftDown(a: array<ComboLeg>, i: nat)
    requires i < a.Length && SortedByConID(a[..i])
    modifies a
    ensures multiset(a[..]) == multiset(old(a[..])) && SortedByConID(a[..i + 1])
  {
    var j := i;
    while j > 0 && a[j].conID <= a[j - 1].conID
      invariant j <= i
      invariant multiset(a[..]) == multiset(old(a[..]))
      invariant forall x, y :: 0 <= x < y <= i && y != j ==> a[x].conID <= a[y].conID
    {
      if a[j].conID == a[j - 1].conID {
        if * {
          break;
        }
      }
      SwapDown(a, j);
      j := j - 1;
    }
  }

  method HashInOrder(a: array<ComboLeg>) returns (h: int64)
    ensures h == Hash(a[..], |a[..]|)
  {
    h := 0;
    for i := 0 to a.Length
      invariant h == Hash(a[..], i)
    {
      h := Wrap(h * 31 + a[i].conID);
      h := Wrap(h * 31 + a[i].ratio);
    }
  }

  /** The hash of a BAG contract: of some result of the sort, the same for all of them when `Congruent`. */
  method BagHash(legs: seq<ComboLeg>) returns (h: int64)
    ensures exists s :: IsSortOf(s, legs) && h == Hash(s, |s|)
    ensures Congruent(legs) ==> h == Hash(Sorted(legs), |Sorted(legs)|)
  {
    ghost var s: seq<ComboLeg> := [];
    if |legs| == 0 {
      h := 0;
    } else {
      var sorted := CopyOf(legs);
      SortSlice(sorted);
      h := HashInOrder(sorted);
      s := sorted[..];
    }
    assert IsSortOf(s, legs);
    SortedIsSort(legs);
    if Congruent(legs) {
      BagHashInvariant(legs, legs, s, Sorted(legs));
    }
  }

  method CopyOf(legs: seq<ComboLeg>) returns (a: array<ComboLeg>)
    ensures fresh(a) && a[..] == legs
  {
    a := new ComboLeg[|legs|](i requires 0 <= i < |legs| => legs[i]);
  }

  function Negated(x: int): int64 {
    Wrap(-x)
  }

  /** Negating gives the opposite number, except that the least int64 is its own. */
  lemma NegatedIs(x: int64)
    ensures Negated(x) + x == if x == -0x8000_0000_0000_0000 then 2 * x else 0
    ensures Negated(Negated(x)) == x
  {
  }

  /** The map key of a contract. */
  method Key(secType: string, conID: int64, legs: seq<ComboLeg>) returns (key: int64)
    ensures secType == "BAG" ==> exists s :: IsSortOf(s, legs) && key == Hash(s, |s|)
    ensures secType == "CONTFUT" ==> key == Negated(conID) && (conID == -TWO_63 || key == -conID)
    ensures secType != "BAG" && secType != "CONTFUT" ==> key == conID
  {
    if secType == "BAG" {
      key := BagHash(legs);
    } else if secType == "CONTFUT" {
      NegatedIs(conID);
      key := Negated(conID);
    } else {
      key := conID;
    }
  }
}
