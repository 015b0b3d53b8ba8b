/** The 64-bit hash of a list, by which client and server tell whether they hold the same list. */
module ListHash {

  // One step.

  function DownBy21(x: bv64): bv64 { x ^ (x >> 21) }
  function DownBy42(x: bv64): bv64 { x ^ (x >> 42) }
  function UpBy35(x: bv64): bv64 { x ^ (x << 35) }
  function DownBy4(x: bv64): bv64 { x ^ (x >> 4) }
  function DownBy8(x: bv64): bv64 { x ^ (x >> 8) }
  function DownBy16(x: bv64): bv64 { x ^ (x >> 16) }
  function DownBy32(x: bv64): bv64 { x ^ (x >> 32) }

  function Mixed(x: bv64): bv64 { DownBy4(UpBy35(DownBy21(x))) }

  function Updated(already: bv64, value: bv64): bv64 { Mixed(already) + value }

  /** Twice the same shift is one shift twice as far; far enough, it is none. */
  function UndoDownBy4(y: bv64): bv64 { DownBy32(DownBy16(DownBy8(DownBy4(y)))) }

  function Unmixed(y: bv64): bv64 { DownBy42(DownBy21(UpBy35(UndoDownBy4(y)))) }

  /** The state before an update, from the state after it and the value. */
  function Previous(already: bv64, value: bv64): bv64 { Unmixed(already - value) }

  lemma Twice21(x: bv64)
    ensures DownBy21(DownBy21(x)) == DownBy42(x)
  {
    assert DownBy21(x) == x ^ (x >> 21);
    assert (x ^ (x >> 21)) ^ ((x ^ (x >> 21)) >> 21) == x ^ (x >> 42);
  }

  lemma Swap21(x: bv64)
    ensures DownBy21(DownBy42(x)) == DownBy42(DownBy21(x))
  {
    Twice21(x);
    Twice21(DownBy21(x));
  }

  lemma Twice42(x: bv64)
    ensures DownBy42(DownBy42(x)) == x
  {
    assert DownBy42(x) == x ^ (x >> 42);
    assert (x ^ (x >> 42)) ^ ((x ^ (x >> 42)) >> 42) == x;
  }

  lemma Twice35(x: bv64)
    ensures UpBy35(UpBy35(x)) == x
  {
    assert UpBy35(x) == x ^ (x << 35);
    assert (x ^ (x << 35)) ^ ((x ^ (x << 35)) << 35) == x;
  }

  lemma Twice4(x: bv64)
    ensures DownBy4(DownBy4(x)) == DownBy8(x)
  {
    assert DownBy4(x) == x ^ (x >> 4);
    assert (x ^ (x >> 4)) ^ ((x ^ (x >> 4)) >> 4) == x ^ (x >> 8);
  }

  lemma Twice8(x: bv64)
    ensures DownBy8(DownBy8(x)) == DownBy16(x)
  {
    assert DownBy8(x) == x ^ (x >> 8);
    assert (x ^ (x >> 8)) ^ ((x ^ (x >> 8)) >> 8) == x ^ (x >> 16);
  }

  lemma Twice16(x: bv64)
    ensures DownBy16(DownBy16(x)) == DownBy32(x)
  {
    assert DownBy16(x) == x ^ (x >> 16);
    assert (x ^ (x >> 16)) ^ ((x ^ (x >> 16)) >> 16) == x ^ (x >> 32);
  }

  lemma Twice32(x: bv64)
    ensures DownBy32(DownBy32(x)) == x
  {
    assert DownBy32(x) == x ^ (x >> 32);
    assert (x ^ (x >> 32)) ^ ((x ^ (x >> 32)) >> 32) == x;
  }

  lemma Down4Undone(x: bv64)
    ensures UndoDownBy4(DownBy4(x)) == x
  {
    Twice4(x);
    Twice8(x);
    Twice16(x);
    Twice32(x);
  }

  lemma Swap8(x: bv64)
    ensures DownBy4(DownBy8(x)) == DownBy8(DownBy4(x))
  {
    Twice4(x);
    Twice4(DownBy4(x));
  }

  lemma Swap16(x: bv64)
    ensures DownBy4(DownBy16(x)) == DownBy16(DownBy4(x))
  {
    Twice8(x);
    Swap8(DownBy8(x));
    Swap8(x);
    Twice8(DownBy4(x));
  }

  lemma Swap32(x: bv64)
    ensures DownBy4(DownBy32(x)) == DownBy32(DownBy4(x))
  {
    Twice16(x);
    Swap16(DownBy16(x));
    Swap16(x);
    Twice16(DownBy4(x));
  }

  lemma Down4Redone(x: bv64)
    ensures DownBy4(UndoDownBy4(x)) == x
  {
    Swap32(DownBy16(DownBy8(DownBy4(x))));
    Swap16(DownBy8(DownBy4(x)));
    Swap8(DownBy4(x));
    Down4Undone(x);
  }

  lemma MixedRedone(x: bv64)
    ensures Mixed(Unmixed(x)) == x
  {
    var y := UndoDownBy4(x);
    var z := UpBy35(y);
    Swap21(DownBy21(z));
    Twice21(z);
    Twice42(z);
    Twice35(y);
    Down4Redone(x);
  }

  lemma MixedUndone(x: bv64)
    ensures Unmixed(Mixed(x)) == x
  {
    Down4Undone(UpBy35(DownBy21(x)));
    Twice35(DownBy21(x));
    Twice21(x);
    Twice42(x);
  }

  // What each step computes, and subtracting what was added, one fact at a time.

  lemma DownBy21Is(x: bv64)
    ensures DownBy21(x) == x ^ (x >> 21)
  {
  }

  lemma UpBy35Is(x: bv64)
    ensures UpBy35(x) == x ^ (x << 35)
  {
  }

  lemma DownBy4Is(x: bv64)
    ensures DownBy4(x) == x ^ (x >> 4)
  {
  }

  lemma UpdatedIs(already: bv64, value: bv64)
    ensures Updated(already, value) == Mixed(already) + value
  {
  }

  predicate IsSum(a: bv64, b: bv64, sum: bv64) { sum == a + b }

  predicate IsDifference(sum: bv64, b: bv64, a: bv64) { sum - b == a }

  lemma SumLessSecond(a: bv64, b: bv64)
    ensures IsDifference(a + b, b, a)
  {
  }

  lemma SumLessFirst(a: bv64, b: bv64)
    ensures IsDifference(a + b, a, b)
  {
  }

  lemma LessSecond(a: bv64, b: bv64, sum: bv64)
    requires sum == a + b
    ensures IsDifference(sum, b, a)
  {
    SumLessSecond(a, b);
  }

  lemma LessFirst(a: bv64, b: bv64, sum: bv64)
    requires sum == a + b
    ensures IsDifference(sum, a, b)
  {
    SumLessFirst(a, b);
  }

  lemma UpdatedLessValue(already: bv64, value: bv64)
    ensures IsDifference(Updated(already, value), value, Mixed(already))
  {
    UpdatedIs(already, value);
    LessSecond(Mixed(already), value, Updated(already, value));
  }

  lemma UpdatedLessMixed(already: bv64, value: bv64)
    ensures IsDifference(Updated(already, value), Mixed(already), value)
  {
    UpdatedIs(already, value);
    LessFirst(Mixed(already), value, Updated(already, value));
  }

  lemma PreviousIsUnmixed(already: bv64, value: bv64)
    ensures Previous(Updated(already, value), value) == Unmixed(Mixed(already))
  {
    UpdatedLessValue(already, value);
  }

  /** For each value an update can be undone. */
  lemma UpdateUndone(already: bv64, value: bv64)
    ensures Previous(Updated(already, value), value) == already
  {
    PreviousIsUnmixed(already, value);
    MixedUndone(already);
  }

  lemma DifferenceAndSecond(already: bv64, value: bv64)
    ensures IsSum(already - value, value, already)
  {
  }

  lemma SumOfDifference(a: bv64, already: bv64, value: bv64)
    requires a == already - value
    ensures IsSum(a, value, already)
  {
    DifferenceAndSecond(already, value);
  }

  lemma MixedPrevious(already: bv64, value: bv64)
    ensures Mixed(Previous(already, value)) == already - value
  {
    MixedRedone(already - value);
  }

  /** And every state is reached: with UpdateUndone, an update is a bijection of the state. */
  lemma UpdateRedone(already: bv64, value: bv64)
    ensures Updated(Previous(already, value), value) == already
  {
    MixedPrevious(already, value);
    SumOfDifference(Mixed(Previous(already, value)), already, value);
    UpdatedIsSum(Previous(already, value), value);
  }

  /** So for each value an update tells every two states apart. */
  lemma UpdateTellsStates(already: bv64, other: bv64, value: bv64)
    requires Updated(already, value) == Updated(other, value)
    ensures already == other
  {
    UpdateUndone(already, value);
    UpdateUndone(other, value);
  }

  /** For each state an update tells every two values apart. */
  lemma UpdateTellsValues(already: bv64, value: bv64, other: bv64)
    requires Updated(already, value) == Updated(already, other)
    ensures value == other
  {
    UpdatedLessMixed(already, value);
    UpdatedLessMixed(already, other);
  }

  lemma MixedSteps(x: bv64, a: bv64, b: bv64, c: bv64)
    requires a == x ^ (x >> 21) && b == a ^ (a << 35) && c == b ^ (b >> 4)
    ensures c == Mixed(x)
  {
    DownBy21Is(x);
    UpBy35Is(a);
    DownBy4Is(b);
  }

  lemma UpdatedIsSum(already: bv64, value: bv64)
    ensures IsSum(Mixed(already), value, Updated(already, value))
  {
    UpdatedIs(already, value);
  }

  lemma UpdatedSteps(already: bv64, a: bv64, b: bv64, c: bv64, value: bv64)
    requires a == already ^ (already >> 21) && b == a ^ (a << 35) && c == b ^ (b >> 4)
    ensures IsSum(c, value, Updated(already, value))
  {
    MixedSteps(already, a, b, c);
    UpdatedIsSum(already, value);
  }

  // Lists.

  function HashOf(list: seq<bv64>): bv64 {
    if list == [] then 0 else Updated(HashOf(list[..|list| - 1]), list[|list| - 1])
  }

  lemma HashMore(list: seq<bv64>, value: bv64)
    ensures HashOf(list + [value]) == Updated(HashOf(list), value)
  {
    assert (list + [value])[..|list|] == list;
  }

  /** What two lists end with does not matter, as long as it is the same. */
  lemma {:induction false} SameEnd(a: seq<bv64>, b: seq<bv64>, end: seq<bv64>)
    ensures HashOf(a + end) == HashOf(b + end) <==> HashOf(a) == HashOf(b)
  {
    if end == [] {
      assert a + end == a && b + end == b;
    } else {
      var rest, last := end[..|end| - 1], end[|end| - 1];
      assert a + end == a + rest + [last] && b + end == b + rest + [last];
      HashMore(a + rest, last);
      HashMore(b + rest, last);
      UpdateUndone(HashOf(a + rest), last);
      UpdateUndone(HashOf(b + rest), last);
      SameEnd(a, b, rest);
    }
  }

  lemma OneChanged(begin: seq<bv64>, value: bv64, other: bv64, end: seq<bv64>)
    requires value != other
    ensures HashOf(begin + [value] + end) != HashOf(begin + [other] + end)
  {
    HashMore(begin, value);
    HashMore(begin, other);
    if HashOf(begin + [value]) == HashOf(begin + [other]) {
      UpdateTellsValues(HashOf(begin), value, other);
    }
    SameEnd(begin + [value], begin + [other], end);
  }

  /** Lists that differ in exactly one element never hash alike. */
  lemma OneDifference(a: seq<bv64>, b: seq<bv64>, at: nat)
    requires |a| == |b| && at < |a| && a[at] != b[at]
    requires forall i :: 0 <= i < |a| && i != at ==> a[i] == b[i]
    ensures HashOf(a) != HashOf(b)
  {
    var begin, end := a[..at], a[at + 1..];
    assert a == begin + [a[at]] + end && b == begin + [b[at]] + end;
    OneChanged(begin, a[at], b[at], end);
  }

  lemma SecondAndDifference(a: bv64, sum: bv64)
    ensures IsSum(a, sum - a, sum)
  {
  }

  lemma SumOfSecond(a: bv64, b: bv64, sum: bv64)
    requires IsDifference(sum, a, b)
    ensures IsSum(a, b, sum)
  {
    SecondAndDifference(a, sum);
  }

  lemma SumsAreOne(a: bv64, b: bv64, sum: bv64, other: bv64)
    requires IsSum(a, b, sum) && IsSum(a, b, other)
    ensures sum == other
  {
  }

  lemma ReachedIf(already: bv64, value: bv64, sum: bv64)
    requires IsDifference(sum, Mixed(already), value)
    ensures Updated(already, value) == sum
  {
    SumOfSecond(Mixed(already), value, sum);
    UpdatedIsSum(already, value);
    SumsAreOne(Mixed(already), value, sum, Updated(already, value));
  }

  lemma ReachedOnlyIf(already: bv64, value: bv64, sum: bv64)
    requires Updated(already, value) == sum
    ensures IsDifference(sum, Mixed(already), value)
  {
    UpdatedLessMixed(already, value);
  }

  /**
   * When two lists of one length hash alike: exactly if, at the last place where they differ, the
   * one has the difference of the other's hash up to there and its own before it, mixed.
   */
  lemma HashAlike(a: seq<bv64>, b: seq<bv64>, at: nat)
    requires |a| == |b| && at < |a|
    requires forall i :: at < i < |a| ==> a[i] == b[i]
    ensures HashOf(a) == HashOf(b) <==> IsDifference(HashOf(a[..at + 1]), Mixed(HashOf(b[..at])), b[at])
  {
    var end := a[at + 1..];
    assert a == a[..at + 1] + end && b == b[..at] + [b[at]] + end;
    LastAlike(a[..at + 1], b[..at], b[at], end);
  }

  lemma LastAlike(p: seq<bv64>, q: seq<bv64>, value: bv64, end: seq<bv64>)
    ensures HashOf(p + end) == HashOf(q + [value] + end) <==> IsDifference(HashOf(p), Mixed(HashOf(q)), value)
  {
    SameEnd(p, q + [value], end);
    LastReaches(p, q, value);
  }

  lemma LastReaches(p: seq<bv64>, q: seq<bv64>, value: bv64)
    ensures HashOf(p) == HashOf(q + [value]) <==> IsDifference(HashOf(p), Mixed(HashOf(q)), value)
  {
    if HashOf(p) == HashOf(q + [value]) {
      LastReachesOnlyIf(p, q, value);
    }
    if IsDifference(HashOf(p), Mixed(HashOf(q)), value) {
      LastReachesIf(p, q, value);
    }
  }

  lemma LastReachesIf(p: seq<bv64>, q: seq<bv64>, value: bv64)
    requires IsDifference(HashOf(p), Mixed(HashOf(q)), value)
    ensures HashOf(p) == HashOf(q + [value])
  {
    HashMore(q, value);
    ReachedIf(HashOf(q), value, HashOf(p));
  }

  lemma LastReachesOnlyIf(p: seq<bv64>, q: seq<bv64>, value: bv64)
    requires HashOf(p) == HashOf(q + [value])
    ensures IsDifference(HashOf(p), Mixed(HashOf(q)), value)
  {
    HashMore(q, value);
    ReachedOnlyIf(HashOf(q), value, HashOf(p));
  }

  lemma FromZero(value: bv64)
    ensures Updated(0, value) == value
  {
    assert Mixed(0) == 0 by {
      NothingMixed();
    }
    UpdatedIs(0, value);
  }

  lemma NothingMixed()
    ensures Mixed(0) == 0
  {
  }

  lemma WithZero(already: bv64)
    ensures Updated(already, 0) == Mixed(already)
  {
    UpdatedIs(already, 0);
  }

  /** Two different lists of length two, for every x but zero. */
  lemma TwoAlike(x: bv64)
    ensures HashOf([x, 0]) == HashOf([0, Mixed(x)]) == Mixed(x)
  {
    assert [x, 0] == [] + [x] + [0] && [0, Mixed(x)] == [] + [0] + [Mixed(x)];
    HashMore([], x);
    HashMore([] + [x], 0);
    HashMore([], 0);
    HashMore([] + [0], Mixed(x));
    FromZero(x);
    WithZero(x);
    FromZero(0);
    FromZero(Mixed(x));
  }

  /** Of lists that differ in length this cannot be said: zeros at the beginning leave no trace. */
  lemma {:induction false} LeadingZeros(n: nat, list: seq<bv64>)
    ensures HashOf(seq(n, _ => 0) + list) == HashOf(list)
  {
    if n == 0 {
      assert seq(n, _ => 0) + list == list;
    } else {
      var fewer: seq<bv64> := seq(n - 1, _ => 0);
      assert seq(n, _ => 0) == fewer + [0];
      HashMore(fewer, 0);
      assert fewer + [] == fewer;
      LeadingZeros(n - 1, []);
      assert HashOf(fewer + [0]) == HashOf([]) by {
        MixedZero();
      }
      SameEnd(fewer + [0], [], list);
      assert [] + list == list;
    }
  }

  lemma MixedZero()
    ensures Updated(0, 0) == 0
  {
  }

  method HashUpdate(already: bv64, value: bv64) returns (r: bv64)
    ensures r == Updated(already, value)
  {
    r := already;
    r := r ^ (r >> 21);
    ghost var a := r;
    r := r ^ (r << 35);
    ghost var b := r;
    r := r ^ (r >> 4);
    UpdatedSteps(already, a, b, r, value);
    r := r + value;
  }

  method CountHash(range: seq<bv64>) returns (result: bv64)
    ensures result == HashOf(range)
  {
    result := 0;
    for i := 0 to |range|
      invariant result == HashOf(range[..i])
    {
      assert range[..i + 1][..i] == range[..i];
      result := HashUpdate(result, range[i]);
    }
    assert range[..|range|] == range;
  }

  // Narrower values.

  function FromUint32(value: bv32): bv64 { value as bv64 }

  function FromInt32(value: bv32): bv64 {
    if value & 0x8000_0000 == 0 then value as bv64 else 0xFFFF_FFFF_0000_0000 | (value as bv64)
  }

  predicate LowHalf(wide: bv64, low: bv64) { wide & 0xFFFF_FFFF == low }

  lemma LowHalfSigned(value: bv32)
    ensures LowHalf(0xFFFF_FFFF_0000_0000 | (value as bv64), value as bv64)
  {
  }

  lemma LowHalfUnsigned(value: bv32)
    ensures LowHalf(value as bv64, value as bv64)
  {
  }

  lemma LowHalfOf(value: bv32)
    ensures LowHalf(FromInt32(value), value as bv64)
  {
    LowHalfSigned(value);
    LowHalfUnsigned(value);
  }

  lemma UnsignedTellsValues(a: bv32, b: bv32)
    requires FromUint32(a) == FromUint32(b)
    ensures a == b
  {
  }

  /** Widening with the sign keeps values apart. */
  lemma SignedTellsValues(a: bv32, b: bv32)
    requires FromInt32(a) == FromInt32(b)
    ensures a == b
  {
    LowHalfOf(a);
    LowHalfOf(b);
    UnsignedTellsValues(a, b);
  }

  predicate Complements(x: bv64, y: bv64) { x ^ y == 0xFFFF_FFFF_FFFF_FFFF }

  lemma HalvesComplement(a: bv32)
    ensures Complements(a as bv64, 0xFFFF_FFFF_0000_0000 | (!a as bv64))
    ensures Complements(0xFFFF_FFFF_0000_0000 | (a as bv64), !a as bv64)
  {
  }

  lemma OneIsNegative(a: bv32)
    ensures a & 0x8000_0000 == 0 <==> !a & 0x8000_0000 != 0
  {
  }

  /** It keeps the complement, which is one less than the opposite number. */
  lemma SignedComplements(a: bv32)
    ensures Complements(FromInt32(a), FromInt32(!a))
  {
    OneIsNegative(a);
    HalvesComplement(a);
  }

  /** A number that is not negative stays what it is. */
  lemma SignedOfSmall(a: bv32)
    requires a & 0x8000_0000 == 0
    ensures FromInt32(a) == FromUint32(a)
  {
  }

  // Sticker sets.

  datatype SetId = SetId(value: bv64)

  const DEFAULT_SET_ID := SetId(0)

  datatype Set = Set(hash: bv64, special: bool, archived: bool, unread: bool, stickers: seq<bv64>)
  type Sets = map<SetId, Set>

  /** The sets of an order that count: known, not the default one, neither special nor archived. */
  function Counted(order: seq<SetId>, sets: Sets): seq<bv64> {
    if order == [] then []
    else Counted(order[..|order| - 1], sets) + CountedOne(order[|order| - 1], sets)
  }

  function CountedOne(id: SetId, sets: Sets): seq<bv64> {
    if id in sets && id != DEFAULT_SET_ID && !sets[id].special && !sets[id].archived then [sets[id].hash] else []
  }

  lemma CountedMore(order: seq<SetId>, sets: Sets, id: SetId)
    ensures Counted(order + [id], sets)
         == if CountedOne(id, sets) == [] then Counted(order, sets) else Counted(order, sets) + [sets[id].hash]
  {
    assert (order + [id])[..|order|] == order;
  }

  /** What is known of the default set is outdated, and that is asked for. */
  predicate Outdated(order: seq<SetId>, sets: Sets, checkOutdatedInfo: bool) {
    checkOutdatedInfo && DEFAULT_SET_ID in order && DEFAULT_SET_ID in sets
  }

  function OrderHash(order: seq<SetId>, sets: Sets, checkOutdatedInfo: bool): bv64 {
    if Outdated(order, sets, checkOutdatedInfo) then 0 else HashOf(Counted(order, sets))
  }

  /** A zero asks the server for everything anew; only outdated information makes a difference to the hash. */
  lemma OutdatedAsksAnew(order: seq<SetId>, sets: Sets)
    ensures DEFAULT_SET_ID in order && DEFAULT_SET_ID in sets ==> OrderHash(order, sets, true) == 0
    ensures DEFAULT_SET_ID !in order || DEFAULT_SET_ID !in sets ==>
              OrderHash(order, sets, true) == OrderHash(order, sets, false)
    ensures OrderHash(order, sets, false) == HashOf(Counted(order, sets))
  {
  }

  method CountStickersOrderHash(sets: Sets, order: seq<SetId>, checkOutdatedInfo: bool) returns (r: bv64)
    ensures r == OrderHash(order, sets, checkOutdatedInfo)
  {
    var result: bv64 := 0;
    var foundOutdated := false;
    for i := 0 to |order|
      invariant result == HashOf(Counted(order[..i], sets))
      invariant foundOutdated <==> DEFAULT_SET_ID in order[..i] && DEFAULT_SET_ID in sets
    {
      var id := order[i];
      assert order[..i + 1] == order[..i] + [id];
      CountedMore(order[..i], sets, id);
      if id in sets {
        var s := sets[id];
        if id == DEFAULT_SET_ID {
          foundOutdated := true;
        } else if !s.special && !s.archived {
          HashMore(Counted(order[..i], sets), s.hash);
          result := HashUpdate(result, s.hash);
        }
      }
    }
    assert order[..|order|] == order;
    r := if !checkOutdatedInfo || !foundOutdated then result else 0;
  }

  /** One set that counts, with another hash than before, is noticed if and only if nothing is outdated. */
  lemma ChangedSetNoticed(order: seq<SetId>, sets: Sets, id: SetId, hash: bv64, checkOutdatedInfo: bool)
    requires id in sets && id != DEFAULT_SET_ID && !sets[id].special && !sets[id].archived && sets[id].hash != hash
    requires id in order && forall i, j :: 0 <= i < j < |order| ==> order[i] != order[j]
    ensures var changed := sets[id := sets[id].(hash := hash)];
            (OrderHash(order, changed, checkOutdatedInfo) != OrderHash(order, sets, checkOutdatedInfo))
            <==> !Outdated(order, sets, checkOutdatedInfo)
  {
    ChangedCounts(order, sets, id, hash);
  }

  predicate Hidden(s: Set) {
    s.special || s.archived
  }

  /** What is known of a set that does not count makes no difference. */
  lemma {:induction false} UncountedUnnoticed(order: seq<SetId>, sets: Sets, id: SetId, s: Set, checkOutdatedInfo: bool)
    requires id in sets && (id == DEFAULT_SET_ID || (Hidden(sets[id]) && Hidden(s)))
    ensures OrderHash(order, sets[id := s], checkOutdatedInfo) == OrderHash(order, sets, checkOutdatedInfo)
  {
    SameCounted(order, sets, id, s);
  }

  lemma {:induction false} SameCounted(order: seq<SetId>, sets: Sets, id: SetId, s: Set)
    requires id in sets && (id == DEFAULT_SET_ID || (Hidden(sets[id]) && Hidden(s)))
    ensures Counted(order, sets[id := s]) == Counted(order, sets)
  {
    if order != [] {
      SameCounted(order[..|order| - 1], sets, id, s);
    }
  }

  lemma {:induction false} ChangedCounts(order: seq<SetId>, sets: Sets, id: SetId, hash: bv64)
    requires id in sets && id != DEFAULT_SET_ID && !sets[id].special && !sets[id].archived && sets[id].hash != hash
    requires id in order && forall i, j :: 0 <= i < j < |order| ==> order[i] != order[j]
    ensures HashOf(Counted(order, sets[id := sets[id].(hash := hash)])) != HashOf(Counted(order, sets))
  {
    var at :| 0 <= at < |order| && order[at] == id;
    var begin, end := order[..at], order[at + 1..];
    assert order == begin + [id] + end;
    CountedChanged(begin, id, end, sets, sets[id].(hash := hash));
    var before, after := Counted(begin, sets), Counted(end, sets);
    OneChanged(before, sets[id].hash, hash, after);
  }

  lemma CountedChanged(begin: seq<SetId>, id: SetId, end: seq<SetId>, sets: Sets, s: Set)
    requires id !in begin && id !in end && CountedOne(id, sets) != [] && s == sets[id].(hash := s.hash)
    ensures Counted(begin + [id] + end, sets) == Counted(begin, sets) + [sets[id].hash] + Counted(end, sets)
    ensures Counted(begin + [id] + end, sets[id := s]) == Counted(begin, sets) + [s.hash] + Counted(end, sets)
  {
    OnlyOne(sets, id, s, sets[id := s]);
    CountedSame(begin, sets, sets[id := s], id);
    CountedSame(end, sets, sets[id := s], id);
    CountedAround(begin, id, end, sets);
    CountedAround(begin, id, end, sets[id := s]);
  }

  lemma OnlyOne(sets: Sets, id: SetId, s: Set, sets': Sets)
    requires id in sets && sets' == sets[id := s]
    ensures sets'.Keys == sets.Keys && forall j :: j in sets && j != id ==> sets'[j] == sets[j]
  {
  }

  lemma CountedAround(begin: seq<SetId>, id: SetId, end: seq<SetId>, sets: Sets)
    requires CountedOne(id, sets) != []
    ensures Counted(begin + [id] + end, sets) == Counted(begin, sets) + [sets[id].hash] + Counted(end, sets)
  {
    CountedSplit(begin + [id], end, sets);
    CountedMore(begin, sets, id);
  }

  lemma {:induction false} CountedSplit(a: seq<SetId>, b: seq<SetId>, sets: Sets)
    ensures Counted(a + b, sets) == Counted(a, sets) + Counted(b, sets)
  {
    if b == [] {
      assert a + b == a;
    } else {
      var last := |b| - 1;
      assert (a + b)[..|a + b| - 1] == a + b[..last];
      CountedSplit(a, b[..last], sets);
    }
  }

  lemma {:induction false} CountedSame(order: seq<SetId>, sets: Sets, sets': Sets, id: SetId)
    requires id !in order && sets'.Keys == sets.Keys && forall j :: j in sets && j != id ==> sets'[j] == sets[j]
    ensures Counted(order, sets') == Counted(order, sets)
  {
    if order != [] {
      var last := |order| - 1;
      CountedSame(order[..last], sets, sets', id);
    }
  }

  /** The featured sets: each id, and a one behind those not read yet. */
  function Featured(order: seq<SetId>, sets: Sets): seq<bv64> {
    if order == [] then []
    else
      var last := |order| - 1;
      var id := order[last];
      Featured(order[..last], sets) + if id in sets && sets[id].unread then [id.value, 1] else [id.value]
  }

  lemma FeaturedMore(order: seq<SetId>, sets: Sets, id: SetId)
    ensures HashOf(Featured(order + [id], sets))
         == var read := Updated(HashOf(Featured(order, sets)), id.value);
            if id in sets && sets[id].unread then Updated(read, 1) else read
  {
    var before := Featured(order, sets);
    assert (order + [id])[..|order|] == order;
    HashMore(before, id.value);
    HashMore(before + [id.value], 1);
    assert before + [id.value, 1] == before + [id.value] + [1];
  }

  method CountFeaturedHash(sets: Sets, order: seq<SetId>) returns (result: bv64)
    ensures result == HashOf(Featured(order, sets))
  {
    result := 0;
    for i := 0 to |order|
      invariant result == HashOf(Featured(order[..i], sets))
    {
      var id := order[i];
      assert order[..i + 1] == order[..i] + [id];
      FeaturedMore(order[..i], sets, id);
      result := HashUpdate(result, id.value);
      if id in sets && sets[id].unread {
        result := HashUpdate(result, 1);
      }
    }
    assert order[..|order|] == order;
  }

  method CountSpecialStickerSetHash(sets: Sets, setId: SetId) returns (result: bv64)
    ensures result == HashOf(if setId in sets then sets[setId].stickers else [])
  {
    if setId in sets {
      result := CountHash(sets[setId].stickers);
    } else {
      result := 0;
    }
  }
}
