/** The records of the reference traversal and their comparison in 64-bit arithmetic. */
module Records {
  import opened Text
  import opened Types
  import Seek

  datatype Record = Record(id: Int64, score: Option<Int64>)

  const TWO_64: int := 2 * (MAX_INT + 1)

  /** Go's int subtraction wraps around. */
  function Wrapped(x: int): (r: int)
    ensures -MAX_INT - 1 <= r <= MAX_INT
  {
    (x + MAX_INT + 1) % TWO_64 - MAX_INT - 1
  }

  predicate Fits(x: int) { -MAX_INT - 1 <= x <= MAX_INT }

  /** Wrapping a difference of two ints keeps its sign exactly when nothing is lost. */
  lemma WrappedSign(a: Int64, b: Int64)
    ensures (Wrapped(a as int - b as int) < 0 <==> a < b) <==> Fits(a as int - b as int)
    ensures Wrapped(a as int - b as int) == 0 <==> a == b
  {
    var d := a as int - b as int;
    if d > MAX_INT {
      assert (d + MAX_INT + 1) % TWO_64 == d + MAX_INT + 1 - TWO_64;
    } else if d < -MAX_INT - 1 {
      assert (d + MAX_INT + 1) % TWO_64 == d + MAX_INT + 1 + TWO_64;
    }
  }

  /** Null scores last, then by score, then by id. */
  function CompareRecords(left: Record, right: Record): int {
    if left.score.None? && right.score.Some? then 1
    else if left.score.Some? && right.score.None? then -1
    else if left.score.Some? && right.score.Some? && left.score.value != right.score.value then
      Wrapped(left.score.value as int - right.score.value as int)
    else Wrapped(left.id as int - right.id as int)
  }

  /** The order the comparison is meant to be. */
  predicate Precedes(left: Record, right: Record) {
    if left.score.None? || right.score.None? then
      if left.score.None? == right.score.None? then left.id < right.id else left.score.Some?
    else left.score.value < right.score.value || (left.score.value == right.score.value && left.id < right.id)
  }

  /** The difference that decides a comparison, if one is computed. */
  function Deciding(left: Record, right: Record): int {
    if left.score.None? != right.score.None? then 0
    else if left.score.Some? && left.score.value != right.score.value
      then left.score.value as int - right.score.value as int
    else left.id as int - right.id as int
  }

  ghost predicate UniqueIds(rows: iset<Record>) {
    forall a, b | a in rows && b in rows && a != b :: a.id != b.id
  }

  function ComparedOrder(rows: iset<Record>): Seek.Order<Record> {
    Seek.Order((a, b) => CompareRecords(a, b) < 0, rows)
  }

  function IntendedOrder(rows: iset<Record>): Seek.Order<Record> {
    Seek.Order((a, b) => Precedes(a, b), rows)
  }

  lemma ComparesAsIntended(a: Record, b: Record)
    ensures (CompareRecords(a, b) < 0 <==> Precedes(a, b)) <==> Fits(Deciding(a, b))
  {
    if a.score.None? == b.score.None? {
      if a.score.Some? && a.score.value != b.score.value {
        WrappedSign(a.score.value, b.score.value);
      } else {
        WrappedSign(a.id, b.id);
      }
    }
  }

  /** Records with distinct ids are totally ordered by intent. */
  lemma IntendedTotal(rows: iset<Record>)
    requires UniqueIds(rows)
    ensures Seek.StrictTotal(IntendedOrder(rows))
  {
    forall a, b | a in rows && b in rows && a != b ensures Precedes(a, b) || Precedes(b, a) {
      assert a.id != b.id;
    }
  }

  /** The spread a caller can check beforehand: no two scores and no two ids are 2^63 or more apart. */
  ghost predicate Narrow(rows: iset<Record>) {
    forall a, b | a in rows && b in rows :: Fits(Deciding(a, b))
  }

  /** The comparison agrees with its intent on a set of records exactly when no deciding difference
      overflows. */
  lemma AgreesWhenNarrow(rows: iset<Record>)
    ensures Narrow(rows) <==> forall a, b | a in rows && b in rows :: CompareRecords(a, b) < 0 <==> Precedes(a, b)
  {
    forall a, b ensures (CompareRecords(a, b) < 0 <==> Precedes(a, b)) <==> Fits(Deciding(a, b)) {
      ComparesAsIntended(a, b);
    }
  }

  lemma {:induction false} NarrowTotal(rows: iset<Record>)
    requires UniqueIds(rows) && Narrow(rows)
    ensures Seek.StrictTotal(ComparedOrder(rows))
  {
    IntendedTotal(rows);
    AgreesWhenNarrow(rows);
    var intended, compared := IntendedOrder(rows), ComparedOrder(rows);
    assert forall a, b | a in rows && b in rows :: compared.less(a, b) <==> intended.less(a, b);
    hide CompareRecords, Precedes, Narrow, UniqueIds, Fits;
  }

  /** Without that spread the comparison can even go round in a circle. */
  lemma WideScoresCycle()
    ensures exists a, b, c :: CompareRecords(a, b) < 0 && CompareRecords(b, c) < 0 && CompareRecords(c, a) < 0
  {
    var low, zero, high := Record(0, Some(-0x8000_0000_0000_0000)), Record(1, Some(0)),
      Record(2, Some(0x7FFF_FFFF_FFFF_FFFF));
    assert CompareRecords(low, zero) < 0;
    assert CompareRecords(zero, high) < 0;
    assert CompareRecords(high, low) < 0;
  }

  /** Both reference traversals return a sorted table as it is, for every page size of at least one. */
  method TraverseBoth(rows: seq<Record>, size: nat) returns (forward: seq<Record>, backward: seq<Record>)
    requires size >= 1
    requires var all := iset r | r in rows; UniqueIds(all) && Narrow(all)
    requires forall i, j :: 0 <= i < j < |rows| ==> Precedes(rows[i], rows[j])
    ensures forward == rows && backward == rows
  {
    ghost var all := iset r | r in rows;
    var order := ComparedOrder(iset r | r in rows);
    NarrowTotal(all);
    AgreesWhenNarrow(all);
    assert Seek.Listing(order, rows);
    forward := Seek.TraverseForward(order, rows, size);
    backward := Seek.TraverseBackward(order, rows, size);
  }
}
