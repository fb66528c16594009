/** The order in which the auction farmer looks at dialog-bubble centres:
    the left column before the right one, each column top to bottom. */
module CenterOrder {

  /** A bubble centre `(x, y)` in frame-relative coordinates. */
  type Center = (real, real)

  /** The comparator handed to `std::sort`, as written: two centres on the
      same side of x = 0.5 compare by y, otherwise left comes before right.
      A centre with x exactly 0.5 is on neither side. */
  predicate ComparatorAsWritten(left: Center, right: Center) {
    if (left.0 < 0.5 && right.0 < 0.5) || (left.0 > 0.5 && right.0 > 0.5) then left.1 < right.1
    else left.0 < 0.5 && right.0 > 0.5
  }

  predicate Incomparable(less: (Center, Center) -> bool, a: Center, b: Center) {
    !less(a, b) && !less(b, a)
  }

  /** `std::sort` needs a strict weak order, whose incomparability is
      transitive. With a centre on x = 0.5 the comparator as written breaks
      that: the middle centre is incomparable with both others, which are
      themselves ordered. */
  lemma AsWrittenNotStrictWeakOrder()
    ensures var a, m, b := (0.25, 0.7), (0.5, 0.5), (0.25, 0.3);
      Incomparable(ComparatorAsWritten, a, m) && Incomparable(ComparatorAsWritten, m, b)
      && ComparatorAsWritten(b, a)
  {
  }

  /** The column of a centre: 0 for the left, 1 for the right. A centre on
      x = 0.5 goes right, as the farmer steers towards it elsewhere. */
  function Side(c: Center): nat {
    if c.0 < 0.5 then 0 else 1
  }

  /** The corrected comparator: by column, then by y. */
  predicate CenterBefore(left: Center, right: Center) {
    Side(left) < Side(right) || (Side(left) == Side(right) && left.1 < right.1)
  }

  /** Away from x = 0.5 the corrected comparator is the one written. */
  lemma CenterBeforeAgreesOffMidline(left: Center, right: Center)
    requires left.0 != 0.5 && right.0 != 0.5
    ensures CenterBefore(left, right) == ComparatorAsWritten(left, right)
  {
  }

  /** The corrected comparator is a strict weak order on all centres. */
  lemma CenterBeforeIsStrictWeakOrder(a: Center, b: Center, c: Center)
    ensures !CenterBefore(a, a)
    ensures CenterBefore(a, b) && CenterBefore(b, c) ==> CenterBefore(a, c)
    ensures Incomparable(CenterBefore, a, b) && Incomparable(CenterBefore, b, c) ==> Incomparable(CenterBefore, a, c)
  {
  }

  /** No later centre sorts strictly before an earlier one. */
  predicate Ordered(centers: seq<Center>) {
    forall i, j :: 0 <= i < j < |centers| ==> !CenterBefore(centers[j], centers[i])
  }

  /** Puts `c` in front of the first centre that does not sort before it. */
  function Insert(c: Center, sorted: seq<Center>): (r: seq<Center>)
    ensures multiset(r) == multiset(sorted) + multiset{c}
  {
    if sorted == [] || !CenterBefore(sorted[0], c) then [c] + sorted
    else
      assert sorted == [sorted[0]] + sorted[1..];
      [sorted[0]] + Insert(c, sorted[1..])
  }

  lemma {:induction false} InsertOrdered(c: Center, sorted: seq<Center>)
    requires Ordered(sorted)
    ensures Ordered(Insert(c, sorted))
  {
    if sorted != [] && CenterBefore(sorted[0], c) {
      var rest := sorted[1..];
      InsertOrdered(c, rest);
      var r := Insert(c, sorted);
      forall j | 0 < j < |r|
        ensures !CenterBefore(r[j], r[0])
      {
        assert r[j] in multiset(Insert(c, rest));
        assert r[j] == c || r[j] in rest;
      }
      assert r[1..] == Insert(c, rest);
    }
  }

  /** A sort by `CenterBefore`; `std::sort` is not stable, so among centres
      in one column with equal y any order would do. */
  function SortCenters(centers: seq<Center>): (r: seq<Center>)
    ensures multiset(r) == multiset(centers)
    ensures Ordered(r)
  {
    if centers == [] then []
    else
      var rest := SortCenters(centers[1..]);
      InsertOrdered(centers[0], rest);
      assert centers == [centers[0]] + centers[1..];
      Insert(centers[0], rest)
  }

  /** What an ordered sequence of centres looks like: the left column first,
      each column by ascending y. */
  lemma {:induction false} OrderedMeansColumnsThenRows(centers: seq<Center>)
    requires Ordered(centers)
    ensures forall i, j :: 0 <= i < j < |centers| && centers[j].0 < 0.5 ==> centers[i].0 < 0.5
    ensures forall i, j :: 0 <= i < j < |centers| && Side(centers[i]) == Side(centers[j]) ==>
      centers[i].1 <= centers[j].1
    ensures (forall k :: 0 <= k < |centers| ==> centers[k].0 != 0.5) ==>
      forall i, j :: 0 <= i < j < |centers| ==> !ComparatorAsWritten(centers[j], centers[i])
  {
    if forall k :: 0 <= k < |centers| ==> centers[k].0 != 0.5 {
      forall i, j | 0 <= i < j < |centers|
        ensures !ComparatorAsWritten(centers[j], centers[i])
      {
        CenterBeforeAgreesOffMidline(centers[j], centers[i]);
      }
    }
  }
}
