/**
 * The builder's private asString helpers: Guava's
 * Joiner.on(',').skipNulls().join(collection), and the variant that returns a
 * default text for an empty collection. Split inverts the join for a
 * non-empty list of comma-free pieces; it is used to state what a rendered
 * clause lists.
 */
module SqlText {
  import opened Fragments

  /** The non-null members, in iteration order: what skipNulls() lets through. */
  function NonNull(xs: seq<Fragment>): (r: seq<string>)
    ensures forall s :: s in r <==> Some(s) in xs
    ensures |r| <= |xs|
  {
    if xs == [] then []
    else
      assert forall x :: x in xs <==> x == xs[0] || x in xs[1..];
      (if xs[0].Some? then [xs[0].value] else []) + NonNull(xs[1..])
  }

  /** Sum of the lengths of the pieces. */
  function TotalLength(ss: seq<string>): nat {
    if ss == [] then 0 else |ss[0]| + TotalLength(ss[1..])
  }

  /** Joiner.on(','): the pieces separated by one comma and nothing else. */
  function JoinStrings(ss: seq<string>): (r: string)
    ensures ss == [] ==> r == ""
    ensures ss != [] ==> |r| == TotalLength(ss) + |ss| - 1
  {
    if ss == [] then ""
    else if |ss| == 1 then ss[0]
    else ss[0] + "," + JoinStrings(ss[1..])
  }

  /** asString(list): the non-null members joined by ','. */
  function Join(xs: seq<Fragment>): (r: string)
    ensures NonNull(xs) == [] ==> r == ""
    ensures NonNull(xs) != [] ==> |r| == TotalLength(NonNull(xs)) + |NonNull(xs)| - 1
  {
    JoinStrings(NonNull(xs))
  }

  /** asString(list, defaultString): the default when the collection has size 0. */
  function JoinOr(xs: seq<Fragment>, default: string): (r: string)
    ensures |xs| == 0 ==> r == default
    ensures |xs| > 0 && NonNull(xs) == [] ==> r == ""
    ensures NonNull(xs) != [] ==> r == Join(xs)
  {
    if |xs| == 0 then default else Join(xs)
  }

  /** Cuts a text at every ','; "" gives one empty piece. */
  function Split(s: string): (r: seq<string>)
    ensures |r| > 0
  {
    if s == [] then [""]
    else
      var rest := Split(s[1..]);
      if s[0] == ',' then [""] + rest
      else [[s[0]] + rest[0]] + rest[1..]
  }

  /** A piece without a comma is not cut. */
  lemma {:induction false} SplitNoComma(a: string)
    requires ',' !in a
    ensures Split(a) == [a]
  {
    if a != [] {
      assert a[0] != ',' by { assert a[0] in a; }
      assert ',' !in a[1..] by {
        forall k | 0 <= k < |a[1..]| ensures a[1..][k] != ',' {
          assert a[1..][k] == a[k + 1];
        }
      }
      SplitNoComma(a[1..]);
      assert [a[0]] + a[1..] == a;
    }
  }

  /** Splitting stops at the first comma. */
  lemma {:induction false} SplitAfterPiece(a: string, b: string)
    requires ',' !in a
    ensures Split(a + "," + b) == [a] + Split(b)
  {
    var s := a + "," + b;
    if a == [] {
      assert s[0] == ',' && s[1..] == b;
    } else {
      assert a[0] != ',' by { assert a[0] in a; }
      assert ',' !in a[1..] by {
        forall k | 0 <= k < |a[1..]| ensures a[1..][k] != ',' {
          assert a[1..][k] == a[k + 1];
        }
      }
      assert s[0] == a[0];
      assert s[1..] == a[1..] + "," + b;
      SplitAfterPiece(a[1..], b);
      assert [a[0]] + a[1..] == a;
    }
  }

  /** Split inverts JoinStrings when no piece contains the separator. */
  lemma {:induction false} SplitJoinStrings(ss: seq<string>)
    requires ss != []
    requires forall s :: s in ss ==> ',' !in s
    ensures Split(JoinStrings(ss)) == ss
    decreases |ss|
  {
    assert ss[0] in ss;
    if |ss| == 1 {
      SplitNoComma(ss[0]);
    } else {
      assert forall s :: s in ss[1..] ==> s in ss;
      SplitJoinStrings(ss[1..]);
      SplitAfterPiece(ss[0], JoinStrings(ss[1..]));
      assert [ss[0]] + ss[1..] == ss;
    }
  }

  /**
   * The pieces of a joined clause are exactly its non-null members, in
   * iteration order, when at least one member is non-null and none holds ','.
   */
  lemma SplitJoin(xs: seq<Fragment>)
    requires NonNull(xs) != []
    requires forall s :: Some(s) in xs ==> ',' !in s
    ensures Split(Join(xs)) == NonNull(xs)
  {
    SplitJoinStrings(NonNull(xs));
  }

  /** A collection of nothing but nulls joins to the empty text. */
  lemma {:induction false} JoinAllNull(xs: seq<Fragment>)
    requires forall x :: x in xs ==> x == None
    ensures Join(xs) == ""
  {
    if xs != [] {
      assert xs[0] in xs;
      assert forall x :: x in xs[1..] ==> x in xs;
      JoinAllNull(xs[1..]);
    }
  }

  /** skipNulls keeps each non-null member as often as the collection holds it. */
  lemma {:induction false} NonNullCount(xs: seq<Fragment>, s: string)
    ensures multiset(NonNull(xs))[s] == multiset(xs)[Some(s)]
  {
    if xs != [] {
      assert xs == [xs[0]] + xs[1..];
      NonNullCount(xs[1..], s);
    }
  }

  /**
   * A duplicate-free collection lists each non-null member exactly once
   * among the pieces of its clause.
   */
  lemma PiecesOnce(xs: seq<Fragment>, s: string)
    requires Distinct(xs)
    ensures multiset(NonNull(xs))[s] == if Some(s) in xs then 1 else 0
  {
    NonNullCount(xs, s);
    DistinctCount(xs, Some(s));
  }

  /**
   * The pieces of a clause do not depend on the set's iteration order: two
   * duplicate-free orderings of the same members give the same pieces, up
   * to order.
   */
  lemma PiecesOrderIndependent(xs: seq<Fragment>, ys: seq<Fragment>)
    requires Distinct(xs) && Distinct(ys)
    requires forall x :: x in xs <==> x in ys
    ensures multiset(NonNull(xs)) == multiset(NonNull(ys))
  {
    forall s ensures multiset(NonNull(xs))[s] == multiset(NonNull(ys))[s] {
      PiecesOnce(xs, s);
      PiecesOnce(ys, s);
    }
  }
}
