/**
 * The fragment collections of the SQL builder. Each collection is a Java
 * HashSet<String>; here it is a duplicate-free sequence whose order stands for
 * one (unspecified) iteration order of the set. Java's null, which a HashSet
 * accepts as an element, is None.
 */
module Fragments {

  datatype Option<+T> = None | Some(value: T)

  /** A clause fragment as the builder stores it: None is a null String. */
  type Fragment = Option<string>

  /** No element occurs twice: the sequence is a faithful view of a set. */
  ghost predicate Distinct<T>(s: seq<T>) {
    forall i, j :: 0 <= i < j < |s| ==> s[i] != s[j]
  }

  /** Set.add: the collection afterwards holds exactly the old members and f. */
  function Add(s: seq<Fragment>, f: Fragment): (r: seq<Fragment>)
    ensures forall x :: x in r <==> x in s || x == f
    ensures Distinct(s) ==> Distinct(r)
    ensures f in s ==> r == s
    ensures |r| == if f in s then |s| else |s| + 1
  {
    if f in s then s else s + [f]
  }

  /** Set.addAll: adds the list's elements one after the other. */
  function AddAll(s: seq<Fragment>, items: seq<Fragment>): (r: seq<Fragment>)
    ensures forall x :: x in r <==> x in s || x in items
    ensures Distinct(s) ==> Distinct(r)
    decreases |items|
  {
    if items == [] then s
    else
      assert forall x :: x in items <==> x == items[0] || x in items[1..];
      AddAll(Add(s, items[0]), items[1..])
  }

  /** Adding elements that are all members already changes nothing. */
  lemma {:induction false} AddAllPresent(s: seq<Fragment>, items: seq<Fragment>)
    requires forall x :: x in items ==> x in s
    ensures AddAll(s, items) == s
    decreases |items|
  {
    if items != [] {
      assert items[0] in items;
      assert forall x :: x in items[1..] ==> x in items;
      AddAllPresent(s, items[1..]);
    }
  }

  /** addAll is idempotent: repeating it with the same list is a no-op. */
  lemma AddAllIdempotent(s: seq<Fragment>, items: seq<Fragment>)
    ensures AddAll(AddAll(s, items), items) == AddAll(s, items)
  {
    AddAllPresent(AddAll(s, items), items);
  }

  /** addAll with a list of one element is add. */
  lemma AddAllSingleton(s: seq<Fragment>, f: Fragment)
    ensures AddAll(s, [f]) == Add(s, f)
  {
  }

  /**
   * In a duplicate-free sequence each member occurs exactly once, so its
   * multiset is determined by its set of members.
   */
  lemma {:induction false} DistinctCount<T>(s: seq<T>, x: T)
    requires Distinct(s)
    ensures multiset(s)[x] == if x in s then 1 else 0
  {
    if s != [] {
      assert s == [s[0]] + s[1..];
      assert Distinct(s[1..]) by {
        forall i, j | 0 <= i < j < |s[1..]| ensures s[1..][i] != s[1..][j] {
          assert s[1..][i] == s[i + 1] && s[1..][j] == s[j + 1];
        }
      }
      assert s[0] !in s[1..] by {
        forall k | 0 <= k < |s[1..]| ensures s[1..][k] != s[0] {
          assert s[1..][k] == s[k + 1];
        }
      }
      DistinctCount(s[1..], x);
    }
  }
}
