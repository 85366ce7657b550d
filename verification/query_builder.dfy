/**
 * SqlQueryBuilder: a mutable SELECT-statement builder with four
 * deduplicating fragment collections and a DISTINCT flag. Query is the
 * builder's state as a value; Render is the text toSQLString() produces from
 * it; the class keeps the state in fields and updates them in place.
 */
module QueryBuilder {
  import opened Fragments
  import opened SqlText

  /** The exception Preconditions.checkNotNull throws. */
  datatype Error = NullPointerException

  /** How a call returns: normally, or by throwing. */
  datatype Outcome = Pass | Fail(error: Error)

  /** The builder's fields, as a value. */
  datatype Query = Query(
    selects: seq<Fragment>,
    froms: seq<Fragment>,
    wheres: seq<Fragment>,
    orders: seq<Fragment>,
    distinct: bool)
  {
    /** Each collection is a set: no fragment twice. */
    ghost predicate Valid() {
      Distinct(selects) && Distinct(froms) && Distinct(wheres) && Distinct(orders)
    }
  }

  /** The state a freshly constructed builder holds. */
  function EmptyQuery(): (q: Query)
    ensures q.Valid()
    ensures q.selects == q.froms == q.wheres == q.orders == [] && !q.distinct
  {
    Query([], [], [], [], false)
  }

  /** A trailing clause that appears only when its collection is non-empty. */
  function OptionalClause(keyword: string, xs: seq<Fragment>): (r: string)
    ensures |xs| == 0 ==> r == ""
    ensures |xs| > 0 ==> keyword <= r && r[|keyword|..] == Join(xs)
  {
    if |xs| > 0 then keyword + Join(xs) else ""
  }

  /** The text toSQLString() returns for a builder in state q. */
  function Render(q: Query): (r: string)
    ensures "SELECT " <= r
  {
    "SELECT "
    + (if q.distinct then " DISTINCT " else "")
    + JoinOr(q.selects, "*")
    + " FROM "
    + Join(q.froms)
    + OptionalClause(" WHERE ", q.wheres)
    + OptionalClause(" ORDER BY ", q.orders)
  }

  /** A fresh builder renders a bare SELECT * with an empty FROM list. */
  lemma FreshRender()
    ensures Render(EmptyQuery()) == "SELECT * FROM "
  {
  }

  /**
   * The select list is "*" for an empty collection; otherwise it is the
   * joined non-null members, which is empty when every member is null and
   * otherwise splits back into exactly those members.
   */
  lemma SelectList(xs: seq<Fragment>)
    ensures |xs| == 0 ==> JoinOr(xs, "*") == "*"
    ensures |xs| > 0 && (forall x :: x in xs ==> x == None) ==> JoinOr(xs, "*") == ""
    ensures NonNull(xs) != [] && (forall s :: Some(s) in xs ==> ',' !in s) ==>
              Split(JoinOr(xs, "*")) == NonNull(xs)
  {
    if |xs| > 0 && (forall x :: x in xs ==> x == None) {
      JoinAllNull(xs);
    }
    if NonNull(xs) != [] && (forall s :: Some(s) in xs ==> ',' !in s) {
      SplitJoin(xs);
    }
  }

  /**
   * A WHERE or ORDER BY clause is present exactly when its collection is
   * non-empty; when present it is the keyword followed by the joined members.
   */
  lemma OptionalClausePresence(keyword: string, xs: seq<Fragment>)
    requires keyword != ""
    ensures OptionalClause(keyword, xs) == "" <==> |xs| == 0
    ensures |xs| > 0 ==> keyword <= OptionalClause(keyword, xs)
    ensures |xs| > 0 ==> OptionalClause(keyword, xs)[|keyword|..] == Join(xs)
  {
  }

  // Facts about appending text, which the step-by-step build and the prefix
  // proof below use to regroup concatenations.

  lemma AppendAssoc(a: string, b: string, c: string)
    ensures (a + b) + c == a + (b + c)
  {
  }

  lemma AppendEmpty(a: string)
    ensures a + "" == a
  {
  }

  lemma PrefixExtend(p: string, a: string, b: string)
    requires p <= a
    ensures p <= a + b
  {
  }

  /** Every rendered query opens with SELECT, then DISTINCT when the flag is set. */
  lemma RenderPrefix(q: Query)
    ensures "SELECT " <= Render(q)
    ensures q.distinct ==> "SELECT  DISTINCT " <= Render(q)
    ensures !q.distinct && q.selects == [] ==> "SELECT * FROM " <= Render(q)
  {
    var s0 := "SELECT " + if q.distinct then " DISTINCT " else "";
    var s1 := s0 + JoinOr(q.selects, "*") + " FROM ";
    var s2 := s1 + Join(q.froms) + OptionalClause(" WHERE ", q.wheres);
    PrefixExtend(s0, s0, JoinOr(q.selects, "*"));
    PrefixExtend(s0, s0 + JoinOr(q.selects, "*"), " FROM ");
    PrefixExtend(s1, s1, Join(q.froms));
    PrefixExtend(s1, s1 + Join(q.froms), OptionalClause(" WHERE ", q.wheres));
    PrefixExtend(s1, s2, OptionalClause(" ORDER BY ", q.orders));
    if !q.distinct && q.selects == [] {
      assert s1 == "SELECT * FROM ";
    }
  }

  /**
   * The WHERE and ORDER BY clauses are appended after everything else: the
   * query is the text rendered without them followed by the two clauses.
   */
  lemma TrailingClauses(q: Query)
    ensures Render(q) == Render(q.(wheres := [], orders := []))
                         + OptionalClause(" WHERE ", q.wheres)
                         + OptionalClause(" ORDER BY ", q.orders)
  {
    var head := Render(q.(wheres := [], orders := []));
    var d := if q.distinct then " DISTINCT " else "";
    var h := "SELECT " + d + JoinOr(q.selects, "*") + " FROM " + Join(q.froms);
    AppendEmpty(h);
    AppendEmpty(h + "");
    assert head == h;
  }

  /**
   * An empty FROM collection is not rejected, whatever the other
   * collections hold: the text before the optional clauses ends in " FROM ".
   */
  lemma EmptyFromRender(q: Query)
    requires q.froms == []
    ensures var head := Render(q.(wheres := [], orders := []));
            |head| >= 6 && head[|head| - 6..] == " FROM "
    ensures q.wheres == [] && q.orders == [] ==>
              var sql := Render(q); |sql| >= 6 && sql[|sql| - 6..] == " FROM "
  {
  }

  /**
   * addSelect(String) lets null through; a builder holding only a null select
   * renders an empty select list rather than "*".
   */
  lemma NullSelectRender()
    ensures Render(EmptyQuery().(selects := Add([], None))) == "SELECT  FROM "
  {
  }

  /**
   * A fragment added twice is listed once among the pieces of its rendered
   * clause (pieces being the clause text cut at ',').
   */
  lemma AddedTwiceListedOnce(xs: seq<Fragment>, f: string)
    requires Distinct(xs)
    requires ',' !in f && forall s :: Some(s) in xs ==> ',' !in s
    ensures var ys := Add(Add(xs, Some(f)), Some(f));
            multiset(Split(Join(ys)))[f] == 1
  {
    var ys := Add(Add(xs, Some(f)), Some(f));
    assert f in NonNull(ys);
    SplitJoin(ys);
    PiecesOnce(ys, f);
  }

  /**
   * Adding a fragment that is already present leaves the rendered query
   * unchanged, whichever collection it goes to.
   */
  lemma AddPresentRendersSame(q: Query, f: Fragment)
    ensures f in q.selects ==> Render(q.(selects := Add(q.selects, f))) == Render(q)
    ensures f in q.froms ==> Render(q.(froms := Add(q.froms, f))) == Render(q)
    ensures f in q.wheres ==> Render(q.(wheres := Add(q.wheres, f))) == Render(q)
    ensures f in q.orders ==> Render(q.(orders := Add(q.orders, f))) == Render(q)
  {
  }

  class SqlQueryBuilder {
    var selects: seq<Fragment>
    var wheres: seq<Fragment>
    var froms: seq<Fragment>
    var orders: seq<Fragment>
    var isDistinct: bool

    /** The fields as a Query value. */
    function State(): Query
      reads this
    {
      Query(selects, froms, wheres, orders, isDistinct)
    }

    ghost predicate Valid()
      reads this
    {
      State().Valid()
    }

    /** Four empty collections; isDistinct keeps Java's default, false. */
    constructor ()
      ensures Valid() && State() == EmptyQuery()
      ensures Render(State()) == "SELECT * FROM "
    {
      selects := [];
      wheres := [];
      froms := [];
      orders := [];
      isDistinct := false;
      FreshRender();
    }

    /**
     * addSelect(String) checks the field, never null, instead of its
     * argument, so it never throws and accepts a null select.
     */
    method AddSelect(select: Fragment)
      requires Valid()
      modifies this
      ensures Valid()
      ensures State() == old(State()).(selects := Add(old(selects), select))
    {
      selects := Add(selects, select);
    }

    /** addSelect(List): rejects a null list; its elements are not checked. */
    method AddSelectList(list: Option<seq<Fragment>>) returns (r: Outcome)
      requires Valid()
      modifies this
      ensures Valid()
      ensures list == None ==> r == Fail(NullPointerException) && State() == old(State())
      ensures list != None ==>
                r == Pass && State() == old(State()).(selects := AddAll(old(selects), list.value))
    {
      if list == None {
        return Fail(NullPointerException);
      }
      selects := AddAll(selects, list.value);
      r := Pass;
    }

    /** addOrder(List): rejects a null list; its elements are not checked. */
    method AddOrderList(list: Option<seq<Fragment>>) returns (r: Outcome)
      requires Valid()
      modifies this
      ensures Valid()
      ensures list == None ==> r == Fail(NullPointerException) && State() == old(State())
      ensures list != None ==>
                r == Pass && State() == old(State()).(orders := AddAll(old(orders), list.value))
    {
      if list == None {
        return Fail(NullPointerException);
      }
      orders := AddAll(orders, list.value);
      r := Pass;
    }

    /** addOrder(String): rejects a null fragment. */
    method AddOrder(order: Fragment) returns (r: Outcome)
      requires Valid()
      modifies this
      ensures Valid()
      ensures order == None ==> r == Fail(NullPointerException) && State() == old(State())
      ensures order != None ==>
                r == Pass && State() == old(State()).(orders := Add(old(orders), order))
    {
      if order == None {
        return Fail(NullPointerException);
      }
      orders := Add(orders, order);
      r := Pass;
    }

    /** addWhere(String): rejects a null fragment. */
    method AddWhere(where: Fragment) returns (r: Outcome)
      requires Valid()
      modifies this
      ensures Valid()
      ensures where == None ==> r == Fail(NullPointerException) && State() == old(State())
      ensures where != None ==>
                r == Pass && State() == old(State()).(wheres := Add(old(wheres), where))
    {
      if where == None {
        return Fail(NullPointerException);
      }
      wheres := Add(wheres, where);
      r := Pass;
    }

    /** addWhere(List): rejects a null list; its elements are not checked. */
    method AddWhereList(list: Option<seq<Fragment>>) returns (r: Outcome)
      requires Valid()
      modifies this
      ensures Valid()
      ensures list == None ==> r == Fail(NullPointerException) && State() == old(State())
      ensures list != None ==>
                r == Pass && State() == old(State()).(wheres := AddAll(old(wheres), list.value))
    {
      if list == None {
        return Fail(NullPointerException);
      }
      wheres := AddAll(wheres, list.value);
      r := Pass;
    }

    /** addFrom(String): rejects a null fragment. */
    method AddFrom(from: Fragment) returns (r: Outcome)
      requires Valid()
      modifies this
      ensures Valid()
      ensures from == None ==> r == Fail(NullPointerException) && State() == old(State())
      ensures from != None ==>
                r == Pass && State() == old(State()).(froms := Add(old(froms), from))
    {
      if from == None {
        return Fail(NullPointerException);
      }
      froms := Add(froms, from);
      r := Pass;
    }

    /** addFrom(List): rejects a null list; its elements are not checked. */
    method AddFromList(list: Option<seq<Fragment>>) returns (r: Outcome)
      requires Valid()
      modifies this
      ensures Valid()
      ensures list == None ==> r == Fail(NullPointerException) && State() == old(State())
      ensures list != None ==>
                r == Pass && State() == old(State()).(froms := AddAll(old(froms), list.value))
    {
      if list == None {
        return Fail(NullPointerException);
      }
      froms := AddAll(froms, list.value);
      r := Pass;
    }

    /** setDistinct: changes the flag and nothing else. */
    method SetDistinct(distinct: bool)
      requires Valid()
      modifies this
      ensures Valid()
      ensures State() == old(State()).(distinct := distinct)
    {
      isDistinct := distinct;
    }

    /**
     * toSQLString: appends the clauses one after the other; reads the
     * builder and changes nothing.
     */
    method ToSqlString() returns (sql: string)
      ensures sql == Render(State())
    {
      var builder := "SELECT ";
      if isDistinct {
        builder := builder + " DISTINCT ";
      } else {
        AppendEmpty(builder);
      }
      builder := builder + JoinOr(selects, "*");
      builder := builder + " FROM ";
      builder := builder + Join(froms);
      ghost var head := builder;
      if |wheres| > 0 {
        builder := builder + " WHERE ";
        builder := builder + Join(wheres);
        AppendAssoc(head, " WHERE ", Join(wheres));
      } else {
        AppendEmpty(builder);
      }
      ghost var body := builder;
      if |orders| > 0 {
        builder := builder + " ORDER BY ";
        builder := builder + Join(orders);
        AppendAssoc(body, " ORDER BY ", Join(orders));
      } else {
        AppendEmpty(builder);
      }
      sql := builder;
    }
  }
}
