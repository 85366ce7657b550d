# SqlQueryBuilder, modelled in Dafny

NADEEF's `SqlQueryBuilder` assembles one SQL `SELECT` statement from fragments that callers contribute one at a time. It keeps four Java `HashSet<String>` collections and a `DISTINCT` flag:

- `selects`: the columns;
- `froms`: the tables;
- `wheres`: the predicates;
- `orders`: the `ORDER BY` columns;
- `isDistinct`: the flag.

The `add*` methods put one fragment or a list of fragments into one collection. `setDistinct` sets the flag. `toSQLString` turns the state into text.

The model has three modules:

- `Fragments` (`fragments.dfy`): a collection is a duplicate-free `seq<Fragment>`, and `Fragment = Option<string>`. `None` is Java's `null`, which a `HashSet` accepts as an element. `Add` and `AddAll` are `Set.add` and `Set.addAll`.
- `SqlText` (`sql_text.dfy`): the private `asString` helpers, which are Guava's `Joiner.on(',').skipNulls()` (`NonNull`, `JoinStrings`, `Join`) and the variant with a default text for an empty collection (`JoinOr`). `Split` cuts a text at every `,`. It inverts the join when there is at least one piece and no piece contains `,`. It is used to state which pieces a rendered clause lists.
- `QueryBuilder` (`query_builder.dfy`): `Query` is the builder's state as a value. `Render` is the text `toSQLString` returns for a state. The class `SqlQueryBuilder` holds the fields, and its methods update them in place. Each mutating method states its whole new state as `old(State())` with one field replaced. That is also the frame property: the other three collections and the flag are untouched. `ToSqlString` appends the clauses step by step, as the `StringBuilder` code does. It is proved equal to `Render`. It has no `modifies` clause, so it cannot change the builder.

A `checkNotNull` failure is modelled as the result `Fail(NullPointerException)`, and the state is left unchanged.

The model follows the code, including these points a reader might not expect:

- WHERE predicates are joined with `,`, not `AND`.
- An empty `froms` collection is not rejected. The text before the optional WHERE and ORDER BY clauses then ends in `" FROM "` (`EmptyFromRender`, `TrailingClauses`).
- Collections can hold `null`. `addSelect(String)` passes the field `selects`, which is never null, to `checkNotNull` instead of its argument. So a null select is accepted. A builder whose only select is null renders `"SELECT  FROM "`, with an empty select list and not `*` (`NullSelectRender`). The default `*` is chosen by the collection's size, not by its non-null members.
- The `DISTINCT` text is `" DISTINCT "` appended after `"SELECT "`, which gives two spaces (`RenderPrefix`).

Java's `HashSet` iteration order is unspecified. The model iterates in insertion order, which is one admissible order. Facts that do not depend on the order are proved separately: `PiecesOrderIndependent` shows that any two orderings of the same members give the same clause pieces, up to permutation.

## Model

| member | source | states |
|---|---|---|
| `Fragments.Add` | core/src/qa/qcri/nadeef/core/util/SqlQueryBuilder.java:52-55 | Set.add: afterwards the members are exactly the old members plus the fragment, and the collection stays duplicate-free. Adding a present fragment returns the collection unchanged, and the size grows by one exactly when the fragment is new. |
| `Fragments.AddAll` | core/src/qa/qcri/nadeef/core/util/SqlQueryBuilder.java:42-45 | Set.addAll: the members are exactly the old members plus the list's elements, and the collection stays duplicate-free. |
| `Fragments.AddAllPresent` | core/src/qa/qcri/nadeef/core/util/SqlQueryBuilder.java:62-65 | Adding a list whose elements are all present already leaves the collection unchanged. |
| `Fragments.AddAllIdempotent` | core/src/qa/qcri/nadeef/core/util/SqlQueryBuilder.java:72-75 | Adding the same list twice has the same effect as adding it once. |
| `Fragments.AddAllSingleton` | core/src/qa/qcri/nadeef/core/util/SqlQueryBuilder.java:37-45 | addAll of a one-element list equals add of that element. So `addSelect(List)` with `[f]` acts as `addSelect(f)`, null included. For `addFrom`, `addWhere` and `addOrder` this holds only for a non-null `f`: given `[null]`, the list overload adds null while the String overload throws (see their method contracts). |
| `SqlText.NonNull` | core/src/qa/qcri/nadeef/core/util/SqlQueryBuilder.java:113 | skipNulls: a string is a piece exactly when the collection holds it as a non-null member, and there are never more pieces than members. |
| `SqlText.JoinStrings` | core/src/qa/qcri/nadeef/core/util/SqlQueryBuilder.java:113 | Joiner.on(','): no pieces give "". Otherwise the length is the pieces' total length plus one per gap, so the separator is one character with no spaces. |
| `SqlText.Join` | core/src/qa/qcri/nadeef/core/util/SqlQueryBuilder.java:112-114 | Definition of asString(list). Its contract gives "" when no member is non-null and the joined length otherwise. `SplitJoin`, `PiecesOnce` and `NonNullCount` pin down what it lists. |
| `SqlText.JoinOr` | core/src/qa/qcri/nadeef/core/util/SqlQueryBuilder.java:105-110 | Definition of asString(list, defaultString). Its contract gives the default at size 0, "" for a non-empty all-null collection, and the join otherwise. `SelectList` states it for the select list. |
| `SqlText.SplitJoinStrings` | core/src/qa/qcri/nadeef/core/util/SqlQueryBuilder.java:112-114 | Cutting the joined text at ',' gives back the pieces, in order, when no piece contains ','. |
| `SqlText.SplitJoin` | core/src/qa/qcri/nadeef/core/util/SqlQueryBuilder.java:112-114 | asString(list) lists exactly the non-null members, in iteration order, when at least one member is non-null and none contains ','. |
| `SqlText.JoinAllNull` | core/src/qa/qcri/nadeef/core/util/SqlQueryBuilder.java:112-114 | A collection of nothing but nulls joins to the empty text. |
| `SqlText.NonNullCount` | core/src/qa/qcri/nadeef/core/util/SqlQueryBuilder.java:113 | skipNulls keeps each non-null string exactly as many times as the collection holds it. |
| `SqlText.PiecesOnce` | core/src/qa/qcri/nadeef/core/util/SqlQueryBuilder.java:17-20 | In a duplicate-free collection, each non-null member is exactly one of the joined pieces, and a string that is not a member is none of them. |
| `SqlText.PiecesOrderIndependent` | core/src/qa/qcri/nadeef/core/util/SqlQueryBuilder.java:112-114 | Two duplicate-free orderings of the same members give the same pieces up to order, so HashSet's iteration order changes only the order of the pieces. |
| `QueryBuilder.EmptyQuery` | core/src/qa/qcri/nadeef/core/util/SqlQueryBuilder.java:28-33 | A fresh state has four empty, duplicate-free collections and the flag false. |
| `QueryBuilder.OptionalClause` | core/src/qa/qcri/nadeef/core/util/SqlQueryBuilder.java:90-98 | Definition of the guarded WHERE / ORDER BY append. Its contract gives "" for an empty collection, and otherwise the keyword followed by the join. `OptionalClausePresence` adds the if-and-only-if. |
| `QueryBuilder.Render` | core/src/qa/qcri/nadeef/core/util/SqlQueryBuilder.java:81-101 | Definition of the text toSQLString returns. Its contract says the text starts with "SELECT ". `ToSqlString` is proved equal to it, and `FreshRender`, `RenderPrefix`, `TrailingClauses` and `EmptyFromRender` pin it down. |
| `QueryBuilder.FreshRender` | core/src/qa/qcri/nadeef/core/util/SqlQueryBuilder.java:81-101 | A fresh builder renders exactly "SELECT * FROM ". |
| `QueryBuilder.SelectList` | core/src/qa/qcri/nadeef/core/util/SqlQueryBuilder.java:105-110 | The select list is "*" when the collection has size 0. It is "" when the collection is non-empty and all its members are null. Otherwise it splits back into exactly the non-null members. |
| `QueryBuilder.OptionalClausePresence` | core/src/qa/qcri/nadeef/core/util/SqlQueryBuilder.java:90-98 | A WHERE or ORDER BY clause is empty exactly when its collection is empty. When present, it is the keyword followed by the joined members. |
| `QueryBuilder.RenderPrefix` | core/src/qa/qcri/nadeef/core/util/SqlQueryBuilder.java:82-88 | Every query starts with "SELECT ". With the flag set it starts with "SELECT  DISTINCT ". With the flag clear and no selects it starts with "SELECT * FROM ". |
| `QueryBuilder.EmptyFromRender` | core/src/qa/qcri/nadeef/core/util/SqlQueryBuilder.java:88-89 | With no tables, the text before the optional clauses ends in " FROM " whatever the other collections hold. With no predicates or orders either, the whole text ends there. An empty FROM list is rendered, not rejected. |
| `QueryBuilder.TrailingClauses` | core/src/qa/qcri/nadeef/core/util/SqlQueryBuilder.java:88-98 | The query is the text rendered without WHERE and ORDER BY, followed by the WHERE clause and then the ORDER BY clause. |
| `QueryBuilder.NullSelectRender` | core/src/qa/qcri/nadeef/core/util/SqlQueryBuilder.java:37-40 | A fresh builder after a null select renders "SELECT  FROM ": the select list is empty, not "*". |
| `QueryBuilder.AddedTwiceListedOnce` | core/src/qa/qcri/nadeef/core/util/SqlQueryBuilder.java:57-60 | A fragment added twice to a collection appears exactly once among the comma-separated pieces of its rendered clause. |
| `QueryBuilder.AddPresentRendersSame` | core/src/qa/qcri/nadeef/core/util/SqlQueryBuilder.java:37-75 | Adding a fragment already present to any of the four collections leaves the rendered query unchanged. |
| `QueryBuilder.SqlQueryBuilder.constructor` | core/src/qa/qcri/nadeef/core/util/SqlQueryBuilder.java:28-33 | The state is the empty query, and it renders "SELECT * FROM ". |
| `QueryBuilder.SqlQueryBuilder.AddSelect` | core/src/qa/qcri/nadeef/core/util/SqlQueryBuilder.java:37-40 | Never throws, even for null. Only `selects` changes, and it becomes the old selects plus the fragment. |
| `QueryBuilder.SqlQueryBuilder.AddSelectList` | core/src/qa/qcri/nadeef/core/util/SqlQueryBuilder.java:42-45 | A null list throws and changes nothing. Otherwise only `selects` changes, and it becomes the old selects plus the list's elements, nulls included. |
| `QueryBuilder.SqlQueryBuilder.AddOrderList` | core/src/qa/qcri/nadeef/core/util/SqlQueryBuilder.java:47-50 | A null list throws and changes nothing. Otherwise only `orders` changes, and it becomes the old orders plus the list's elements. |
| `QueryBuilder.SqlQueryBuilder.AddOrder` | core/src/qa/qcri/nadeef/core/util/SqlQueryBuilder.java:52-55 | A null fragment throws and changes nothing. Otherwise only `orders` changes, and it becomes the old orders plus the fragment. |
| `QueryBuilder.SqlQueryBuilder.AddWhere` | core/src/qa/qcri/nadeef/core/util/SqlQueryBuilder.java:57-60 | A null fragment throws and changes nothing. Otherwise only `wheres` changes, and it becomes the old wheres plus the fragment. |
| `QueryBuilder.SqlQueryBuilder.AddWhereList` | core/src/qa/qcri/nadeef/core/util/SqlQueryBuilder.java:62-65 | A null list throws and changes nothing. Otherwise only `wheres` changes, and it becomes the old wheres plus the list's elements. |
| `QueryBuilder.SqlQueryBuilder.AddFrom` | core/src/qa/qcri/nadeef/core/util/SqlQueryBuilder.java:67-70 | A null fragment throws and changes nothing. Otherwise only `froms` changes, and it becomes the old froms plus the fragment. |
| `QueryBuilder.SqlQueryBuilder.AddFromList` | core/src/qa/qcri/nadeef/core/util/SqlQueryBuilder.java:72-75 | A null list throws and changes nothing. Otherwise only `froms` changes, and it becomes the old froms plus the list's elements. |
| `QueryBuilder.SqlQueryBuilder.SetDistinct` | core/src/qa/qcri/nadeef/core/util/SqlQueryBuilder.java:77-79 | Only the flag changes, and it takes the given value. |
| `QueryBuilder.SqlQueryBuilder.ToSqlString` | core/src/qa/qcri/nadeef/core/util/SqlQueryBuilder.java:81-101 | The step-by-step build equals Render of the current state, and the builder is not modified. |

## Left out

- service/src/qa/qcri/nadeef/service/NadeefServiceHandler.java is not part of this model. It is RPC plumbing over collaborators whose code is not available: Thrift transport, file writes and an external compiler, reflective class loading, schema lookup, the rule-builder registry and the job scheduler.
- Thread safety: the builder uses plain `HashSet`s and is modelled sequentially.
- HashSet iteration order: the model fixes insertion order. Only `PiecesOrderIndependent` compares two orderings.
- Java strings are modelled as `seq<char>`. UTF-16 details play no part in the builder's logic.
- The rendered query is not parsed back as a whole. Fragments are arbitrary text and may themselves contain keywords or commas. The round-trip facts are stated per clause, for fragments without `,`.
