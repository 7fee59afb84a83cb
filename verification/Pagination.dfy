/** Cursor pagination: each page asks for the records strictly after the last one seen, newest first. */
module Pagination {
  import opened Lib
  import opened Datetimes
  import opened Values
  import opened SqlFilter
  import opened SqlBinding
  import opened SqlMatcher
  import opened SqlGrammar
  import opened SqlText
  import opened Collation
  import E = SqlEval
  import T = SqlTheorems

  type Doc = map<string, Value>

  /** The field a listing is sorted by, and the unique field that breaks ties. */
  datatype Order = Order(sortField: string, tieField: string)

  /** What a cursor carries. */
  datatype Key = Key(at: Stamp, tie: string)

  predicate Keyed(d: Doc, o: Order) {
    Get(d, o.sortField).Time? && Get(d, o.tieField).Text?
  }

  /** `encode`: the record's sort value and tie-breaker. */
  function KeyOf(d: Doc, o: Order): Key
    requires Keyed(d, o)
  {
    Key(Get(d, o.sortField).t, Get(d, o.tieField).s)
  }

  predicate Older(a: Key, b: Key) {
    Instant(a.at) < Instant(b.at) || (a.at == b.at && TextLess(a.tie, b.tie))
  }

  lemma OlderIsTotal(a: Key, b: Key)
    ensures Older(a, b) || a == b || Older(b, a)
    ensures !(Older(a, b) && Older(b, a)) && !Older(a, a)
  {
    CivilOrderIsInstantOrder(a.at, b.at);
    CivilOrderIsInstantOrder(b.at, a.at);
    TextLessTrichotomy(a.tie, b.tie);
    TextLessIrreflexive(a.tie);
  }

  lemma OlderIsTransitive(a: Key, b: Key, c: Key)
    requires Older(a, b) && Older(b, c)
    ensures Older(a, c)
  {
    if a.at == b.at == c.at {
      TextLessTransitive(a.tie, b.tie, c.tie);
    }
  }

  // ---- the filter ------------------------------------------------------------------------------------------------

  /** `after(cursor, sort_field, tie_field)` */
  function AfterFilter(cursor: Key, o: Order): Filter {
    Filter([Any([
      Filter([Braces(o.sortField, [("$lt", Time(cursor.at))])]),
      Filter([Equal(o.sortField, Time(cursor.at)), Braces(o.tieField, [("$lt", Text(cursor.tie))])])])])
  }

  lemma MatchLess(d: Doc, name: string, e: Value)
    requires PyLess(Get(d, name), e).Some?
    ensures MatchClause(d, Braces(name, [("$lt", e)])) == Holds(PyLess(Get(d, name), e).value)
  {
    hide Get, Find;
    var spec := [("$lt", e)];
    assert spec[0] in spec && StartsWithDollar(spec[0].0);
    assert spec[1..] == [];
    assert MatchOperators(d, name, []) == Holds(true);
    assert !Get(d, name).Nil?;
  }

  lemma TwoClauses(d: Doc, a: Clause, b: Clause)
    requires MatchClause(d, a).Holds?
    ensures MatchFilter(d, Filter([a, b])) == if MatchClause(d, a).b then MatchClause(d, b) else Holds(false)
  {
    assert [a, b][1..] == [b];
    OneClause(d, b);
  }

  /** The cursor's filter accepts exactly the records that come after it. */
  lemma AfterMeansOlder(d: Doc, cursor: Key, o: Order)
    requires Keyed(d, o)
    ensures MatchFilter(d, AfterFilter(cursor, o)) == Holds(Older(KeyOf(d, o), cursor))
  {
    hide MatchFilter, MatchClause, MatchAny, Get, Find;
    var at, tie := Get(d, o.sortField), Get(d, o.tieField);
    var first := Braces(o.sortField, [("$lt", Time(cursor.at))]);
    var same, second := Equal(o.sortField, Time(cursor.at)), Braces(o.tieField, [("$lt", Text(cursor.tie))]);
    MatchLess(d, o.sortField, Time(cursor.at));
    MatchLess(d, o.tieField, Text(cursor.tie));
    EqualTime(d, o.sortField, cursor.at);
    OneClause(d, first);
    TwoClauses(d, same, second);
    TwoParts(d, Filter([first]), Filter([same, second]));
    OneClause(d, Any([Filter([first]), Filter([same, second])]));
    AnyIsMatchAny(d, [Filter([first]), Filter([same, second])]);
  }

  lemma EqualTime(d: Doc, name: string, t: Stamp)
    requires Get(d, name).Time?
    ensures MatchClause(d, Equal(name, Time(t))) == Holds(Get(d, name).t == t)
  {
  }

  /** The listing's own filter and the cursor's, joined. */
  function PageFilter(filters: Filter, cursor: Option<Key>, o: Order): Filter {
    if cursor.Some? then Filter([All([filters, AfterFilter(cursor.value, o)])]) else filters
  }

  predicate Accepts(d: Doc, f: Filter) {
    MatchFilter(d, f) == Holds(true)
  }

  predicate Before(d: Doc, cursor: Option<Key>, o: Order)
    requires Keyed(d, o)
  {
    cursor.Some? ==> Older(KeyOf(d, o), cursor.value)
  }

  lemma PageFilterMeans(d: Doc, filters: Filter, cursor: Option<Key>, o: Order)
    requires Keyed(d, o) && MatchFilter(d, filters).Holds?
    ensures Accepts(d, PageFilter(filters, cursor, o)) <==> Accepts(d, filters) && Before(d, cursor, o)
  {
    hide MatchFilter, MatchClause, MatchAll, AfterFilter;
    if cursor.Some? {
      AfterMeansOlder(d, cursor.value, o);
      TwoParts(d, filters, AfterFilter(cursor.value, o));
      AnyIsMatchAny(d, [filters, AfterFilter(cursor.value, o)]);
      OneClause(d, All([filters, AfterFilter(cursor.value, o)]));
    }
  }

  // ---- the same filter in SQL ----------------------------------------------------------------------------------

  /** SQL and the matcher agree on what the cursor's filter asks. */
  lemma AfterInDomain(d: Doc, cursor: Key, o: Order)
    requires Keyed(d, o) && ReadsPath(o.sortField) && ReadsPath(o.tieField)
    ensures FilterDomain(d, AfterFilter(cursor, o))
  {
    hide Get, ReadsPath, Split;
    var first := Braces(o.sortField, [("$lt", Time(cursor.at))]);
    var same, second := Equal(o.sortField, Time(cursor.at)), Braces(o.tieField, [("$lt", Text(cursor.tie))]);
    LessInDomain(d, o.sortField, Time(cursor.at));
    LessInDomain(d, o.tieField, Text(cursor.tie));
    assert ClauseDomain(d, same);
    assert FilterDomain(d, Filter([first])) && FilterDomain(d, Filter([same, second]));
    assert ClauseDomain(d, Any([Filter([first]), Filter([same, second])]));
  }

  lemma LessInDomain(d: Doc, name: string, e: Value)
    requires ReadsPath(name) && !Get(d, name).Bool?
    ensures ClauseDomain(d, Braces(name, [("$lt", e)]))
  {
    hide Get, ReadsPath, Split;
    var spec := [("$lt", e)];
    assert spec[0] in spec && StartsWithDollar(spec[0].0);
  }

  lemma PageInDomain(d: Doc, filters: Filter, cursor: Option<Key>, o: Order)
    requires Keyed(d, o) && ReadsPath(o.sortField) && ReadsPath(o.tieField) && FilterDomain(d, filters)
    ensures FilterDomain(d, PageFilter(filters, cursor, o))
  {
    hide AfterFilter;
    if cursor.Some? {
      AfterInDomain(d, cursor.value, o);
      assert ClauseDomain(d, All([filters, AfterFilter(cursor.value, o)]));
    }
  }

  /** A cursor's tie-breaker may hold U+0000; nothing else the page query adds can. */
  lemma PageOperandsBind(filters: Filter, cursor: Option<Key>, o: Order)
    ensures OperandsBind(PageFilter(filters, cursor, o))
       <==> OperandsBind(filters) && (cursor.Some? ==> NulFreeText(cursor.value.tie))
  {
    hide NulFreeText;
    if cursor.Some? {
      AfterBinds(cursor.value, o);
      var after := AfterFilter(cursor.value, o);
      BothBind([filters, after], filters, after);
      AloneBinds(All([filters, after]));
    }
  }

  lemma BothBind(parts: seq<Filter>, f: Filter, g: Filter)
    requires parts == [f, g]
    ensures ClauseBinds(All(parts)) <==> OperandsBind(f) && OperandsBind(g)
    ensures ClauseBinds(Any(parts)) <==> OperandsBind(f) && OperandsBind(g)
  {
    hide OperandsBind;
    assert f in parts && g in parts && forall x | x in parts :: x == f || x == g;
  }

  lemma AloneBinds(c: Clause)
    ensures OperandsBind(Filter([c])) <==> ClauseBinds(c)
  {
    hide ClauseBinds;
    assert c in Filter([c]).clauses;
  }

  lemma PairBinds(c: Clause, d: Clause)
    ensures OperandsBind(Filter([c, d])) <==> ClauseBinds(c) && ClauseBinds(d)
  {
    hide ClauseBinds;
    assert c in Filter([c, d]).clauses && d in Filter([c, d]).clauses;
  }

  lemma LessBinds(name: string, e: Value)
    ensures ClauseBinds(Braces(name, [("$lt", e)])) <==> NulFree(e)
  {
    var spec := [("$lt", e)];
    assert spec[0] in spec && IsOperatorSpec(spec);
  }

  lemma AfterBinds(cursor: Key, o: Order)
    ensures OperandsBind(AfterFilter(cursor, o)) <==> NulFreeText(cursor.tie)
  {
    hide OperandsBind, NulFreeText;
    var first := Braces(o.sortField, [("$lt", Time(cursor.at))]);
    var same, second := Equal(o.sortField, Time(cursor.at)), Braces(o.tieField, [("$lt", Text(cursor.tie))]);
    LessBinds(o.sortField, Time(cursor.at));
    LessBinds(o.tieField, Text(cursor.tie));
    AloneBinds(first);
    PairBinds(same, second);
    var parts := [Filter([first]), Filter([same, second])];
    BothBind(parts, parts[0], parts[1]);
    AloneBinds(Any(parts));
  }

  /** The page query's text, run as SQL over the stored record, is TRUE exactly for the listing's records that come
      after the cursor, provided that neither the listing's operands, nor the cursor's tie-breaker, nor what is
      bound after them holds U+0000, and that the parameters are not too many; else it is never TRUE. */
  lemma PageQuerySelects(d: Doc, filters: Filter, cursor: Option<Key>, o: Order, c: Compiled<Expr>, after: seq<E.Bound>)
    requires Keyed(d, o) && ReadsPath(o.sortField) && ReadsPath(o.tieField)
    requires FilterDomain(d, filters) && MatchFilter(d, filters).Holds?
    requires CompileFilter(PageFilter(filters, cursor, o), 1) == Ok(c)
    ensures ReadSql(Render(TextOf(c))).Some?
    ensures E.Run(ReadSql(Render(TextOf(c))).value, T.Statement(d, [], c, after)) == E.B(true)
       <==> Accepts(d, filters) && Before(d, cursor, o)
            && OperandsBind(filters) && (cursor.Some? ==> NulFreeText(cursor.value.tie))
            && E.AllBind(after) && |c.params| + |after| <= E.MAX_PARAMS
  {
    hide MatchFilter, FilterDomain, CompileFilter, ReadSql, Render, E.Run, Keyed, ReadsPath, PageFilter, OperandsBind;
    PageOperandsBind(filters, cursor, o);
    PageInDomain(d, filters, cursor, o);
    PageFilterMeans(d, filters, cursor, o);
    PageFilterHolds(d, filters, cursor, o);
    T.WhereMeansMatch(d, PageFilter(filters, cursor, o), [], c, after);
  }

  lemma PageFilterHolds(d: Doc, filters: Filter, cursor: Option<Key>, o: Order)
    requires Keyed(d, o) && MatchFilter(d, filters).Holds?
    ensures MatchFilter(d, PageFilter(filters, cursor, o)).Holds?
  {
    hide MatchFilter, MatchClause, MatchAll, AfterFilter;
    if cursor.Some? {
      AfterMeansOlder(d, cursor.value, o);
      TwoParts(d, filters, AfterFilter(cursor.value, o));
      AnyIsMatchAny(d, [filters, AfterFilter(cursor.value, o)]);
      OneClause(d, All([filters, AfterFilter(cursor.value, o)]));
    }
  }

  // ---- snapshots and pages -----------------------------------------------------------------------------------------

  /** A collection at one moment: keyed records, no two with one key, and a filter that applies to each. */
  predicate IsSnapshot(docs: set<Doc>, filters: Filter, o: Order) {
    && (forall d | d in docs :: Keyed(d, o) && MatchFilter(d, filters).Holds?)
    && (forall d, e | d in docs && e in docs && KeyOf(d, o) == KeyOf(e, o) :: d == e)
  }

  predicate IsOrdered(docs: set<Doc>, o: Order) {
    && (forall d | d in docs :: Keyed(d, o))
    && (forall d, e | d in docs && e in docs && KeyOf(d, o) == KeyOf(e, o) :: d == e)
  }

  predicate Newest(d: Doc, docs: set<Doc>, o: Order)
    requires IsOrdered(docs, o)
  {
    d in docs && forall e | e in docs && e != d :: Older(KeyOf(e, o), KeyOf(d, o))
  }

  lemma {:induction false} NewestExists(docs: set<Doc>, o: Order)
    requires docs != {} && IsOrdered(docs, o)
    ensures exists d :: Newest(d, docs, o)
  {
    hide Older, KeyOf, Keyed;
    var x :| x in docs;
    if docs == {x} {
      assert Newest(x, docs, o);
    } else {
      var rest := docs - {x};
      assert docs == rest + {x};
      NewestExists(rest, o);
      var m :| Newest(m, rest, o);
      OlderIsTotal(KeyOf(x, o), KeyOf(m, o));
      if Older(KeyOf(m, o), KeyOf(x, o)) {
        forall e | e in rest
          ensures Older(KeyOf(e, o), KeyOf(x, o))
        {
          if e != m {
            OlderIsTransitive(KeyOf(e, o), KeyOf(m, o), KeyOf(x, o));
          }
        }
        assert Newest(x, docs, o);
      } else {
        assert Newest(m, docs, o);
      }
    }
  }

  ghost function NewestOf(docs: set<Doc>, o: Order): (d: Doc)
    requires docs != {} && IsOrdered(docs, o)
    ensures Newest(d, docs, o)
  {
    NewestExists(docs, o);
    var d :| Newest(d, docs, o);
    d
  }

  lemma PrependNewest(d: Doc, rest: seq<Doc>, docs: set<Doc>, o: Order)
    requires IsOrdered(docs, o) && Newest(d, docs, o) && Descending(rest, o)
    requires forall e :: e in rest <==> e in docs - {d}
    ensures Descending([d] + rest, o)
  {
    hide Keyed, KeyOf, Older;
    assert forall i | 0 <= i < |rest| :: rest[i] in rest;
  }

  /** Strictly newest first. */
  predicate Descending(rows: seq<Doc>, o: Order) {
    && (forall i | 0 <= i < |rows| :: Keyed(rows[i], o))
    && (forall i, j | 0 <= i < j < |rows| :: Older(KeyOf(rows[j], o), KeyOf(rows[i], o)))
  }

  /** The records in `ORDER BY sort DESC, tie DESC` order. */
  ghost function NewestFirst(docs: set<Doc>, o: Order): (rows: seq<Doc>)
    requires IsOrdered(docs, o)
    ensures forall d :: d in rows <==> d in docs
    ensures Descending(rows, o)
  {
    if docs == {} then []
    else
      var d := NewestOf(docs, o);
      var rest := NewestFirst(docs - {d}, o);
      PrependNewest(d, rest, docs, o);
      [d] + rest
  }

  /** A descending listing is determined by its records. */
  lemma {:induction false} DescendingIsUnique(a: seq<Doc>, b: seq<Doc>, o: Order)
    requires Descending(a, o) && Descending(b, o) && forall d :: d in a <==> d in b
    ensures a == b
  {
    if a == [] {
      assert forall i | 0 <= i < |b| :: b[i] in b;
    } else {
      assert a[0] in b;
      FirstIsNewest(a, b, o);
      FirstIsNewest(b, a, o);
      OlderIsTotal(KeyOf(a[0], o), KeyOf(b[0], o));
      RestIsTheSame(a, b, o);
      RestIsTheSame(b, a, o);
      DescendingIsUnique(a[1..], b[1..], o);
      assert a == [a[0]] + a[1..] && b == [b[0]] + b[1..];
    }
  }

  lemma FirstIsNewest(a: seq<Doc>, b: seq<Doc>, o: Order)
    requires a != [] && b != [] && Descending(b, o) && a[0] in b && Keyed(a[0], o)
    ensures a[0] == b[0] || Older(KeyOf(a[0], o), KeyOf(b[0], o))
  {
  }

  lemma RestIsTheSame(a: seq<Doc>, b: seq<Doc>, o: Order)
    requires a != [] && b != [] && Descending(a, o) && Descending(b, o)
    requires (forall d :: d in a <==> d in b) && a[0] == b[0]
    ensures Descending(a[1..], o) && forall d | d in a[1..] :: d in b[1..]
  {
    forall d | d in a[1..]
      ensures d in b[1..]
    {
      var i :| 0 < i < |a| && a[i] == d;
      OlderIsTotal(KeyOf(a[0], o), KeyOf(d, o));
      assert d in b && d != b[0];
      assert b == [b[0]] + b[1..];
    }
  }

  // ---- sorting in the database -------------------------------------------------------------------------------------

  /** `a` sorts after `b` in `ORDER BY sort DESC, tie DESC`: JSONB text sorts under the database's collation. */
  predicate SortsAfter(c: Collation, a: Key, b: Key) {
    Collates(c, Encode(a.at), Encode(b.at)) || (Encode(a.at) == Encode(b.at) && Collates(c, a.tie, b.tie))
  }

  /** The tie-breakers are of one shape, as UUIDs are. */
  predicate OneShape(docs: set<Doc>, o: Order)
    requires IsOrdered(docs, o)
  {
    forall d, e | d in docs && e in docs :: SameShape(KeyOf(d, o).tie, KeyOf(e, o).tie)
  }

  /** The records, each once, none before one it sorts after. */
  ghost predicate IsOrderBy(rows: seq<Doc>, docs: set<Doc>, c: Collation, o: Order)
    requires IsOrdered(docs, o)
  {
    && (forall d :: d in rows <==> d in docs)
    && (forall i, j | 0 <= i < j < |rows| :: rows[i] != rows[j])
    && (forall i, j | 0 <= i < j < |rows| :: !SortsAfter(c, KeyOf(rows[i], o), KeyOf(rows[j], o)))
  }

  lemma SortsAfterIsOlder(c: Collation, a: Key, b: Key)
    requires OrdersHex(c) && SameShape(a.tie, b.tie)
    ensures SortsAfter(c, a, b) <==> Older(a, b)
  {
    hide OrdersHex, SameShape, Encode, Instant;
    EncodingsCollate(c, a.at, b.at);
    TextOrderIsInstantOrder(a.at, b.at);
    OneShapeCollates(c, a.tie, b.tie);
  }

  /** Whatever the collation of the database, as long as it puts digits before letters and both in order, the rows it
      sorts are the newest-first listing, if the tie-breakers are of one shape. */
  lemma OrderByIsNewestFirst(rows: seq<Doc>, docs: set<Doc>, c: Collation, o: Order)
    requires IsOrdered(docs, o) && OneShape(docs, o) && OrdersHex(c) && IsOrderBy(rows, docs, c, o)
    ensures rows == NewestFirst(docs, o)
  {
    hide Keyed, KeyOf, Older, SortsAfter, OrdersHex, SameShape, NewestFirst;
    forall i, j | 0 <= i < j < |rows|
      ensures Older(KeyOf(rows[j], o), KeyOf(rows[i], o))
    {
      assert rows[i] in docs && rows[j] in docs;
      SortsAfterIsOlder(c, KeyOf(rows[i], o), KeyOf(rows[j], o));
      OlderIsTotal(KeyOf(rows[i], o), KeyOf(rows[j], o));
    }
    assert forall i | 0 <= i < |rows| :: rows[i] in docs;
    DescendingIsUnique(rows, NewestFirst(docs, o), o);
  }

  function Min(a: nat, b: nat): nat {
    if a <= b then a else b
  }

  datatype Page = Page(rows: seq<Doc>, next: Option<Key>)

  /** The records a page query selects. */
  ghost function Selected(docs: set<Doc>, filters: Filter, cursor: Option<Key>, o: Order): set<Doc> {
    set d | d in docs && Accepts(d, PageFilter(filters, cursor, o))
  }

  /** `get_user_files` from a cursor: one row more than the page is fetched, and says whether a next page exists. */
  ghost function PageOf(docs: set<Doc>, filters: Filter, cursor: Option<Key>, limit: nat, o: Order): Page
    requires IsSnapshot(docs, filters, o) && limit >= 1
  {
    var all := NewestFirst(Selected(docs, filters, cursor, o), o);
    var rows := all[..Min(limit + 1, |all|)];
    var page := rows[..Min(limit, |rows|)];
    Page(page, if |rows| > limit then Some(KeyOf(page[|page| - 1], o)) else None)
  }

  // ---- following the cursors --------------------------------------------------------------------------------------

  datatype Listing = Listing(rows: seq<Doc>, finished: bool)

  predicate AreSnapshots(snapshots: seq<set<Doc>>, filters: Filter, o: Order) {
    forall i | 0 <= i < |snapshots| :: IsSnapshot(snapshots[i], filters, o)
  }

  /** Page after page, each read from whatever the collection holds by then. */
  ghost function Follow(snapshots: seq<set<Doc>>, filters: Filter, cursor: Option<Key>, limit: nat, o: Order): Listing
    requires AreSnapshots(snapshots, filters, o) && limit >= 1
  {
    if snapshots == [] then Listing([], false)
    else
      var page := PageOf(snapshots[0], filters, cursor, limit, o);
      if page.next.None? then Listing(page.rows, true)
      else
        var rest := Follow(snapshots[1..], filters, page.next, limit, o);
        Listing(page.rows + rest.rows, rest.finished)
  }

  predicate AllBefore(rows: seq<Doc>, cursor: Option<Key>, o: Order) {
    forall i | 0 <= i < |rows| :: Keyed(rows[i], o) && Before(rows[i], cursor, o)
  }

  lemma SelectedAre(docs: set<Doc>, filters: Filter, cursor: Option<Key>, o: Order)
    requires IsSnapshot(docs, filters, o)
    ensures var picked := Selected(docs, filters, cursor, o);
      && IsOrdered(picked, o)
      && (forall d :: d in picked <==> d in docs && Accepts(d, filters) && Before(d, cursor, o))
  {
    hide Accepts, PageFilter, Before, Keyed, KeyOf;
    forall d | d in docs
      ensures Accepts(d, PageFilter(filters, cursor, o)) <==> Accepts(d, filters) && Before(d, cursor, o)
    {
      PageFilterMeans(d, filters, cursor, o);
    }
  }

  /** The snapshot's full listing: all of it lies before the cursor. */
  lemma ListingIsBefore(docs: set<Doc>, filters: Filter, cursor: Option<Key>, o: Order)
    requires IsSnapshot(docs, filters, o) && IsOrdered(Selected(docs, filters, cursor, o), o)
    ensures AllBefore(NewestFirst(Selected(docs, filters, cursor, o), o), cursor, o)
  {
    hide Accepts, Before, Keyed, KeyOf, Older, Selected, NewestFirst, IsSnapshot, Descending, PageFilter;
    SelectedAre(docs, filters, cursor, o);
    var all := NewestFirst(Selected(docs, filters, cursor, o), o);
    forall i | 0 <= i < |all|
      ensures Keyed(all[i], o) && Before(all[i], cursor, o)
    {
      assert all[i] in all;
    }
  }

  lemma DescendingPrefix(rows: seq<Doc>, to: nat, o: Order)
    requires Descending(rows, o) && to <= |rows|
    ensures Descending(rows[..to], o)
  {
    hide Keyed, KeyOf, Older;
  }

  /** Where a page stands in its snapshot's full listing. */
  lemma PageIsPrefix(docs: set<Doc>, filters: Filter, cursor: Option<Key>, limit: nat, o: Order)
    requires IsSnapshot(docs, filters, o) && limit >= 1
    ensures IsOrdered(Selected(docs, filters, cursor, o), o)
    ensures var all := NewestFirst(Selected(docs, filters, cursor, o), o);
      var page := PageOf(docs, filters, cursor, limit, o);
      && page.rows == all[..Min(limit, |all|)] && Descending(page.rows, o) && AllBefore(page.rows, cursor, o)
      && (page.next.Some? <==> |all| > limit)
      && (page.next.Some? ==> page.next.value == KeyOf(all[limit - 1], o))
  {
    hide Accepts, Before, Keyed, KeyOf, Older, Selected, NewestFirst, IsSnapshot, PageFilter, Descending;
    SelectedAre(docs, filters, cursor, o);
    ListingIsBefore(docs, filters, cursor, o);
    var all := NewestFirst(Selected(docs, filters, cursor, o), o);
    assert all[..Min(limit + 1, |all|)][..Min(limit, |all|)] == all[..Min(limit, |all|)];
    DescendingPrefix(all, Min(limit, |all|), o);
  }

  lemma DescendingConcat(a: seq<Doc>, b: seq<Doc>, o: Order)
    requires a != [] && Descending(a, o) && Descending(b, o)
    requires AllBefore(b, Some(KeyOf(a[|a| - 1], o)), o)
    ensures Descending(a + b, o)
  {
    hide Keyed, KeyOf, Older;
    var all := a + b;
    forall i, j | 0 <= i < j < |all|
      ensures Older(KeyOf(all[j], o), KeyOf(all[i], o))
    {
      if i < |a| <= j {
        var last := a[|a| - 1];
        assert Before(b[j - |a|], Some(KeyOf(last, o)), o);
        if i < |a| - 1 {
          OlderIsTransitive(KeyOf(all[j], o), KeyOf(last, o), KeyOf(all[i], o));
        }
      }
    }
  }

  lemma BeforeTheCursor(a: seq<Doc>, b: seq<Doc>, cursor: Option<Key>, o: Order)
    requires a != [] && AllBefore(a, cursor, o) && AllBefore(b, Some(KeyOf(a[|a| - 1], o)), o)
    ensures AllBefore(a + b, cursor, o)
  {
    hide KeyOf, Older, Keyed;
    forall i | 0 <= i < |b|
      ensures Before(b[i], cursor, o)
    {
      if cursor.Some? {
        OlderIsTransitive(KeyOf(b[i], o), KeyOf(a[|a| - 1], o), cursor.value);
      }
    }
  }

  /** No record is listed twice and the order never breaks, whatever is inserted or deleted between pages. */
  lemma {:induction false} NothingRepeats(snapshots: seq<set<Doc>>, filters: Filter, cursor: Option<Key>,
                                          limit: nat, o: Order)
    requires AreSnapshots(snapshots, filters, o) && limit >= 1
    ensures Descending(Follow(snapshots, filters, cursor, limit, o).rows, o)
    ensures AllBefore(Follow(snapshots, filters, cursor, limit, o).rows, cursor, o)
  {
    hide IsSnapshot, Descending, PageOf, Keyed, Older, KeyOf;
    if snapshots == [] {
      NothingDescends(o);
    } else {
      var page := PageOf(snapshots[0], filters, cursor, limit, o);
      PageIsPrefix(snapshots[0], filters, cursor, limit, o);
      if page.next.Some? {
        NothingRepeats(snapshots[1..], filters, page.next, limit, o);
        var rest := Follow(snapshots[1..], filters, page.next, limit, o).rows;
        DescendingConcat(page.rows, rest, o);
        BeforeTheCursor(page.rows, rest, cursor, o);
      }
    }
  }

  lemma NothingDescends(o: Order)
    ensures Descending([], o)
  {
  }

  /** A record with this key is in the collection and passes the filter. */
  ghost predicate Present(docs: set<Doc>, filters: Filter, key: Key, o: Order) {
    exists d :: d in docs && Accepts(d, filters) && Keyed(d, o) && KeyOf(d, o) == key
  }

  predicate Lists(rows: seq<Doc>, key: Key, o: Order) {
    exists i | 0 <= i < |rows| :: Keyed(rows[i], o) && KeyOf(rows[i], o) == key
  }

  lemma ListedOrAfterwards(docs: set<Doc>, filters: Filter, cursor: Option<Key>, limit: nat, o: Order, key: Key)
    requires IsSnapshot(docs, filters, o) && limit >= 1
    requires Present(docs, filters, key, o) && (cursor.Some? ==> Older(key, cursor.value))
    ensures var page := PageOf(docs, filters, cursor, limit, o);
      Lists(page.rows, key, o) || (page.next.Some? && Older(key, page.next.value))
  {
    hide Accepts, KeyOf, Older, Selected, IsSnapshot, PageOf, Keyed;
    SelectedAre(docs, filters, cursor, o);
    PageIsPrefix(docs, filters, cursor, limit, o);
    var all, page := NewestFirst(Selected(docs, filters, cursor, o), o), PageOf(docs, filters, cursor, limit, o);
    var d :| d in docs && Accepts(d, filters) && Keyed(d, o) && KeyOf(d, o) == key;
    assert Before(d, cursor, o) && d in all;
    var j :| 0 <= j < |all| && all[j] == d;
    if j < |page.rows| {
      assert page.rows[j] == d;
    } else {
      assert Older(KeyOf(all[j], o), KeyOf(all[limit - 1], o));
    }
  }

  /** Once the last page is reached, every record that was there throughout has been listed. */
  lemma {:induction false} NothingIsMissed(snapshots: seq<set<Doc>>, filters: Filter, cursor: Option<Key>, limit: nat,
                                           o: Order, key: Key)
    requires AreSnapshots(snapshots, filters, o) && limit >= 1
    requires forall i | 0 <= i < |snapshots| :: Present(snapshots[i], filters, key, o)
    requires Follow(snapshots, filters, cursor, limit, o).finished && (cursor.Some? ==> Older(key, cursor.value))
    ensures Lists(Follow(snapshots, filters, cursor, limit, o).rows, key, o)
  {
    hide IsSnapshot, PageOf, KeyOf, Older, Present, Keyed;
    ListedOrAfterwards(snapshots[0], filters, cursor, limit, o, key);
    var page := PageOf(snapshots[0], filters, cursor, limit, o);
    if page.next.Some? {
      var rest := Follow(snapshots[1..], filters, page.next, limit, o).rows;
      if Lists(page.rows, key, o) {
        var i :| 0 <= i < |page.rows| && Keyed(page.rows[i], o) && KeyOf(page.rows[i], o) == key;
        assert (page.rows + rest)[i] == page.rows[i];
      } else {
        NothingIsMissed(snapshots[1..], filters, page.next, limit, o, key);
        var i :| 0 <= i < |rest| && Keyed(rest[i], o) && KeyOf(rest[i], o) == key;
        assert (page.rows + rest)[|page.rows| + i] == rest[i];
      }
    }
  }

  // ---- a collection that does not change ----------------------------------------------------------------------------

  lemma DescendingSlice(rows: seq<Doc>, from: nat, o: Order)
    requires Descending(rows, o) && from <= |rows|
    ensures Descending(rows[from..], o)
  {
    hide Keyed, KeyOf, Older;
  }

  /** What comes after a page is the rest of the listing. */
  lemma RestOfListing(docs: set<Doc>, filters: Filter, cursor: Option<Key>, limit: nat, o: Order)
    requires IsSnapshot(docs, filters, o) && limit >= 1 && PageOf(docs, filters, cursor, limit, o).next.Some?
    ensures IsOrdered(Selected(docs, filters, cursor, o), o)
    ensures var next := PageOf(docs, filters, cursor, limit, o).next;
      && IsOrdered(Selected(docs, filters, next, o), o)
      && var all := NewestFirst(Selected(docs, filters, cursor, o), o);
         limit < |all| && NewestFirst(Selected(docs, filters, next, o), o) == all[limit..]
  {
    hide Accepts, KeyOf, Older, Selected, IsSnapshot, PageOf, Keyed, NewestFirst;
    var next := PageOf(docs, filters, cursor, limit, o).next;
    PageIsPrefix(docs, filters, cursor, limit, o);
    SelectedAre(docs, filters, cursor, o);
    SelectedAre(docs, filters, next, o);
    var all := NewestFirst(Selected(docs, filters, cursor, o), o);
    var later := NewestFirst(Selected(docs, filters, next, o), o);
    forall d
      ensures d in later <==> d in all[limit..]
    {
      SelectedLater(docs, filters, cursor, limit, o, d);
    }
    DescendingSlice(all, limit, o);
    DescendingIsUnique(later, all[limit..], o);
  }

  lemma SelectedLater(docs: set<Doc>, filters: Filter, cursor: Option<Key>, limit: nat, o: Order, d: Doc)
    requires IsSnapshot(docs, filters, o) && limit >= 1 && PageOf(docs, filters, cursor, limit, o).next.Some?
    requires IsOrdered(Selected(docs, filters, cursor, o), o)
    ensures var next := PageOf(docs, filters, cursor, limit, o).next;
      var all := NewestFirst(Selected(docs, filters, cursor, o), o);
      limit < |all| && (d in Selected(docs, filters, next, o) <==> d in all[limit..])
  {
    hide Accepts, KeyOf, Older, Selected, IsSnapshot, PageOf, Keyed, NewestFirst;
    PageIsPrefix(docs, filters, cursor, limit, o);
    var next := PageOf(docs, filters, cursor, limit, o).next;
    SelectedAre(docs, filters, cursor, o);
    SelectedAre(docs, filters, next, o);
    var all := NewestFirst(Selected(docs, filters, cursor, o), o);
    var last := all[limit - 1];
    if d in Selected(docs, filters, next, o) {
      assert Older(KeyOf(d, o), KeyOf(last, o));
      if cursor.Some? {
        assert last in all;
        OlderIsTransitive(KeyOf(d, o), KeyOf(last, o), cursor.value);
      }
      assert d in all;
      var j :| 0 <= j < |all| && all[j] == d;
      OlderIsTotal(KeyOf(d, o), KeyOf(last, o));
      assert j >= limit;
      assert all[limit..][j - limit] == d;
    }
    if d in all[limit..] {
      var j :| limit <= j < |all| && all[j] == d;
      assert Older(KeyOf(d, o), KeyOf(last, o)) && d in all;
    }
  }

  predicate AllAre(snapshots: seq<set<Doc>>, docs: set<Doc>) {
    forall i | 0 <= i < |snapshots| :: snapshots[i] == docs
  }

  /** Following the cursors to the end lists every record exactly once, newest first. */
  lemma {:induction false} StaticListingIsComplete(snapshots: seq<set<Doc>>, docs: set<Doc>, filters: Filter,
                                                   cursor: Option<Key>, limit: nat, o: Order)
    requires IsSnapshot(docs, filters, o) && AreSnapshots(snapshots, filters, o)
    requires limit >= 1 && AllAre(snapshots, docs)
    requires IsOrdered(Selected(docs, filters, cursor, o), o)
    requires |snapshots| > |NewestFirst(Selected(docs, filters, cursor, o), o)|
    ensures Follow(snapshots, filters, cursor, limit, o)
         == Listing(NewestFirst(Selected(docs, filters, cursor, o), o), true)
  {
    hide KeyOf, Older, Selected, IsSnapshot, PageOf, Keyed, NewestFirst;
    var all, page := NewestFirst(Selected(docs, filters, cursor, o), o), PageOf(docs, filters, cursor, limit, o);
    PageIsPrefix(docs, filters, cursor, limit, o);
    if page.next.None? {
      assert all[..|all|] == all;
    } else {
      RestOfListing(docs, filters, cursor, limit, o);
      StaticListingIsComplete(snapshots[1..], docs, filters, page.next, limit, o);
      assert all == all[..limit] + all[limit..];
    }
  }
}
