/**
 * `EnvironmentExtensions.EstablishEnvironment`: bring the store to the
 * declared shape (the database, six tables, and the indexes of five of
 * them) by listing what exists and creating what does not.
 *
 * Each step's effect is given twice: as the create calls it issues (the
 * `*Plan` functions) and as the state it leaves (the `After*` functions).
 */
module EnvironmentExtensions {
  import opened Wrappers
  import opened RethinkStore

  // The `Table` names. Their values are not part of this model; only that they differ matters.
  const Category := "Category"
  const Comment := "Comment"
  const Page := "Page"
  const Post := "Post"
  const User := "User"
  const WebLog := "WebLog"

  /** The tables `CheckTables` ensures, in its order. */
  const Tables := [Category, Comment, Page, Post, User, WebLog]

  /** The tables `CheckIndexes` visits, in its order; WebLog gets no index. */
  const IndexedTables := [Category, Comment, Page, Post, User]

  function Elements(ts: seq<string>): set<string>
  {
    set t | t in ts
  }

  const TableSet := Elements(Tables)

  datatype IndexDecl = IndexDecl(name: string, rule: IndexRule)

  /** The indexes each `Check*Indexes` creates when missing, in its order. */
  function Declared(table: string): seq<IndexDecl>
  {
    if table == Category then
      [IndexDecl("WebLogId", Simple("WebLogId")), IndexDecl("WebLogAndSlug", Compound(["WebLogId", "Slug"]))]
    else if table == Comment then
      [IndexDecl("PostId", Simple("PostId"))]
    else if table == Page then
      [IndexDecl("WebLogId", Simple("WebLogId")), IndexDecl("WebLogAndPermalink", Compound(["WebLogId", "Permalink"]))]
    else if table == Post then
      [IndexDecl("WebLogId", Simple("WebLogId")), IndexDecl("Tags", Multi("Tags"))]
    else if table == User then
      [IndexDecl("EmailAddress", Simple("EmailAddress"))]
    else
      []
  }

  function RulesOf(ds: seq<IndexDecl>): map<string, IndexRule>
  {
    if ds == [] then map[] else RulesOf(ds[..|ds| - 1])[ds[|ds| - 1].name := ds[|ds| - 1].rule]
  }

  /** The declared indexes of `table`, by name. */
  function Catalog(table: string): map<string, IndexRule>
  {
    RulesOf(Declared(table))
  }

  /** `!string.IsNullOrEmpty(database)` */
  predicate Named(database: Option<string>)
  {
    database.Some? && database.value != ""
  }

  // ---- the create calls each step issues, given what it listed ----

  function DatabasePlan(dbs: set<string>, database: Option<string>): seq<Event>
  {
    if Named(database) && database.value !in dbs then [DbCreated(database.value)] else []
  }

  function TablePlan(ts: seq<string>, existing: set<string>): seq<Event>
  {
    if ts == [] then []
    else
      var t := ts[|ts| - 1];
      TablePlan(ts[..|ts| - 1], existing) + (if t !in existing then [TableCreated(t)] else [])
  }

  function CreateMissing(table: string, ds: seq<IndexDecl>, existing: set<string>): seq<Event>
  {
    if ds == [] then []
    else
      var d := ds[|ds| - 1];
      CreateMissing(table, ds[..|ds| - 1], existing) + (if d.name !in existing then [IndexCreated(table, d.name, d.rule)] else [])
  }

  /** The index creations of one table's check, given the index names listed at its start. */
  function IndexPlan(table: string, existing: set<string>): seq<Event>
  {
    CreateMissing(table, Declared(table), existing)
  }

  predicate HasIndexedTables(indexes: map<string, map<string, IndexRule>>)
  {
    forall t :: t in IndexedTables ==> t in indexes
  }

  /** The index creations of `CheckIndexes`. */
  function IndexesPlan(indexes: map<string, map<string, IndexRule>>): seq<Event>
    requires HasIndexedTables(indexes)
  {
    IndexPlan(Category, indexes[Category].Keys)
      + IndexPlan(Comment, indexes[Comment].Keys)
      + IndexPlan(Page, indexes[Page].Keys)
      + IndexPlan(Post, indexes[Post].Keys)
      + IndexPlan(User, indexes[User].Keys)
  }

  // ---- the state each step leaves ----

  function AfterDatabase(s: StoreState, database: Option<string>): StoreState
  {
    s.(dbs := s.dbs + (if Named(database) then {database.value} else {}))
  }

  /** `s` with the tables `ts` added, each new one with an empty index list. */
  function AddTables(s: StoreState, ts: seq<string>): StoreState
  {
    s.(tables := s.tables + Elements(ts),
       indexes := s.indexes + map t | t in Elements(ts) - s.tables :: map[])
  }

  function AfterTables(s: StoreState): StoreState
  {
    AddTables(s, Tables)
  }

  /** `table`'s declared indexes added; an index already there keeps its rule. */
  function AfterIndexCheck(s: StoreState, table: string): StoreState
    requires table in s.indexes
  {
    s.(indexes := s.indexes[table := Catalog(table) + s.indexes[table]])
  }

  function AfterIndexes(s: StoreState): StoreState
    requires HasIndexedTables(s.indexes)
  {
    var s1 := AfterIndexCheck(s, Category);
    var s2 := AfterIndexCheck(s1, Comment);
    var s3 := AfterIndexCheck(s2, Page);
    var s4 := AfterIndexCheck(s3, Post);
    AfterIndexCheck(s4, User)
  }

  lemma AfterTablesHasIndexedTables(s: StoreState)
    requires s.Valid()
    ensures AfterTables(s).Valid() && HasIndexedTables(AfterTables(s).indexes)
  {
    assert Elements(Tables) == {Category, Comment, Page, Post, User, WebLog};
  }

  /** The whole run: database, then tables, then indexes. */
  function Target(s: StoreState, database: Option<string>): StoreState
    requires s.Valid()
  {
    AfterTablesHasIndexedTables(AfterDatabase(s, database));
    AfterIndexes(AfterTables(AfterDatabase(s, database)))
  }

  /** Every create call of the whole run, in order. */
  function Plan(s: StoreState, database: Option<string>): seq<Event>
    requires s.Valid()
  {
    AfterTablesHasIndexedTables(s);
    DatabasePlan(s.dbs, database) + TablePlan(Tables, s.tables) + IndexesPlan(AfterTables(s).indexes)
  }

  // ---- the reconciler ----

  /** `EstablishEnvironment(conn, database)`: the three checks in order. */
  method EstablishEnvironment(conn: Store, database: Option<string>)
    requires conn.Valid()
    modifies conn
    ensures conn.Valid()
    ensures conn.State() == Target(old(conn.State()), database)
    ensures conn.log == old(conn.log) + Plan(old(conn.State()), database)
  {
    ghost var s0, log0 := conn.State(), conn.log;
    CheckDatabase(conn, database);
    ghost var s1, log1 := conn.State(), conn.log;
    CheckTables(conn);
    ghost var s2 := conn.State();
    AfterTablesHasIndexedTables(s1);
    assert s2.indexes == AfterTables(s0).indexes;
    ghost var log2 := conn.log;
    CheckIndexes(conn);
    ghost var dp, tp, ip := DatabasePlan(s0.dbs, database), TablePlan(Tables, s0.tables), IndexesPlan(s2.indexes);
    assert log1 == log0 + dp;
    assert log2 == log1 + tp;
    assert conn.log == log2 + ip;
    assert Plan(s0, database) == dp + tp + ip;
    ConcatAssociates3(log0, dp, tp, ip);
  }

  /** Create the database when it is named and not listed. */
  method CheckDatabase(conn: Store, database: Option<string>)
    requires conn.Valid()
    modifies conn
    ensures conn.Valid()
    ensures conn.State() == AfterDatabase(old(conn.State()), database)
    ensures conn.log == old(conn.log) + DatabasePlan(old(conn.dbs), database)
  {
    if database.Some? && database.value != "" {
      var dbs := conn.DbList();
      if database.value !in dbs {
        conn.DbCreate(database.value);
      }
    }
  }

  lemma AddTablesSnoc(s: StoreState, ts: seq<string>, t: string)
    requires s.Valid()
    ensures AddTables(s, ts + [t]) ==
            if t in s.tables || t in ts then AddTables(s, ts) else AddTables(s, ts).Apply(TableCreated(t))
  {
    var e, e' := Elements(ts), Elements(ts + [t]);
    assert e' == e + {t};
    if t in s.tables || t in ts {
      assert e' - s.tables == e - s.tables;
    } else {
      var m := map x | x in e - s.tables :: map[];
      var m' := map x | x in e' - s.tables :: map[];
      assert m' == m[t := map[]];
      assert s.indexes + m' == (s.indexes + m)[t := map[]];
    }
  }

  lemma TablePlanSnoc(ts: seq<string>, t: string, existing: set<string>)
    ensures TablePlan(ts + [t], existing) == TablePlan(ts, existing) + if t !in existing then [TableCreated(t)] else []
  {
    assert (ts + [t])[..|ts|] == ts;
  }

  lemma SliceSnoc(xs: seq<string>, i: nat)
    requires i < |xs|
    ensures xs[..i + 1] == xs[..i] + [xs[i]]
  {
  }

  lemma TablesDistinct(i: nat)
    requires i < |Tables|
    ensures Tables[i] !in Tables[..i]
  {
  }

  /** Create each of the six tables that the list taken at the start lacks. */
  method CheckTables(conn: Store)
    requires conn.Valid()
    modifies conn
    ensures conn.Valid()
    ensures conn.State() == AfterTables(old(conn.State()))
    ensures conn.log == old(conn.log) + TablePlan(Tables, old(conn.tables))
  {
    var existing := conn.TableList();
    var tables := [Category, Comment, Page, Post, User, WebLog];
    for i := 0 to |tables|
      invariant conn.Valid()
      invariant conn.State() == AddTables(old(conn.State()), tables[..i])
      invariant conn.log == old(conn.log) + TablePlan(tables[..i], existing)
    {
      var table := tables[i];
      SliceSnoc(tables, i);
      AddTablesSnoc(old(conn.State()), tables[..i], table);
      TablePlanSnoc(tables[..i], table, existing);
      if table !in existing {
        TablesDistinct(i);
        conn.TableCreate(table);
      }
    }
    assert tables[..|tables|] == Tables;
  }

  /** `CheckIndexes`: the five per-table checks in order. */
  method CheckIndexes(conn: Store)
    requires conn.Valid() && HasIndexedTables(conn.indexes)
    modifies conn
    ensures conn.Valid()
    ensures conn.State() == AfterIndexes(old(conn.State()))
    ensures conn.log == old(conn.log) + IndexesPlan(old(conn.indexes))
  {
    ghost var s0, log0 := conn.State(), conn.log;
    CheckCategoryIndexes(conn);
    ghost var s1, log1 := conn.State(), conn.log;
    CheckCommentIndexes(conn);
    ghost var s2, log2 := conn.State(), conn.log;
    CheckPageIndexes(conn);
    ghost var s3, log3 := conn.State(), conn.log;
    CheckPostIndexes(conn);
    ghost var s4, log4 := conn.State(), conn.log;
    CheckUserIndexes(conn);
    ChainedChecks(s0, s1, s2, s3, s4, conn.State(), log0, log1, log2, log3, log4, conn.log);
  }

  lemma TableNamesDistinct()
    ensures Category != Comment && Category != Page && Category != Post && Category != User && Category != WebLog
    ensures Comment != Page && Comment != Post && Comment != User && Comment != WebLog
    ensures Page != Post && Page != User && Page != WebLog
    ensures Post != User && Post != WebLog
    ensures User != WebLog
  {
  }

  /** One table's index check leaves every other table's indexes as they were. */
  lemma OtherTablesKept(y: StoreState, table: string)
    requires table in y.indexes
    ensures AfterIndexCheck(y, table).indexes.Keys == y.indexes.Keys
    ensures forall t :: t in y.indexes && t != table ==> AfterIndexCheck(y, table).indexes[t] == y.indexes[t]
  {
  }

  /** The five index checks in a row amount to `AfterIndexes` and `IndexesPlan` of the state before them. */
  lemma ChainedChecks(s0: StoreState, s1: StoreState, s2: StoreState, s3: StoreState, s4: StoreState, s5: StoreState,
                      l0: seq<Event>, l1: seq<Event>, l2: seq<Event>, l3: seq<Event>, l4: seq<Event>, l5: seq<Event>)
    requires HasIndexedTables(s0.indexes)
    requires s1 == AfterIndexCheck(s0, Category) && l1 == l0 + IndexPlan(Category, s0.indexes[Category].Keys)
    requires Comment in s1.indexes
    requires s2 == AfterIndexCheck(s1, Comment) && l2 == l1 + IndexPlan(Comment, s1.indexes[Comment].Keys)
    requires Page in s2.indexes
    requires s3 == AfterIndexCheck(s2, Page) && l3 == l2 + IndexPlan(Page, s2.indexes[Page].Keys)
    requires Post in s3.indexes
    requires s4 == AfterIndexCheck(s3, Post) && l4 == l3 + IndexPlan(Post, s3.indexes[Post].Keys)
    requires User in s4.indexes
    requires s5 == AfterIndexCheck(s4, User) && l5 == l4 + IndexPlan(User, s4.indexes[User].Keys)
    ensures s5 == AfterIndexes(s0)
    ensures l5 == l0 + IndexesPlan(s0.indexes)
  {
    var i0 := s0.indexes;
    TableNamesDistinct();
    OtherTablesKept(s0, Category);
    OtherTablesKept(s1, Comment);
    OtherTablesKept(s2, Page);
    OtherTablesKept(s3, Post);
    ConcatAssociates(l0, IndexPlan(Category, i0[Category].Keys), IndexPlan(Comment, i0[Comment].Keys),
      IndexPlan(Page, i0[Page].Keys), IndexPlan(Post, i0[Post].Keys), IndexPlan(User, i0[User].Keys));
  }

  lemma CheckOfTwo(table: string, d1: IndexDecl, d2: IndexDecl, existing: set<string>)
    requires Declared(table) == [d1, d2]
    ensures Catalog(table) == map[d1.name := d1.rule][d2.name := d2.rule]
    ensures IndexPlan(table, existing) ==
      (if d1.name !in existing then [IndexCreated(table, d1.name, d1.rule)] else []) +
      (if d2.name !in existing then [IndexCreated(table, d2.name, d2.rule)] else [])
  {
    assert [d1, d2][..1] == [d1];
    assert [d1][..0] == [];
    assert RulesOf([d1]) == map[d1.name := d1.rule];
    assert CreateMissing(table, [d1], existing) ==
      if d1.name !in existing then [IndexCreated(table, d1.name, d1.rule)] else [];
  }

  /** Declared indexes merged under an index list `m`: only the names `m` lacks are added. */
  lemma MergeTwo(m: map<string, IndexRule>, n1: string, r1: IndexRule, n2: string, r2: IndexRule)
    requires n1 != n2
    ensures map[n1 := r1][n2 := r2] + m ==
      var m1 := if n1 !in m then m[n1 := r1] else m;
      if n2 !in m then m1[n2 := r2] else m1
  {
  }

  lemma MergeOne(m: map<string, IndexRule>, n: string, r: IndexRule)
    ensures map[n := r] + m == if n !in m then m[n := r] else m
  {
  }

  lemma CheckOfOne(table: string, d: IndexDecl, existing: set<string>)
    requires Declared(table) == [d]
    ensures Catalog(table) == map[d.name := d.rule]
    ensures IndexPlan(table, existing) == if d.name !in existing then [IndexCreated(table, d.name, d.rule)] else []
  {
    assert [d][..0] == [];
    assert CreateMissing(table, [d], existing) == CreateMissing(table, [], existing) +
      (if d.name !in existing then [IndexCreated(table, d.name, d.rule)] else []);
  }

  // Associativity stated as a lemma of its own so that EstablishEnvironment's proof gets it without re-deriving it among its other facts.
  lemma ConcatAssociates3(l: seq<Event>, a: seq<Event>, b: seq<Event>, c: seq<Event>)
    ensures l + a + b + c == l + (a + b + c)
  {
  }

  // Associativity stated as a lemma of its own so that ChainedChecks' proof gets it without re-deriving it among its other facts.
  lemma ConcatAssociates(l: seq<Event>, a: seq<Event>, b: seq<Event>, c: seq<Event>, d: seq<Event>, e: seq<Event>)
    ensures l + a + b + c + d + e == l + (a + b + c + d + e)
  {
  }

  /** `IndexesFor(table)`: the index names of `table`. */
  method IndexesFor(conn: Store, table: string) returns (names: set<string>)
    requires conn.Valid() && table in conn.tables
    ensures names == conn.indexes[table].Keys
  {
    names := conn.IndexList(table);
  }

  method CheckCategoryIndexes(conn: Store)
    requires conn.Valid() && Category in conn.tables
    modifies conn
    ensures conn.Valid()
    ensures conn.State() == AfterIndexCheck(old(conn.State()), Category)
    ensures conn.log == old(conn.log) + IndexPlan(Category, old(conn.indexes)[Category].Keys)
  {
    var indexes := IndexesFor(conn, Category);
    CheckOfTwo(Category, IndexDecl("WebLogId", Simple("WebLogId")), IndexDecl("WebLogAndSlug", Compound(["WebLogId", "Slug"])), indexes);
    MergeTwo(old(conn.indexes)[Category], "WebLogId", Simple("WebLogId"), "WebLogAndSlug", Compound(["WebLogId", "Slug"]));
    if "WebLogId" !in indexes {
      conn.IndexCreate(Category, "WebLogId", Simple("WebLogId"));
    }
    if "WebLogAndSlug" !in indexes {
      conn.IndexCreate(Category, "WebLogAndSlug", Compound(["WebLogId", "Slug"]));
    }
  }

  method CheckCommentIndexes(conn: Store)
    requires conn.Valid() && Comment in conn.tables
    modifies conn
    ensures conn.Valid()
    ensures conn.State() == AfterIndexCheck(old(conn.State()), Comment)
    ensures conn.log == old(conn.log) + IndexPlan(Comment, old(conn.indexes)[Comment].Keys)
  {
    var indexes := IndexesFor(conn, Comment);
    CheckOfOne(Comment, IndexDecl("PostId", Simple("PostId")), indexes);
    MergeOne(old(conn.indexes)[Comment], "PostId", Simple("PostId"));
    if "PostId" !in indexes {
      conn.IndexCreate(Comment, "PostId", Simple("PostId"));
    }
  }

  method CheckPageIndexes(conn: Store)
    requires conn.Valid() && Page in conn.tables
    modifies conn
    ensures conn.Valid()
    ensures conn.State() == AfterIndexCheck(old(conn.State()), Page)
    ensures conn.log == old(conn.log) + IndexPlan(Page, old(conn.indexes)[Page].Keys)
  {
    var indexes := IndexesFor(conn, Page);
    CheckOfTwo(Page, IndexDecl("WebLogId", Simple("WebLogId")), IndexDecl("WebLogAndPermalink", Compound(["WebLogId", "Permalink"])), indexes);
    MergeTwo(old(conn.indexes)[Page], "WebLogId", Simple("WebLogId"), "WebLogAndPermalink", Compound(["WebLogId", "Permalink"]));
    if "WebLogId" !in indexes {
      conn.IndexCreate(Page, "WebLogId", Simple("WebLogId"));
    }
    if "WebLogAndPermalink" !in indexes {
      conn.IndexCreate(Page, "WebLogAndPermalink", Compound(["WebLogId", "Permalink"]));
    }
  }

  method CheckPostIndexes(conn: Store)
    requires conn.Valid() && Post in conn.tables
    modifies conn
    ensures conn.Valid()
    ensures conn.State() == AfterIndexCheck(old(conn.State()), Post)
    ensures conn.log == old(conn.log) + IndexPlan(Post, old(conn.indexes)[Post].Keys)
  {
    var indexes := IndexesFor(conn, Post);
    CheckOfTwo(Post, IndexDecl("WebLogId", Simple("WebLogId")), IndexDecl("Tags", Multi("Tags")), indexes);
    MergeTwo(old(conn.indexes)[Post], "WebLogId", Simple("WebLogId"), "Tags", Multi("Tags"));
    if "WebLogId" !in indexes {
      conn.IndexCreate(Post, "WebLogId", Simple("WebLogId"));
    }
    if "Tags" !in indexes {
      conn.IndexCreate(Post, "Tags", Multi("Tags"));
    }
  }

  method CheckUserIndexes(conn: Store)
    requires conn.Valid() && User in conn.tables
    modifies conn
    ensures conn.Valid()
    ensures conn.State() == AfterIndexCheck(old(conn.State()), User)
    ensures conn.log == old(conn.log) + IndexPlan(User, old(conn.indexes)[User].Keys)
  {
    var indexes := IndexesFor(conn, User);
    CheckOfOne(User, IndexDecl("EmailAddress", Simple("EmailAddress")), indexes);
    MergeOne(old(conn.indexes)[User], "EmailAddress", Simple("EmailAddress"));
    if "EmailAddress" !in indexes {
      conn.IndexCreate(User, "EmailAddress", Simple("EmailAddress"));
    }
  }
}
