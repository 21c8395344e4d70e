/**
 * What `EstablishEnvironment` achieves, stated against the step functions
 * of `EnvironmentExtensions`: the store the run leaves in closed form, the
 * create calls it issues replayed against the store, that it only adds,
 * that it creates exactly what is missing, and that a second run does
 * nothing.
 */
module EnvironmentProperties {
  import opened Wrappers
  import opened RethinkStore
  import opened EnvironmentExtensions

  /** The index names a list of declarations mentions. */
  function Names(ds: seq<IndexDecl>): set<string>
  {
    set d | d in ds :: d.name
  }

  /**
   * The store holds everything the reconciler declares for `database`: the
   * database, the six tables, and on every table its declared indexes (a
   * table outside the six declares none).
   */
  predicate Established(s: StoreState, database: Option<string>)
  {
    && s.Valid()
    && (Named(database) ==> database.value in s.dbs)
    && TableSet <= s.tables
    && forall t :: t in s.tables ==> Catalog(t).Keys <= s.indexes[t].Keys
  }

  // ---- the catalog ----

  lemma {:induction false} RulesOfKeys(ds: seq<IndexDecl>)
    ensures RulesOf(ds).Keys == Names(ds)
  {
    if ds != [] {
      var init, d := ds[..|ds| - 1], ds[|ds| - 1];
      RulesOfKeys(init);
      assert ds == init + [d];
      assert Names(ds) == Names(init) + {d.name};
    }
  }

  /** The declared indexes, by table, with the key rule each is created with. */
  lemma CatalogContents()
    ensures Catalog(Category) == map["WebLogId" := Simple("WebLogId"), "WebLogAndSlug" := Compound(["WebLogId", "Slug"])]
    ensures Catalog(Comment) == map["PostId" := Simple("PostId")]
    ensures Catalog(Page) == map["WebLogId" := Simple("WebLogId"), "WebLogAndPermalink" := Compound(["WebLogId", "Permalink"])]
    ensures Catalog(Post) == map["WebLogId" := Simple("WebLogId"), "Tags" := Multi("Tags")]
    ensures Catalog(User) == map["EmailAddress" := Simple("EmailAddress")]
    ensures Catalog(WebLog) == map[]
  {
    CheckOfTwo(Category, IndexDecl("WebLogId", Simple("WebLogId")), IndexDecl("WebLogAndSlug", Compound(["WebLogId", "Slug"])), {});
    CheckOfOne(Comment, IndexDecl("PostId", Simple("PostId")), {});
    CheckOfTwo(Page, IndexDecl("WebLogId", Simple("WebLogId")), IndexDecl("WebLogAndPermalink", Compound(["WebLogId", "Permalink"])), {});
    CheckOfTwo(Post, IndexDecl("WebLogId", Simple("WebLogId")), IndexDecl("Tags", Multi("Tags")), {});
    CheckOfOne(User, IndexDecl("EmailAddress", Simple("EmailAddress")), {});
  }

  // ---- the plans, entry by entry ----

  lemma {:induction false} TablePlanMembers(ts: seq<string>, existing: set<string>, e: Event)
    ensures e in TablePlan(ts, existing) <==> e.TableCreated? && e.table in ts && e.table !in existing
  {
    if ts != [] {
      var init, t := ts[..|ts| - 1], ts[|ts| - 1];
      TablePlanMembers(init, existing, e);
      assert ts == init + [t];
    }
  }

  lemma {:induction false} TablePlanEmpty(ts: seq<string>, existing: set<string>)
    requires forall t :: t in ts ==> t in existing
    ensures TablePlan(ts, existing) == []
  {
    if ts != [] {
      var init := ts[..|ts| - 1];
      assert forall t :: t in init ==> t in ts;
      TablePlanEmpty(init, existing);
    }
  }

  lemma {:induction false} CreateMissingMembers(table: string, ds: seq<IndexDecl>, existing: set<string>, e: Event)
    ensures e in CreateMissing(table, ds, existing) <==>
      e.IndexCreated? && e.table == table && IndexDecl(e.index, e.rule) in ds && e.index !in existing
  {
    if ds != [] {
      var init, d := ds[..|ds| - 1], ds[|ds| - 1];
      CreateMissingMembers(table, init, existing, e);
      assert ds == init + [d];
    }
  }

  lemma {:induction false} CreateMissingEmpty(table: string, ds: seq<IndexDecl>, existing: set<string>)
    requires Names(ds) <= existing
    ensures CreateMissing(table, ds, existing) == []
  {
    if ds != [] {
      var init := ds[..|ds| - 1];
      assert Names(init) <= Names(ds);
      CreateMissingEmpty(table, init, existing);
    }
  }

  // ---- replaying the plans ----

  /** The table creations, carried out by the store, add exactly the listed tables. */
  lemma {:induction false} ReplayTablePlan(s: StoreState, ts: seq<string>)
    requires s.Valid()
    ensures s.ApplyAll(TablePlan(ts, s.tables)) == AddTables(s, ts)
  {
    if ts == [] {
      assert Elements(ts) == {};
      assert AddTables(s, ts) == s;
    } else {
      var init, t := ts[..|ts| - 1], ts[|ts| - 1];
      ReplayTablePlan(s, init);
      assert ts == init + [t];
      AddTablesSnoc(s, init, t);
      var step := if t !in s.tables then [TableCreated(t)] else [];
      ApplyAllAppend(s, TablePlan(init, s.tables), step);
      var y := AddTables(s, init);
      if t !in s.tables {
        ApplyAllOne(y, TableCreated(t));
        if t in init {
          assert t in Elements(init) - s.tables;
          assert y.indexes[t] == map[];
          assert y.Apply(TableCreated(t)) == y;
        }
      }
    }
  }

  /** The index creations of one declaration list, carried out by the store, merge it under the table's indexes. */
  lemma {:induction false} ReplayCreateMissing(y: StoreState, table: string, ds: seq<IndexDecl>)
    requires table in y.indexes
    ensures y.ApplyAll(CreateMissing(table, ds, y.indexes[table].Keys)) ==
            y.(indexes := y.indexes[table := RulesOf(ds) + y.indexes[table]])
  {
    var m := y.indexes[table];
    if ds == [] {
      assert map[] + m == m;
      assert y.indexes[table := m] == y.indexes;
    } else {
      var init, d := ds[..|ds| - 1], ds[|ds| - 1];
      ReplayCreateMissing(y, table, init);
      var y' := y.(indexes := y.indexes[table := RulesOf(init) + m]);
      var step := if d.name !in m.Keys then [IndexCreated(table, d.name, d.rule)] else [];
      ApplyAllAppend(y, CreateMissing(table, init, m.Keys), step);
      if d.name !in m {
        ApplyAllOne(y', IndexCreated(table, d.name, d.rule));
        assert (RulesOf(init) + m)[d.name := d.rule] == RulesOf(init)[d.name := d.rule] + m;
      } else {
        assert RulesOf(init)[d.name := d.rule] + m == RulesOf(init) + m;
      }
    }
  }

  lemma ReplayIndexPlan(y: StoreState, table: string)
    requires table in y.indexes
    ensures y.ApplyAll(IndexPlan(table, y.indexes[table].Keys)) == AfterIndexCheck(y, table)
  {
    ReplayCreateMissing(y, table, Declared(table));
  }

  /** Five index checks in a row; the order of `IndexesPlan` and `AfterIndexes`. */
  function Checks(s: StoreState, a: string, b: string, c: string, d: string, e: string): StoreState
    requires a in s.indexes && b in s.indexes && c in s.indexes && d in s.indexes && e in s.indexes
  {
    AfterIndexCheck(AfterIndexCheck(AfterIndexCheck(AfterIndexCheck(AfterIndexCheck(s, a), b), c), d), e)
  }

  /** The index creations of five index checks, each given the index names listed before any of them. */
  function Plans(i: map<string, map<string, IndexRule>>, a: string, b: string, c: string, d: string, e: string): seq<Event>
    requires a in i && b in i && c in i && d in i && e in i
  {
    IndexPlan(a, i[a].Keys) + IndexPlan(b, i[b].Keys) + IndexPlan(c, i[c].Keys) + IndexPlan(d, i[d].Keys) + IndexPlan(e, i[e].Keys)
  }

  lemma IndexesPlanIsPlans(i: map<string, map<string, IndexRule>>)
    requires HasIndexedTables(i)
    ensures IndexesPlan(i) == Plans(i, Category, Comment, Page, Post, User)
  {
  }

  lemma PlansMembers(i: map<string, map<string, IndexRule>>, a: string, b: string, c: string, d: string, e: string, ev: Event)
    requires a in i && b in i && c in i && d in i && e in i
    ensures ev in Plans(i, a, b, c, d, e) <==>
      ev.IndexCreated? && ev.table in {a, b, c, d, e} && IndexDecl(ev.index, ev.rule) in Declared(ev.table) &&
      ev.index !in i[ev.table]
  {
    CreateMissingMembers(a, Declared(a), i[a].Keys, ev);
    CreateMissingMembers(b, Declared(b), i[b].Keys, ev);
    CreateMissingMembers(c, Declared(c), i[c].Keys, ev);
    CreateMissingMembers(d, Declared(d), i[d].Keys, ev);
    CreateMissingMembers(e, Declared(e), i[e].Keys, ev);
  }

  lemma PlansEmpty(i: map<string, map<string, IndexRule>>, a: string, b: string, c: string, d: string, e: string)
    requires a in i && b in i && c in i && d in i && e in i
    requires forall t :: t in i ==> Catalog(t).Keys <= i[t].Keys
    ensures Plans(i, a, b, c, d, e) == []
  {
    forall t | t in {a, b, c, d, e}
      ensures IndexPlan(t, i[t].Keys) == []
    {
      RulesOfKeys(Declared(t));
      CreateMissingEmpty(t, Declared(t), i[t].Keys);
    }
  }

  /** The index creations of five distinct tables' checks, carried out in order, leave the five checks' state. */
  lemma ReplayChecks(s: StoreState, a: string, b: string, c: string, d: string, e: string)
    requires a in s.indexes && b in s.indexes && c in s.indexes && d in s.indexes && e in s.indexes
    requires a != b && a != c && a != d && a != e && b != c && b != d && b != e && c != d && c != e && d != e
    ensures s.ApplyAll(Plans(s.indexes, a, b, c, d, e)) == Checks(s, a, b, c, d, e)
  {
    var i := s.indexes;
    var pa, pb, pc, pd, pe := IndexPlan(a, i[a].Keys), IndexPlan(b, i[b].Keys), IndexPlan(c, i[c].Keys),
                              IndexPlan(d, i[d].Keys), IndexPlan(e, i[e].Keys);
    ApplyAllAppend(s, pa, pb);
    ApplyAllAppend(s, pa + pb, pc);
    ApplyAllAppend(s, pa + pb + pc, pd);
    ApplyAllAppend(s, pa + pb + pc + pd, pe);
    ReplayIndexPlan(s, a);
    var y1 := AfterIndexCheck(s, a);
    ReplayIndexPlan(y1, b);
    var y2 := AfterIndexCheck(y1, b);
    ReplayIndexPlan(y2, c);
    var y3 := AfterIndexCheck(y2, c);
    ReplayIndexPlan(y3, d);
    var y4 := AfterIndexCheck(y3, d);
    ReplayIndexPlan(y4, e);
  }

  lemma ReplayIndexesPlan(s: StoreState)
    requires HasIndexedTables(s.indexes)
    ensures s.ApplyAll(IndexesPlan(s.indexes)) == AfterIndexes(s)
  {
    TableNamesDistinct();
    IndexesPlanIsPlans(s.indexes);
    ReplayChecks(s, Category, Comment, Page, Post, User);
    assert AfterIndexes(s) == Checks(s, Category, Comment, Page, Post, User);
  }

  lemma ReplayDatabasePlan(s: StoreState, database: Option<string>)
    ensures s.ApplyAll(DatabasePlan(s.dbs, database)) == AfterDatabase(s, database)
  {
    if Named(database) && database.value !in s.dbs {
      ApplyAllOne(s, DbCreated(database.value));
    } else {
      assert AfterDatabase(s, database).dbs == s.dbs;
    }
  }

  /** The table and index creations, carried out in order, leave the state of the table and index checks. */
  lemma ReplayTablesAndIndexes(s: StoreState)
    requires s.Valid()
    ensures HasIndexedTables(AfterTables(s).indexes)
    ensures s.ApplyAll(TablePlan(Tables, s.tables) + IndexesPlan(AfterTables(s).indexes)) == AfterIndexes(AfterTables(s))
  {
    AfterTablesHasIndexedTables(s);
    ApplyAllAppend(s, TablePlan(Tables, s.tables), IndexesPlan(AfterTables(s).indexes));
    ReplayTablePlan(s, Tables);
    ReplayIndexesPlan(AfterTables(s));
  }

  /** The create calls of a run, carried out by the store in order, leave exactly the state the run leaves. */
  lemma ReplayPlan(s: StoreState, database: Option<string>)
    requires s.Valid()
    ensures s.ApplyAll(Plan(s, database)) == Target(s, database)
  {
    var s1 := AfterDatabase(s, database);
    var dp, tp, ip := DatabasePlan(s.dbs, database), TablePlan(Tables, s.tables), IndexesPlan(AfterTables(s).indexes);
    ReplayDatabasePlan(s, database);
    ReplayTablesAndIndexes(s1);
    assert s1.tables == s.tables && AfterTables(s1).indexes == AfterTables(s).indexes;
    assert s1.ApplyAll(tp + ip) == Target(s, database);
    assert Plan(s, database) == dp + tp + ip;
    ApplyAllAppend(s, dp + tp, ip);
    ApplyAllAppend(s, dp, tp);
    ApplyAllAppend(s1, tp, ip);
  }



  // ---- the state a run leaves ----

  lemma CatalogOutside(t: string)
    requires t !in {Category, Comment, Page, Post, User}
    ensures Catalog(t) == map[]
  {
    assert Declared(t) == [];
  }

  /** The index check of `table` changes that table's indexes only. */
  lemma AfterIndexCheckAt(y: StoreState, table: string, t: string)
    requires table in y.indexes && t in y.indexes
    ensures AfterIndexCheck(y, table).dbs == y.dbs && AfterIndexCheck(y, table).tables == y.tables
    ensures AfterIndexCheck(y, table).indexes.Keys == y.indexes.Keys
    ensures AfterIndexCheck(y, table).indexes[t] == if t == table then Catalog(t) + y.indexes[t] else y.indexes[t]
  {
  }

  /** Five index checks of distinct tables change exactly those tables' indexes. */
  lemma ChecksAt(y: StoreState, a: string, b: string, c: string, d: string, e: string, t: string)
    requires a in y.indexes && b in y.indexes && c in y.indexes && d in y.indexes && e in y.indexes && t in y.indexes
    requires a != b && a != c && a != d && a != e && b != c && b != d && b != e && c != d && c != e && d != e
    ensures Checks(y, a, b, c, d, e).dbs == y.dbs && Checks(y, a, b, c, d, e).tables == y.tables
    ensures Checks(y, a, b, c, d, e).indexes.Keys == y.indexes.Keys
    ensures Checks(y, a, b, c, d, e).indexes[t] ==
      if t in {a, b, c, d, e} then Catalog(t) + y.indexes[t] else y.indexes[t]
  {
    var y1 := AfterIndexCheck(y, a);
    AfterIndexCheckAt(y, a, t);
    var y2 := AfterIndexCheck(y1, b);
    AfterIndexCheckAt(y1, b, t);
    var y3 := AfterIndexCheck(y2, c);
    AfterIndexCheckAt(y2, c, t);
    var y4 := AfterIndexCheck(y3, d);
    AfterIndexCheckAt(y3, d, t);
    AfterIndexCheckAt(y4, e, t);
  }

  lemma AfterIndexesIsChecks(y: StoreState)
    requires HasIndexedTables(y.indexes)
    ensures AfterIndexes(y) == Checks(y, Category, Comment, Page, Post, User)
  {
  }

  /** `CheckIndexes` merges each table's declared indexes under the ones it has. */
  lemma AfterIndexesAt(y: StoreState, t: string)
    requires HasIndexedTables(y.indexes) && t in y.indexes
    ensures AfterIndexes(y).dbs == y.dbs && AfterIndexes(y).tables == y.tables
    ensures AfterIndexes(y).indexes.Keys == y.indexes.Keys
    ensures AfterIndexes(y).indexes[t] == Catalog(t) + y.indexes[t]
  {
    TableNamesDistinct();
    AfterIndexesIsChecks(y);
    ChecksAt(y, Category, Comment, Page, Post, User, t);
    if t !in {Category, Comment, Page, Post, User} {
      CatalogOutsideMerge(t, y.indexes[t]);
    }
  }

  lemma CatalogOutsideMerge(t: string, m: map<string, IndexRule>)
    requires t !in {Category, Comment, Page, Post, User}
    ensures Catalog(t) + m == m
  {
    CatalogOutside(t);
    assert Catalog(t) + m == map[] + m;
  }


  /**
   * After a run: the named database is added, the six tables are added,
   * and every table's indexes are its declared ones merged under those it
   * had, so an existing index keeps its rule.
   */
  lemma TargetClosedForm(s: StoreState, database: Option<string>)
    requires s.Valid()
    ensures Target(s, database).Valid()
    ensures Target(s, database).dbs == s.dbs + (if Named(database) then {database.value} else {})
    ensures Target(s, database).tables == s.tables + TableSet
    ensures forall t :: t in Target(s, database).tables ==>
      Target(s, database).indexes[t] == Catalog(t) + (if t in s.tables then s.indexes[t] else map[])
  {
    var s1 := AfterDatabase(s, database);
    AfterTablesHasIndexedTables(s1);
    var s2 := AfterTables(s1);
    var r := Target(s, database);
    assert r == AfterIndexes(s2);
    AfterIndexesAt(s2, Category);
    forall t | t in r.tables
      ensures r.indexes[t] == Catalog(t) + (if t in s.tables then s.indexes[t] else map[])
    {
      AfterIndexesAt(s2, t);
      assert s2.indexes[t] == if t in s.tables then s.indexes[t] else map[];
    }
  }

  /** After a run every table holds its declared indexes, each created one with its declared rule. */
  lemma TargetHoldsCatalog(s: StoreState, database: Option<string>, t: string)
    requires s.Valid() && t in Target(s, database).tables
    ensures Catalog(t).Keys <= Target(s, database).indexes[t].Keys
    ensures forall n :: n in Catalog(t) && (t !in s.tables || n !in s.indexes[t]) ==>
      Target(s, database).indexes[t][n] == Catalog(t)[n]
  {
    TargetClosedForm(s, database);
  }

  /** A run leaves the store established for `database`, and each index it creates has its declared rule. */
  lemma TargetEstablished(s: StoreState, database: Option<string>)
    requires s.Valid()
    ensures Established(Target(s, database), database)
    ensures forall t, n :: t in Target(s, database).tables && n in Catalog(t) && (t !in s.tables || n !in s.indexes[t]) ==>
      Target(s, database).indexes[t][n] == Catalog(t)[n]
  {
    var r := Target(s, database);
    forall t | t in r.tables
      ensures Catalog(t).Keys <= r.indexes[t].Keys
      ensures forall n :: n in Catalog(t) && (t !in s.tables || n !in s.indexes[t]) ==> r.indexes[t][n] == Catalog(t)[n]
    {
      TargetHoldsCatalog(s, database, t);
    }
    assert r.Valid() && (Named(database) ==> database.value in r.dbs) && TableSet <= r.tables by {
      TargetClosedForm(s, database);
    }
  }


  /** A run only adds: no database, table or index disappears, and no existing index changes its rule. */
  lemma TargetNonDestructive(s: StoreState, database: Option<string>)
    requires s.Valid()
    ensures s.dbs <= Target(s, database).dbs
    ensures s.tables <= Target(s, database).tables
    ensures forall t, n :: t in s.tables && n in s.indexes[t] ==>
      n in Target(s, database).indexes[t] && Target(s, database).indexes[t][n] == s.indexes[t][n]
  {
    TargetClosedForm(s, database);
  }

  // ---- what a run creates ----

  lemma DeclaredOutside(t: string)
    requires t !in IndexedTables
    ensures Declared(t) == []
  {
  }

  /** The index creations of a run, given the tables it has then, are the declared indexes missing before it. */
  lemma IndexesPlanMembers(s: StoreState, e: Event)
    requires s.Valid()
    ensures HasIndexedTables(AfterTables(s).indexes)
    ensures e in IndexesPlan(AfterTables(s).indexes) <==>
      e.IndexCreated? && IndexDecl(e.index, e.rule) in Declared(e.table) &&
      (e.table !in s.tables || e.index !in s.indexes[e.table])
  {
    AfterTablesHasIndexedTables(s);
    var i := AfterTables(s).indexes;
    IndexesPlanIsPlans(i);
    PlansMembers(i, Category, Comment, Page, Post, User, e);
    if e.IndexCreated? {
      if e.table !in IndexedTables {
        DeclaredOutside(e.table);
      } else {
        assert e.table in Elements(Tables);
        assert e.index in i[e.table] <==> e.table in s.tables && e.index in s.indexes[e.table];
      }
    }
  }

  /**
   * A run creates exactly what is missing: the named database when absent,
   * each of the six tables when absent, and each declared index when its
   * table is new or lacks an index of that name.
   */
  lemma PlanCreatesExactlyMissing(s: StoreState, database: Option<string>, e: Event)
    requires s.Valid()
    ensures e in Plan(s, database) <==>
      || (e.DbCreated? && Named(database) && e.db == database.value && e.db !in s.dbs)
      || (e.TableCreated? && e.table in TableSet && e.table !in s.tables)
      || (e.IndexCreated? && IndexDecl(e.index, e.rule) in Declared(e.table) &&
          (e.table !in s.tables || e.index !in s.indexes[e.table]))
  {
    AfterTablesHasIndexedTables(s);
    TablePlanMembers(Tables, s.tables, e);
    IndexesPlanMembers(s, e);
  }


  /** With the six tables present, the table check creates nothing and changes nothing. */
  lemma TablesPresent(s: StoreState)
    requires s.Valid() && TableSet <= s.tables
    ensures TablePlan(Tables, s.tables) == []
    ensures AfterTables(s) == s
    ensures HasIndexedTables(s.indexes)
  {
    TablePlanEmpty(Tables, s.tables);
    AfterTablesHasIndexedTables(s);
    assert AfterTables(s).indexes == s.indexes;
  }

  lemma EstablishedPlanEmpty(s: StoreState, database: Option<string>)
    requires Established(s, database)
    ensures Plan(s, database) == []
  {
    TablesPresent(s);
    IndexesPlanIsPlans(s.indexes);
    PlansEmpty(s.indexes, Category, Comment, Page, Post, User);
  }

  /** A run issues no create call exactly when the store is already established, and then changes nothing. */
  lemma EstablishedIff(s: StoreState, database: Option<string>)
    requires s.Valid()
    ensures Plan(s, database) == [] <==> Established(s, database)
    ensures Target(s, database) == s <==> Established(s, database)
  {
    ReplayPlan(s, database);
    TargetEstablished(s, database);
    if Established(s, database) {
      EstablishedPlanEmpty(s, database);
    }
  }

  /** A second run issues no create call and leaves the store as the first left it. */
  lemma Idempotent(s: StoreState, database: Option<string>)
    requires s.Valid()
    ensures var r := Target(s, database); r.Valid() && Plan(r, database) == [] && Target(r, database) == r
  {
    TargetEstablished(s, database);
    EstablishedIff(Target(s, database), database);
  }

  // ---- a concrete run ----

  /**
   * A store that lacks only Post's "Tags" index: the run makes exactly one
   * create call, that index on Post, and creates no table.
   */
  lemma MissingTagsIndexRun(s: StoreState, database: Option<string>)
    requires s.Valid() && TableSet <= s.tables
    requires Named(database) ==> database.value in s.dbs
    requires "WebLogId" in s.indexes[Category] && "WebLogAndSlug" in s.indexes[Category]
    requires "PostId" in s.indexes[Comment]
    requires "WebLogId" in s.indexes[Page] && "WebLogAndPermalink" in s.indexes[Page]
    requires "EmailAddress" in s.indexes[User]
    requires s.indexes[Post].Keys == {"WebLogId"}
    ensures Plan(s, database) == [IndexCreated(Post, "Tags", Multi("Tags"))]
  {
    TablesPresent(s);
    IndexesPlanIsPlans(s.indexes);
    var i := s.indexes;
    var tags := [IndexCreated(Post, "Tags", Multi("Tags"))];
    assert IndexPlan(Category, i[Category].Keys) == [] by {
      CheckOfTwo(Category, IndexDecl("WebLogId", Simple("WebLogId")), IndexDecl("WebLogAndSlug", Compound(["WebLogId", "Slug"])), i[Category].Keys);
    }
    assert IndexPlan(Comment, i[Comment].Keys) == [] by {
      CheckOfOne(Comment, IndexDecl("PostId", Simple("PostId")), i[Comment].Keys);
    }
    assert IndexPlan(Page, i[Page].Keys) == [] by {
      CheckOfTwo(Page, IndexDecl("WebLogId", Simple("WebLogId")), IndexDecl("WebLogAndPermalink", Compound(["WebLogId", "Permalink"])), i[Page].Keys);
    }
    assert IndexPlan(Post, i[Post].Keys) == tags by {
      CheckOfTwo(Post, IndexDecl("WebLogId", Simple("WebLogId")), IndexDecl("Tags", Multi("Tags")), i[Post].Keys);
    }
    assert IndexPlan(User, i[User].Keys) == [] by {
      CheckOfOne(User, IndexDecl("EmailAddress", Simple("EmailAddress")), i[User].Keys);
    }
    assert Plans(i, Category, Comment, Page, Post, User) == tags;
  }
}
