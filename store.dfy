/**
 * The RethinkDB server as the reconciler sees it: databases, tables, and
 * per table its secondary indexes with their key rules, plus a log of the
 * create calls it has received. The list and create calls of the driver
 * are the methods of `Store`.
 */
module RethinkStore {

  /** How an index extracts its key from a document. */
  datatype IndexRule =
    | Simple(field: string)          // `IndexCreate(name)`: the field of that name
    | Compound(fields: seq<string>)  // `IndexCreate(name, row => R.Array(row[f1], row[f2]))`
    | Multi(field: string)           // `IndexCreate(name).OptArg("multi", true)`: one entry per array element

  /** A create call the store received. */
  datatype Event =
    | DbCreated(db: string)
    | TableCreated(table: string)
    | IndexCreated(table: string, index: string, rule: IndexRule)

  datatype StoreState = StoreState(
    dbs: set<string>,
    tables: set<string>,
    indexes: map<string, map<string, IndexRule>>)
  {
    /** Every table has an index list (possibly empty), and only tables have one. */
    predicate Valid()
    {
      indexes.Keys == tables
    }

    /** The state after the store carries out one create call. */
    function Apply(e: Event): StoreState
    {
      match e
      case DbCreated(name) => this.(dbs := dbs + {name})
      case TableCreated(name) => this.(tables := tables + {name}, indexes := indexes[name := map[]])
      case IndexCreated(table, name, rule) =>
        if table in indexes then this.(indexes := indexes[table := indexes[table][name := rule]]) else this
    }

    /** The state after the store carries out `es`, first to last. */
    function ApplyAll(es: seq<Event>): StoreState
      decreases |es|
    {
      if es == [] then this else Apply(es[0]).ApplyAll(es[1..])
    }
  }

  lemma {:induction false} ApplyAllAppend(s: StoreState, a: seq<Event>, b: seq<Event>)
    ensures s.ApplyAll(a + b) == s.ApplyAll(a).ApplyAll(b)
    decreases |a|
  {
    if a == [] {
      assert a + b == b;
    } else {
      assert (a + b)[1..] == a[1..] + b;
      ApplyAllAppend(s.Apply(a[0]), a[1..], b);
    }
  }

  lemma ApplyAllOne(s: StoreState, e: Event)
    ensures s.ApplyAll([e]) == s.Apply(e)
  {
    assert [e][1..] == [];
  }

  class Store {
    var dbs: set<string>
    var tables: set<string>
    var indexes: map<string, map<string, IndexRule>>
    var log: seq<Event>

    function State(): StoreState
      reads this
    {
      StoreState(dbs, tables, indexes)
    }

    predicate Valid()
      reads this
    {
      State().Valid()
    }

    constructor (initial: StoreState)
      requires initial.Valid()
      ensures Valid() && State() == initial && log == []
    {
      dbs, tables, indexes := initial.dbs, initial.tables, initial.indexes;
      log := [];
    }

    /** `R.DbList()` */
    method DbList() returns (names: set<string>)
      ensures names == dbs
    {
      names := dbs;
    }

    /** `R.DbCreate(name)`; the server refuses an existing name. */
    method DbCreate(name: string)
      requires Valid() && name !in dbs
      modifies this
      ensures Valid() && State() == old(State()).Apply(DbCreated(name))
      ensures log == old(log) + [DbCreated(name)]
    {
      dbs := dbs + {name};
      log := log + [DbCreated(name)];
    }

    /** `R.TableList()` */
    method TableList() returns (names: set<string>)
      ensures names == tables
    {
      names := tables;
    }

    /** `R.TableCreate(name)`: a new table with no secondary index; the server refuses an existing name. */
    method TableCreate(name: string)
      requires Valid() && name !in tables
      modifies this
      ensures Valid() && State() == old(State()).Apply(TableCreated(name))
      ensures log == old(log) + [TableCreated(name)]
    {
      tables := tables + {name};
      indexes := indexes[name := map[]];
      log := log + [TableCreated(name)];
    }

    /** `R.Table(table).IndexList()`: the index names of an existing table. */
    method IndexList(table: string) returns (names: set<string>)
      requires Valid() && table in tables
      ensures names == indexes[table].Keys
    {
      names := indexes[table].Keys;
    }

    /** `R.Table(table).IndexCreate(...)` on an existing table; the server refuses an existing index name. */
    method IndexCreate(table: string, name: string, rule: IndexRule)
      requires Valid() && table in tables && name !in indexes[table]
      modifies this
      ensures Valid() && State() == old(State()).Apply(IndexCreated(table, name, rule))
      ensures log == old(log) + [IndexCreated(table, name, rule)]
    {
      indexes := indexes[table := indexes[table][name := rule]];
      log := log + [IndexCreated(table, name, rule)];
    }
  }
}
