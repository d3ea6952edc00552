/**
 Applying a schema document to a database: which statements run, in which order,
 and what that order guarantees. The database is an abstract catalog in which a
 statement fails when something it names does not exist, or exists already.
 */
module SchemaApply {
  import opened Basics
  import opened JsonValues
  import opened Text
  import opened ColumnSql

  const BASE_GRAPH := "base"

  /** One table of the document, as it is imported. Of its columns only the names play a part here. */
  datatype Def = Def(table: string, collection: string, schema: string, columns: seq<string>, edge: Option<Edge>)

  datatype Edge = Edge(references: seq<Reference>, sourceTable: string, destinationTable: string, graph: string)

  /** A column that holds keys of another table. */
  datatype Reference = Reference(column: string, table: string)

  /** The table the first reference on a column names. */
  function ReferenceOf(references: seq<Reference>, column: string): Option<string> {
    if references == [] then None
    else if references[0].column == column then Some(references[0].table)
    else ReferenceOf(references[1..], column)
  }

  /** What the columns of a table refer to; a reference on a column the table does not have is not written. */
  function Referred(columns: seq<string>, references: seq<Reference>): seq<string> {
    if columns == [] then [] else
      var first := ReferenceOf(references, columns[0]);
      (if first.Some? then [first.value] else []) + Referred(columns[1..], references)
  }

  function ReferredBy(def: Def): seq<string> {
    if def.edge.Some? then Referred(def.columns, def.edge.value.references) else []
  }

  datatype Statement =
    | CreateSchema(name: string)
    | CreateTable(table: string, references: seq<string>)
    | CreateGraph(name: string, vertices: seq<string>, edges: seq<string>)
    | AlterGraph(name: string, ends: seq<string>, edges: seq<string>)

  datatype Catalog = Catalog(schemas: set<string>, tables: set<string>, graphs: set<string>)

  /** The schema a table name stands in; a bare name stands in the default one. */
  function SchemaOf(table: string): string {
    if '.' in table then Upto(table, '.') else ""
  }

  predicate AllIn(names: seq<string>, pool: set<string>) {
    forall n :: n in names ==> n in pool
  }

  /** What the database does with a statement; nothing when it refuses it. */
  function Execute(c: Catalog, s: Statement): Option<Catalog> {
    match s
    case CreateSchema(name) => Some(c.(schemas := c.schemas + {name}))
    case CreateTable(table, references) =>
      if table in c.tables || !(SchemaOf(table) == "" || SchemaOf(table) in c.schemas)
          || !AllIn(references, c.tables) then None
      else Some(c.(tables := c.tables + {table}))
    case CreateGraph(name, vertices, edges) =>
      if name in c.graphs || !AllIn(vertices, c.tables) || !AllIn(edges, c.tables) then None
      else Some(c.(graphs := c.graphs + {name}))
    case AlterGraph(name, ends, edges) =>
      if name !in c.graphs || !AllIn(ends, c.tables) || !AllIn(edges, c.tables) then None else Some(c)
  }

  datatype Outcome = Outcome(catalog: Catalog, ok: bool)

  /** Runs statements until one is refused. */
  function ExecuteAll(c: Catalog, statements: seq<Statement>): Outcome {
    if statements == [] then Outcome(c, true) else
      var before := ExecuteAll(c, statements[..|statements| - 1]);
      if !before.ok then before else
        var next := Execute(before.catalog, statements[|statements| - 1]);
        if next.None? then Outcome(before.catalog, false) else Outcome(next.value, true)
  }

  // ---- the plan -----------------------------------------------------------

  /** Alphabetical order, character by character. */
  predicate Precedes(a: string, b: string) {
    b != "" && (a == "" || a[0] < b[0] || (a[0] == b[0] && Precedes(a[1..], b[1..])))
  }

  /** Puts a name where it belongs, unless it is there. */
  function Placed(names: seq<string>, name: string): (r: seq<string>)
    ensures forall n :: n in r <==> n in names || n == name
  {
    if names == [] then [name]
    else if name == names[0] then names
    else if Precedes(name, names[0]) then [name] + names
    else
      assert names == [names[0]] + names[1..];
      [names[0]] + Placed(names[1..], name)
  }

  /** The names of a list, each once, in alphabetical order. */
  function InOrder(names: seq<string>): (r: seq<string>)
    ensures forall n :: n in r <==> n in names
  {
    if names == [] then [] else
      assert names == names[..|names| - 1] + [names[|names| - 1]];
      Placed(InOrder(names[..|names| - 1]), names[|names| - 1])
  }

  function SchemaList(defs: seq<Def>): (r: seq<string>)
    ensures forall n :: n in r <==> n != "" && exists d :: d in defs && d.schema == n
  {
    if defs == [] then [] else
      assert defs == [defs[0]] + defs[1..];
      (if defs[0].schema == "" then [] else [defs[0].schema]) + SchemaList(defs[1..])
  }

  function SchemaNames(defs: seq<Def>): (r: seq<string>)
    ensures forall n :: n in r <==> n != "" && exists d :: d in defs && d.schema == n
  {
    InOrder(SchemaList(defs))
  }

  function RowsOf(defs: seq<Def>): seq<Def> {
    if defs == [] then [] else
      RowsOf(defs[..|defs| - 1]) + if defs[|defs| - 1].edge.None? then [defs[|defs| - 1]] else []
  }

  function EdgesOf(defs: seq<Def>): seq<Def> {
    if defs == [] then [] else
      EdgesOf(defs[..|defs| - 1]) + if defs[|defs| - 1].edge.Some? then [defs[|defs| - 1]] else []
  }

  /** The tables to create, in order: each name that was not there and has not been created yet. */
  function Created(defs: seq<Def>, live: set<string>): seq<Def> {
    if defs == [] then [] else
      var before := Created(defs[..|defs| - 1], live);
      var last := defs[|defs| - 1];
      if last.table in live || last.table in Tables(before) then before else before + [last]
  }

  function Skipped(defs: seq<Def>, live: set<string>): seq<Def> {
    if defs == [] then [] else
      var last := defs[|defs| - 1];
      Skipped(defs[..|defs| - 1], live)
      + if last.table in live || last.table in Tables(Created(defs[..|defs| - 1], live)) then [last] else []
  }

  function Tables(defs: seq<Def>): (r: set<string>)
    ensures forall d :: d in defs ==> d.table in r
  {
    set d | d in defs :: d.table
  }

  function TableNames(defs: seq<Def>): (r: seq<string>)
    ensures |r| == |defs| && forall i :: 0 <= i < |r| ==> r[i] == defs[i].table
  {
    seq(|defs|, i requires 0 <= i < |defs| => defs[i].table)
  }

  function Collections(defs: seq<Def>): (r: seq<string>)
    ensures |r| == |defs| && forall i :: 0 <= i < |r| ==> r[i] == defs[i].collection
  {
    seq(|defs|, i requires 0 <= i < |defs| => defs[i].collection)
  }

  function CreateStatement(def: Def): Statement {
    CreateTable(def.collection, ReferredBy(def))
  }

  function CreateStatements(defs: seq<Def>): seq<Statement> {
    if defs == [] then [] else CreateStatements(defs[..|defs| - 1]) + [CreateStatement(defs[|defs| - 1])]
  }

  function GraphOf(def: Def): string {
    if def.edge.None? || def.edge.value.graph == "" then BASE_GRAPH else def.edge.value.graph
  }

  function GraphList(edges: seq<Def>): (r: seq<string>)
    ensures |r| == |edges| && forall i :: 0 <= i < |r| ==> r[i] == GraphOf(edges[i])
  {
    seq(|edges|, i requires 0 <= i < |edges| => GraphOf(edges[i]))
  }

  /** The graphs the created edge tables name, each once, in alphabetical order. */
  function GraphNames(edges: seq<Def>): (r: seq<string>)
    ensures forall g :: g in r <==> exists d :: d in edges && GraphOf(d) == g
  {
    InOrder(GraphList(edges))
  }

  function InGraph(edges: seq<Def>, graph: string): (r: seq<Def>)
    ensures forall d :: d in r <==> d in edges && GraphOf(d) == graph
  {
    if edges == [] then [] else
      assert edges == edges[..|edges| - 1] + [edges[|edges| - 1]];
      InGraph(edges[..|edges| - 1], graph) + if GraphOf(edges[|edges| - 1]) == graph then [edges[|edges| - 1]] else []
  }

  function Ends(edges: seq<Def>): (r: seq<string>)
    ensures forall t :: t in r <==> exists d :: d in edges && t in EndsOf(d)
  {
    if edges == [] then [] else
      assert edges == [edges[0]] + edges[1..];
      EndsOf(edges[0]) + Ends(edges[1..])
  }

  function EndsOf(d: Def): seq<string> {
    if d.edge.None? then [] else NonBlank(d.edge.value.sourceTable) + NonBlank(d.edge.value.destinationTable)
  }

  function NonBlank(t: string): seq<string> {
    if t == "" then [] else [t]
  }

  /** Taken to exist: the base graph, and one that some edge table of the document already here names. */
  predicate TakenToExist(defs: seq<Def>, live: set<string>, graph: string) {
    graph == BASE_GRAPH
    || exists d :: d in EdgesOf(defs) && d.table in live && d.edge.Some? && d.edge.value.graph == graph
  }

  function GraphStatement(defs: seq<Def>, live: set<string>, created: seq<Def>, graph: string): Statement {
    var edges := InGraph(created, graph);
    if TakenToExist(defs, live, graph) then AlterGraph(graph, Ends(edges), Collections(edges))
    else CreateGraph(graph, Ends(edges), Collections(edges))
  }

  function GraphStatements(defs: seq<Def>, live: set<string>, created: seq<Def>, graphs: seq<string>): seq<Statement> {
    if graphs == [] then [] else
      GraphStatements(defs, live, created, graphs[..|graphs| - 1])
      + [GraphStatement(defs, live, created, graphs[|graphs| - 1])]
  }

  function SchemaStatements(schemas: seq<string>): seq<Statement> {
    if schemas == [] then [] else SchemaStatements(schemas[..|schemas| - 1]) + [CreateSchema(schemas[|schemas| - 1])]
  }

  function Ordered(defs: seq<Def>): seq<Def> {
    RowsOf(defs) + EdgesOf(defs)
  }

  /** Every statement an application runs, unless one is refused. */
  function Plan(defs: seq<Def>, live: set<string>): seq<Statement> {
    var created := Created(Ordered(defs), live);
    var edges := EdgesOf(created);
    SchemaStatements(SchemaNames(defs)) + CreateStatements(created)
    + GraphStatements(defs, live, edges, GraphNames(edges))
  }

  // ---- the application ----------------------------------------------------

  class Database {
    var catalog: Catalog

    constructor (catalog: Catalog)
      ensures this.catalog == catalog
    {
      this.catalog := catalog;
    }

    method Run(s: Statement) returns (ok: bool)
      modifies this
      ensures ok <==> Execute(old(catalog), s).Some?
      ensures catalog == if ok then Execute(old(catalog), s).value else old(catalog)
    {
      var next := Execute(catalog, s);
      ok := next.Some?;
      if ok {
        catalog := next.value;
      }
    }
  }

  datatype Report = Report(tableCount: nat, created: seq<string>, skipped: seq<string>)

  lemma OneMore(c: Catalog, done: seq<Statement>, s: Statement)
    ensures ExecuteAll(c, done + [s]) ==
      var before := ExecuteAll(c, done);
      if !before.ok then before else
        var next := Execute(before.catalog, s);
        if next.None? then Outcome(before.catalog, false) else Outcome(next.value, true)
  {
    assert (done + [s])[..|done|] == done;
  }

  /** Once a statement is refused, nothing after it runs. */
  lemma {:induction false} Stopped(c: Catalog, done: seq<Statement>, rest: seq<Statement>)
    requires !ExecuteAll(c, done).ok
    ensures ExecuteAll(c, done + rest) == ExecuteAll(c, done)
  {
    if rest == [] {
      assert done + rest == done;
    } else {
      var n := |rest| - 1;
      Stopped(c, done, rest[..n]);
      OneMore(c, done + rest[..n], rest[n]);
      assert done + rest[..n] + [rest[n]] == done + rest;
    }
  }

  /** Runs a list of statements; `done` is what ran before. */
  method RunAll(db: Database, ghost c: Catalog, ghost done: seq<Statement>, statements: seq<Statement>)
      returns (ok: bool)
    requires ExecuteAll(c, done) == Outcome(db.catalog, true)
    modifies db
    ensures ExecuteAll(c, done + statements) == Outcome(db.catalog, ok)
  {
    hide ExecuteAll, Execute;
    assert done + statements[..0] == done;
    for i := 0 to |statements|
      invariant ExecuteAll(c, done + statements[..i]) == Outcome(db.catalog, true)
    {
      OneMore(c, done + statements[..i], statements[i]);
      assert done + statements[..i] + [statements[i]] == done + statements[..i + 1];
      var fine := db.Run(statements[i]);
      if !fine {
        Stopped(c, done + statements[..i + 1], statements[i + 1..]);
        assert done + statements[..i + 1] + statements[i + 1..] == done + statements;
        return false;
      }
    }
    assert statements[..|statements|] == statements;
    ok := true;
  }

  method CreateTables(db: Database, ghost c: Catalog, ghost done: seq<Statement>, defs: seq<Def>, live: set<string>)
    returns (ok: bool, created: seq<Def>, skipped: seq<Def>)
    requires ExecuteAll(c, done) == Outcome(db.catalog, true)
    modifies db
    ensures ExecuteAll(c, done + CreateStatements(Created(defs, live))) == Outcome(db.catalog, ok)
    ensures ok ==> created == Created(defs, live) && skipped == Skipped(defs, live)
  {
    hide ExecuteAll, Execute, CreateStatement;
    created, skipped := [], [];
    var existing := live;
    assert done + CreateStatements([]) == done;
    for i := 0 to |defs|
      invariant created == Created(defs[..i], live) && skipped == Skipped(defs[..i], live)
      invariant existing == live + Tables(created)
      invariant ExecuteAll(c, done + CreateStatements(created)) == Outcome(db.catalog, true)
    {
      var def := defs[i];
      assert defs[..i + 1][..i] == defs[..i];
      if def.table in existing {
        skipped := skipped + [def];
      } else {
        ghost var before := CreateStatements(created);
        assert (created + [def])[..|created|] == created;
        OneMore(c, done + before, CreateStatement(def));
        Regroup(done, before, [CreateStatement(def)]);
        assert CreateStatements(created + [def]) == before + [CreateStatement(def)];
        var fine := db.Run(CreateStatement(def));
        if !fine {
          CreatedPrefix(defs, live, i + 1);
          StoppedInside(c, done, Created(defs[..i + 1], live), Created(defs, live));
          return false, created, skipped;
        }
        created := created + [def];
        assert forall d :: d in created <==> d in created[..|created| - 1] || d == def;
        existing := existing + {def.table};
      }
    }
    assert defs[..|defs|] == defs;
    ok := true;
  }

  lemma {:induction false} CreatedPrefix(defs: seq<Def>, live: set<string>, n: nat)
    requires n <= |defs|
    ensures Created(defs[..n], live) <= Created(defs, live)
  {
    if n == |defs| {
      assert defs[..n] == defs;
    } else {
      assert defs[..|defs| - 1][..n] == defs[..n];
      CreatedPrefix(defs[..|defs| - 1], live, n);
    }
  }

  lemma {:induction false} CreateStatementsTwo(a: seq<Def>, b: seq<Def>)
    ensures CreateStatements(a + b) == CreateStatements(a) + CreateStatements(b)
  {
    if b == [] {
      assert a + b == a;
    } else {
      assert (a + b)[..|a + b| - 1] == a + b[..|b| - 1];
      CreateStatementsTwo(a, b[..|b| - 1]);
    }
  }

  lemma StoppedInside(c: Catalog, done: seq<Statement>, some: seq<Def>, all: seq<Def>)
    requires some <= all && !ExecuteAll(c, done + CreateStatements(some)).ok
    ensures ExecuteAll(c, done + CreateStatements(all)) == ExecuteAll(c, done + CreateStatements(some))
  {
    hide ExecuteAll, CreateStatements;
    var rest := all[|some|..];
    assert all == some + rest;
    CreateStatementsTwo(some, rest);
    Stopped(c, done + CreateStatements(some), CreateStatements(rest));
    Regroup(done, CreateStatements(some), CreateStatements(rest));
  }

  lemma NothingToRun(c: Catalog)
    ensures ExecuteAll(c, []) == Outcome(c, true)
  {}

  /** Applies the tables of a document: schemas, then tables of rows, then edge tables, then graphs. */
  method ApplySchemaExport(db: Database, defs: seq<Def>) returns (report: Option<Report>)
    modifies db
    ensures ExecuteAll(old(db.catalog), Plan(defs, Found(old(db.catalog)))) == Outcome(db.catalog, report.Some?)
    ensures report.Some? ==> report.value == Report(|defs|,
        TableNames(Created(Ordered(defs), Found(old(db.catalog)))),
        TableNames(Skipped(Ordered(defs), Found(old(db.catalog)))))
  {
    hide ExecuteAll, Execute, Created, Skipped, Found, SchemaStatements, CreateStatements, GraphStatements, TableNames,
      EdgesOf, RowsOf, GraphNames, SchemaNames;
    NothingToRun(db.catalog);
    ghost var c := db.catalog;
    var live := Found(db.catalog);
    var schemas := SchemaStatements(SchemaNames(defs));
    ghost var tables := CreateStatements(Created(Ordered(defs), live));
    ghost var edges := EdgesOf(Created(Ordered(defs), live));
    ghost var graphs := GraphStatements(defs, live, edges, GraphNames(edges));
    assert [] + schemas == schemas;
    var ok := RunAll(db, c, [], schemas);
    if !ok {
      Stopped(c, schemas, tables + graphs);
      assert schemas + (tables + graphs) == schemas + tables + graphs;
      return None;
    }
    var created, skipped;
    ok, created, skipped := CreateTables(db, c, schemas, RowsOf(defs) + EdgesOf(defs), live);
    if !ok {
      Stopped(c, schemas + tables, graphs);
      return None;
    }
    var createdEdges := EdgesOf(created);
    var statements := GraphStatements(defs, live, createdEdges, GraphNames(createdEdges));
    ok := RunAll(db, c, schemas + tables, statements);
    if !ok {
      return None;
    }
    report := Some(Report(|defs|, TableNames(created), TableNames(skipped)));
  }

  // ---- what the order guarantees ------------------------------------------

  lemma {:induction false} ExecuteTwo(c: Catalog, a: seq<Statement>, b: seq<Statement>)
    ensures ExecuteAll(c, a + b) == var mid := ExecuteAll(c, a); if !mid.ok then mid else ExecuteAll(mid.catalog, b)
  {
    if b == [] {
      assert a + b == a;
    } else {
      var n := |b| - 1;
      ExecuteTwo(c, a, b[..n]);
      OneMore(c, a + b[..n], b[n]);
      assert a + b[..n] + [b[n]] == a + b;
    }
  }

  lemma {:induction false} SchemasRun(c: Catalog, schemas: seq<string>)
    ensures ExecuteAll(c, SchemaStatements(schemas)) == Outcome(c.(schemas := c.schemas + Elements(schemas)), true)
  {
    if schemas == [] {
      assert c.schemas + Elements([]) == c.schemas;
    } else {
      var n := |schemas| - 1;
      SchemasRun(c, schemas[..n]);
      OneMore(c, SchemaStatements(schemas[..n]), CreateSchema(schemas[n]));
      assert schemas == schemas[..n] + [schemas[n]];
      assert c.schemas + Elements(schemas[..n]) + {schemas[n]} == c.schemas + Elements(schemas);
    }
  }

  lemma {:induction false} OneBeforeOther(a: string, b: string)
    ensures Precedes(a, b) || Precedes(b, a) || a == b
    ensures !(Precedes(a, b) && Precedes(b, a)) && !Precedes(a, a)
  {
    if a != "" && b != "" && a[0] == b[0] {
      assert a == [a[0]] + a[1..] && b == [b[0]] + b[1..];
      OneBeforeOther(a[1..], b[1..]);
    }
    if a != "" {
      OneBeforeOther(a[1..], a[1..]);
    }
  }

  lemma {:induction false} BeforeWhatFollows(a: string, b: string, c: string)
    requires Precedes(a, b) && Precedes(b, c)
    ensures Precedes(a, c)
  {
    if a != "" && a[0] == b[0] == c[0] {
      BeforeWhatFollows(a[1..], b[1..], c[1..]);
    }
  }

  ghost predicate Alphabetical(names: seq<string>) {
    forall i, j :: 0 <= i < j < |names| ==> Precedes(names[i], names[j])
  }

  lemma {:induction false} PlacedAlphabetical(names: seq<string>, name: string)
    requires Alphabetical(names)
    ensures Alphabetical(Placed(names, name))
  {
    hide Precedes;
    if names == [] || name == names[0] {
    } else if Precedes(name, names[0]) {
      forall j | 1 <= j < |names| ensures Precedes(name, names[j]) {
        BeforeWhatFollows(name, names[0], names[j]);
      }
    } else {
      OneBeforeOther(name, names[0]);
      var rest := Placed(names[1..], name);
      PlacedAlphabetical(names[1..], name);
      forall j | 0 <= j < |rest| ensures Precedes(names[0], rest[j]) {
        assert rest[j] in rest;
        if rest[j] != name {
          var k :| 0 <= k < |names[1..]| && names[1..][k] == rest[j];
          assert names[k + 1] == rest[j];
        }
      }
    }
  }

  lemma {:induction false} InOrderAlphabetical(names: seq<string>)
    ensures Alphabetical(InOrder(names))
  {
    if names != [] {
      InOrderAlphabetical(names[..|names| - 1]);
      PlacedAlphabetical(InOrder(names[..|names| - 1]), names[|names| - 1]);
    }
  }

  /** Schemas and graphs are visited each once, by name. */
  lemma NamesInOrder(defs: seq<Def>)
    ensures Alphabetical(SchemaNames(defs)) && Alphabetical(GraphNames(defs))
    ensures forall i, j :: 0 <= i < j < |GraphNames(defs)| ==> GraphNames(defs)[i] != GraphNames(defs)[j]
  {
    InOrderAlphabetical(SchemaList(defs));
    InOrderAlphabetical(GraphList(defs));
    forall i, j | 0 <= i < j < |GraphNames(defs)| ensures GraphNames(defs)[i] != GraphNames(defs)[j] {
      OneBeforeOther(GraphNames(defs)[i], GraphNames(defs)[i]);
    }
  }

  lemma {:induction false} CreatedTables(defs: seq<Def>, live: set<string>)
    ensures live + Tables(Created(defs, live)) == live + Tables(defs)
    ensures forall d :: d in Created(defs, live) ==> d in defs && d.table !in live
  {
    if defs == [] {
      assert Tables([]) == {};
    } else {
      var n := |defs| - 1;
      assert defs == defs[..n] + [defs[n]];
      CreatedTables(defs[..n], live);
      assert Tables(defs) == Tables(defs[..n]) + {defs[n].table};
      var before := Created(defs[..n], live);
      assert Tables(before + [defs[n]]) == Tables(before) + {defs[n].table};
    }
  }

  // ---- exactly when every statement finds what it names -----------------------

  /** The tables there are once the first `i` have been created. */
  function TablesBefore(c: Catalog, created: seq<Def>, i: nat): set<string>
    requires i <= |created|
  {
    c.tables + Elements(Collections(created[..i]))
  }

  /** The table is new, its schema is there, and so is every table it refers to. */
  predicate TableFits(c: Catalog, created: seq<Def>, i: nat)
    requires i < |created|
  {
    var d, there := created[i], TablesBefore(c, created, i);
    && d.collection !in there
    && (SchemaOf(d.collection) == "" || SchemaOf(d.collection) in c.schemas)
    && AllIn(ReferredBy(d), there)
  }

  predicate TablesFit(c: Catalog, created: seq<Def>) {
    forall i :: 0 <= i < |created| ==> TableFits(c, created, i)
  }

  lemma OneMoreCollection(created: seq<Def>, d: Def)
    ensures Elements(Collections(created + [d])) == Elements(Collections(created)) + {d.collection}
  {
    assert Collections(created + [d]) == Collections(created) + [d.collection];
  }

  lemma CreateRuns(c: Catalog, created: seq<Def>, d: Def)
    ensures var next := Execute(c.(tables := TablesBefore(c, created, |created|)), CreateStatement(d));
      && (next.Some? <==> TableFits(c, created + [d], |created|))
      && (next.Some? ==> next.value == c.(tables := TablesBefore(c, created + [d], |created| + 1)))
  {
    hide SchemaOf;
    var all := created + [d];
    assert all[..|created|] == created && created[..|created|] == created && all[..|all|] == all;
    OneMoreCollection(created, d);
    assert c.tables + Elements(Collections(created)) + {d.collection} == c.tables + Elements(Collections(all));
  }

  lemma FitsInPrefix(c: Catalog, created: seq<Def>, d: Def)
    ensures TablesFit(c, created + [d]) <==> TablesFit(c, created) && TableFits(c, created + [d], |created|)
  {
    var all := created + [d];
    forall i | 0 <= i < |created| ensures TableFits(c, all, i) <==> TableFits(c, created, i) {
      assert all[..i] == created[..i];
    }
    if TablesFit(c, created) && TableFits(c, all, |created|) {
      forall i | 0 <= i < |all| ensures TableFits(c, all, i) {}
    }
    if TablesFit(c, all) {
      forall i | 0 <= i < |created| ensures TableFits(c, created, i) {
        assert TableFits(c, all, i);
      }
    }
  }

  /** Tables are created one after another without a refusal exactly when each fits. */
  lemma {:induction false} CreatesExactlyWhen(c: Catalog, created: seq<Def>)
    ensures var end := ExecuteAll(c, CreateStatements(created));
      && (end.ok <==> TablesFit(c, created))
      && (end.ok ==> end.catalog == c.(tables := c.tables + Elements(Collections(created))))
  {
    hide TableFits, Execute, CreateStatement;
    if created == [] {
      assert c.tables + Elements(Collections([])) == c.tables;
    } else {
      var rest, last := created[..|created| - 1], created[|created| - 1];
      assert created == rest + [last];
      CreatesExactlyWhen(c, rest);
      OneMore(c, CreateStatements(rest), CreateStatement(last));
      assert rest[..|rest|] == rest && created[..|created|] == created;
      CreateRuns(c, rest, last);
      hide TablesFit;
      FitsInPrefix(c, rest, last);
    }
  }

  lemma {:induction false} CreatedTwo(a: seq<Def>, b: seq<Def>, live: set<string>)
    ensures Created(a + b, live) == Created(a, live) + Created(b, live + Tables(Created(a, live)))
  {
    if b == [] {
      assert a + b == a;
    } else {
      hide Tables;
      var n := |b| - 1;
      assert (a + b)[..|a + b| - 1] == a + b[..n];
      CreatedTwo(a, b[..n], live);
      TablesTogether(Created(a, live), Created(b[..n], live + Tables(Created(a, live))));
    }
  }

  lemma TablesTogether(a: seq<Def>, b: seq<Def>)
    ensures Tables(a + b) == Tables(a) + Tables(b)
  {}

  lemma {:induction false} PartsOf(defs: seq<Def>)
    ensures forall d :: d in RowsOf(defs) <==> d in defs && d.edge.None?
    ensures forall d :: d in EdgesOf(defs) <==> d in defs && d.edge.Some?
    ensures Tables(Ordered(defs)) == Tables(defs)
  {
    if defs != [] {
      assert defs == defs[..|defs| - 1] + [defs[|defs| - 1]];
      PartsOf(defs[..|defs| - 1]);
    }
    assert forall d :: d in Ordered(defs) <==> d in defs;
  }

  predicate Declarable(c: Catalog, created: seq<Def>, graph: string) {
    var edges := InGraph(created, graph);
    AllIn(Ends(edges), c.tables) && AllIn(Collections(edges), c.tables)
  }

  /** The graph is there just in case it is taken to be, and so is every table it is declared over. */
  predicate GraphFits(c: Catalog, defs: seq<Def>, live: set<string>, created: seq<Def>, graph: string) {
    (graph in c.graphs <==> TakenToExist(defs, live, graph)) && Declarable(c, created, graph)
  }

  lemma GraphRuns(c: Catalog, declared: set<string>, defs: seq<Def>, live: set<string>, created: seq<Def>,
      graph: string)
    requires graph !in declared
    ensures var next := Execute(c.(graphs := c.graphs + declared), GraphStatement(defs, live, created, graph));
      && (next.Some? <==> GraphFits(c, defs, live, created, graph))
      && (next.Some? ==> next.value == c.(graphs := c.graphs + (declared + {graph})))
  {
    hide AllIn, TakenToExist, Ends, Collections;
    assert c.graphs + declared + {graph} == c.graphs + (declared + {graph});
    if graph in c.graphs {
      assert c.graphs + (declared + {graph}) == c.graphs + declared;
    }
  }

  lemma NamesMore(names: seq<string>, last: string)
    ensures Elements(names + [last]) == Elements(names) + {last}
  {}

  /** Graphs are declared one after another without a refusal exactly when each fits. */
  lemma {:induction false} GraphsRun(c: Catalog, defs: seq<Def>, live: set<string>, created: seq<Def>,
      graphs: seq<string>)
    requires forall i, j :: 0 <= i < j < |graphs| ==> graphs[i] != graphs[j]
    ensures var end := ExecuteAll(c, GraphStatements(defs, live, created, graphs));
      && (end.ok <==> forall g :: g in graphs ==> GraphFits(c, defs, live, created, g))
      && (end.ok ==> end.catalog == c.(graphs := c.graphs + Elements(graphs)))
  {
    hide GraphFits, Execute, GraphStatement;
    if graphs == [] {
      assert c.graphs + Elements([]) == c.graphs;
    } else {
      var rest, last := graphs[..|graphs| - 1], graphs[|graphs| - 1];
      assert graphs == rest + [last] && last !in rest;
      GraphsRun(c, defs, live, created, rest);
      OneMore(c, GraphStatements(defs, live, created, rest), GraphStatement(defs, live, created, last));
      GraphRuns(c, Elements(rest), defs, live, created, last);
      NamesMore(rest, last);
    }
  }

  /** What an application creates when it finds the tables `live`. */
  function ToCreate(live: set<string>, defs: seq<Def>): seq<Def> {
    Created(Ordered(defs), live)
  }

  function WithSchemas(c: Catalog, defs: seq<Def>): Catalog {
    c.(schemas := c.schemas + Elements(SchemaNames(defs)))
  }

  function WithTables(c: Catalog, live: set<string>, defs: seq<Def>): Catalog {
    WithSchemas(c, defs).(tables := c.tables + Elements(Collections(ToCreate(live, defs))))
  }

  function GraphsToDeclare(live: set<string>, defs: seq<Def>): seq<string> {
    GraphNames(EdgesOf(ToCreate(live, defs)))
  }

  predicate GraphsFit(c: Catalog, live: set<string>, defs: seq<Def>) {
    forall g :: g in GraphsToDeclare(live, defs) ==>
      GraphFits(WithTables(c, live, defs), defs, live, EdgesOf(ToCreate(live, defs)), g)
  }

  /** Each table to create fits, and then each graph to declare. */
  predicate Applicable(c: Catalog, live: set<string>, defs: seq<Def>) {
    TablesFit(WithSchemas(c, defs), ToCreate(live, defs)) && GraphsFit(c, live, defs)
  }

  lemma TablesRun(c: Catalog, live: set<string>, defs: seq<Def>)
    ensures var end := ExecuteAll(c, SchemaStatements(SchemaNames(defs)) + CreateStatements(ToCreate(live, defs)));
      && (end.ok <==> TablesFit(WithSchemas(c, defs), ToCreate(live, defs)))
      && (end.ok ==> end.catalog == WithTables(c, live, defs))
  {
    hide TablesFit, Created, CreateStatements;
    SchemasRun(c, SchemaNames(defs));
    CreatesExactlyWhen(WithSchemas(c, defs), ToCreate(live, defs));
    ExecuteTwo(c, SchemaStatements(SchemaNames(defs)), CreateStatements(ToCreate(live, defs)));
  }

  /**
   For every document and every database, whatever tables are taken to be there: no statement
   runs before what it names exists, and none creates what is there, exactly when each table and
   each graph fits.
   */
  lemma AppliesExactlyWhen(c: Catalog, live: set<string>, defs: seq<Def>)
    ensures var end := ExecuteAll(c, Plan(defs, live));
      && (end.ok <==> Applicable(c, live, defs))
      && (end.ok ==>
            end.catalog == WithTables(c, live, defs).(graphs := c.graphs + Elements(GraphsToDeclare(live, defs))))
  {
    hide TablesFit, GraphFits, Created, CreateStatements, SchemaStatements, GraphStatements;
    var created := ToCreate(live, defs);
    var first := SchemaStatements(SchemaNames(defs)) + CreateStatements(created);
    var graphs := GraphsToDeclare(live, defs);
    TablesRun(c, live, defs);
    ExecuteTwo(c, first, GraphStatements(defs, live, EdgesOf(created), graphs));
    NamesInOrder(EdgesOf(created));
    GraphsRun(WithTables(c, live, defs), defs, live, EdgesOf(created), graphs);
  }

  // ---- the tables found -------------------------------------------------------

  /** The canonical names of the tables there are, as an application looks them up. */
  function Found(c: Catalog): set<string> {
    set t | t in c.tables && QualifiedSlug(t) != "" :: QualifiedSlug(t)
  }

  ghost predicate CanonicalNames(c: Catalog) {
    forall t :: t in c.tables ==> t != "" && QualifiedSlug(t) == t
  }

  lemma CanonicalNamesAreFound(c: Catalog)
    requires CanonicalNames(c)
    ensures Found(c) == c.tables
  {}

  // ---- reference-closed documents ---------------------------------------------

  /** Every table is created under the name it is looked up by. */
  ghost predicate Named(defs: seq<Def>) {
    forall d :: d in defs ==> d.collection == d.table
  }

  ghost predicate ReferencesIn(def: Def, pool: set<string>) {
    def.edge.Some? ==>
      && AllIn(ReferredBy(def), pool)
      && AllIn(NonBlank(def.edge.value.sourceTable), pool) && AllIn(NonBlank(def.edge.value.destinationTable), pool)
  }

  /** Edge tables refer to tables of rows of the document, or to tables already there. */
  ghost predicate ReferenceClosed(defs: seq<Def>, live: set<string>) {
    forall d :: d in defs ==> ReferencesIn(d, live + Tables(RowsOf(defs)))
  }

  /** The application's guess about each graph it declares is right. */
  ghost predicate GraphsAgree(c: Catalog, defs: seq<Def>) {
    forall g :: g in GraphsToDeclare(c.tables, defs) ==> (g in c.graphs <==> TakenToExist(defs, c.tables, g))
  }

  ghost predicate SchemaStands(c: Catalog, defs: seq<Def>, d: Def) {
    SchemaOf(d.collection) == "" || SchemaOf(d.collection) in c.schemas || SchemaOf(d.collection) in SchemaNames(defs)
  }

  /** The schema each new table's name says is there, or named by some table of the document. */
  ghost predicate SchemasStand(c: Catalog, defs: seq<Def>) {
    forall d :: d in ToCreate(c.tables, defs) ==> SchemaStands(c, defs, d)
  }

  lemma CollectionsAreTables(defs: seq<Def>)
    requires Named(defs)
    ensures Elements(Collections(defs)) == Tables(defs)
  {
    forall n | n in Elements(Collections(defs)) ensures n in Tables(defs) {
      var i :| 0 <= i < |defs| && Collections(defs)[i] == n;
      assert defs[i] in defs;
    }
    forall n | n in Tables(defs) ensures n in Elements(Collections(defs)) {
      var d :| d in defs && d.table == n;
      var i :| 0 <= i < |defs| && defs[i] == d;
      assert Collections(defs)[i] == n;
    }
  }

  lemma TablesOfPrefix(a: seq<Def>, b: seq<Def>)
    requires a <= b
    ensures Tables(a) <= Tables(b)
  {
    assert forall i :: 0 <= i < |a| ==> a[i] == b[i];
  }

  lemma NewRowsAreRows(defs: seq<Def>, live: set<string>)
    ensures forall i :: 0 <= i < |Created(RowsOf(defs), live)| ==> Created(RowsOf(defs), live)[i].edge.None?
  {
    var rows := Created(RowsOf(defs), live);
    PartsOf(defs);
    CreatedTables(RowsOf(defs), live);
    hide Created, RowsOf;
    forall i | 0 <= i < |rows| ensures rows[i].edge.None? {
      assert rows[i] in rows;
    }
  }

  /** Before the first edge table is created, every table of rows is there. */
  lemma RowsComeFirst(defs: seq<Def>, live: set<string>, i: nat)
    requires i < |Created(Ordered(defs), live)| && Created(Ordered(defs), live)[i].edge.Some?
    ensures Tables(RowsOf(defs)) <= live + Tables(Created(Ordered(defs), live)[..i])
  {
    hide Created, RowsOf, EdgesOf, Tables;
    var rows := Created(RowsOf(defs), live);
    var created := Created(Ordered(defs), live);
    CreatedTwo(RowsOf(defs), EdgesOf(defs), live);
    NewRowsAreRows(defs, live);
    assert |rows| <= i;
    CreatedTables(RowsOf(defs), live);
    assert created[..i][..|rows|] == rows;
    TablesOfPrefix(rows, created[..i]);
  }

  /** What is created is in the document, is not there, and is created once. */
  lemma NewTable(c: Catalog, defs: seq<Def>, i: nat)
    requires Named(defs) && i < |ToCreate(c.tables, defs)|
    ensures var created := ToCreate(c.tables, defs);
      && created[i] in defs && created[i].collection !in TablesBefore(WithSchemas(c, defs), created, i)
      && TablesBefore(WithSchemas(c, defs), created, i) == c.tables + Tables(created[..i])
  {
    var created := ToCreate(c.tables, defs);
    CreatedTables(Ordered(defs), c.tables);
    CreatedOnce(Ordered(defs), c.tables);
    OrderedMembers(defs);
    hide Created, Ordered;
    assert created[i] in created;
    forall j | 0 <= j < i ensures created[j] in defs && created[j].table != created[i].table {
      assert created[j] in created;
    }
    assert forall x :: x in created[..i] ==> x in defs;
    CollectionsAreTables(created[..i]);
  }

  lemma ClosedTableFits(c: Catalog, defs: seq<Def>, i: nat)
    requires Named(defs) && ReferenceClosed(defs, c.tables) && i < |ToCreate(c.tables, defs)|
    ensures TableFits(WithSchemas(c, defs), ToCreate(c.tables, defs), i)
        <==> SchemaStands(c, defs, ToCreate(c.tables, defs)[i])
  {
    hide Named, TablesBefore, Tables, SchemaOf, SchemaNames, RowsOf;
    var created := ToCreate(c.tables, defs);
    var d := created[i];
    NewTable(c, defs, i);
    if d.edge.Some? {
      RowsComeFirst(defs, c.tables, i);
      assert ReferencesIn(d, c.tables + Tables(RowsOf(defs)));
    }
  }

  /** Every new table is in the document, and its collection is there afterwards. */
  lemma NewTables(c: Catalog, defs: seq<Def>)
    requires Named(defs)
    ensures forall d :: d in ToCreate(c.tables, defs) ==> d in defs
    ensures WithTables(c, c.tables, defs).tables == c.tables + Tables(defs)
  {
    PartsOf(defs);
    OrderedMembers(defs);
    CreatedTables(Ordered(defs), c.tables);
    hide Created, Ordered;
    assert forall d :: d in ToCreate(c.tables, defs) ==> d in defs;
    CollectionsAreTables(ToCreate(c.tables, defs));
  }

  lemma ClosedDeclarable(c: Catalog, defs: seq<Def>, graph: string)
    requires Named(defs) && ReferenceClosed(defs, c.tables)
    ensures Declarable(WithTables(c, c.tables, defs), EdgesOf(ToCreate(c.tables, defs)), graph)
  {
    var there := WithTables(c, c.tables, defs).tables;
    var created := ToCreate(c.tables, defs);
    var edges := InGraph(EdgesOf(created), graph);
    NewTables(c, defs);
    PartsOf(created);
    PartsOf(defs);
    hide ToCreate, EdgesOf, InGraph, RowsOf, WithTables;
    assert forall d :: d in edges ==> d in defs && d.collection in there;
    assert Tables(RowsOf(defs)) <= there;
    CollectionsWithin(edges, there);
    EndsWithin(edges, defs, c.tables, there);
  }

  lemma CollectionsWithin(edges: seq<Def>, there: set<string>)
    requires forall d :: d in edges ==> d.collection in there
    ensures AllIn(Collections(edges), there)
  {
    forall n | n in Collections(edges) ensures n in there {
      var i :| 0 <= i < |edges| && Collections(edges)[i] == n;
      assert edges[i] in edges;
    }
  }

  lemma EndsWithin(edges: seq<Def>, defs: seq<Def>, live: set<string>, there: set<string>)
    requires ReferenceClosed(defs, live) && live + Tables(RowsOf(defs)) <= there
    requires forall d :: d in edges ==> d in defs
    ensures AllIn(Ends(edges), there)
  {
    hide Tables, RowsOf, ReferencesIn, EndsOf;
    forall t | t in Ends(edges) ensures t in there {
      var d :| d in edges && t in EndsOf(d);
      EndIn(d, live + Tables(RowsOf(defs)), t);
    }
  }

  lemma EndIn(d: Def, pool: set<string>, t: string)
    requires ReferencesIn(d, pool) && t in EndsOf(d)
    ensures t in pool
  {
    hide ReferredBy;
  }

  lemma ClosedTablesFit(c: Catalog, defs: seq<Def>)
    requires Named(defs) && ReferenceClosed(defs, c.tables)
    ensures TablesFit(WithSchemas(c, defs), ToCreate(c.tables, defs)) <==> SchemasStand(c, defs)
  {
    hide Named, ReferenceClosed, TableFits, SchemaStands, ToCreate;
    var created := ToCreate(c.tables, defs);
    forall i | 0 <= i < |created|
      ensures TableFits(WithSchemas(c, defs), created, i) <==> SchemaStands(c, defs, created[i])
    {
      ClosedTableFits(c, defs, i);
    }
    if TablesFit(WithSchemas(c, defs), created) {
      forall d | d in created ensures SchemaStands(c, defs, d) {
        var i :| 0 <= i < |created| && created[i] == d;
      }
    }
  }

  /**
   A document whose tables are created under their own names and refer only to its own tables of
   rows or to existing tables runs to its end exactly when every new table's schema stands and
   every guess about a graph is right.
   */
  lemma ClosedAppliesExactlyWhen(c: Catalog, defs: seq<Def>)
    requires Named(defs) && ReferenceClosed(defs, c.tables)
    ensures ExecuteAll(c, Plan(defs, c.tables)).ok <==> SchemasStand(c, defs) && GraphsAgree(c, defs)
  {
    hide Named, ReferenceClosed, TablesFit, SchemasStand, Declarable, TakenToExist, Plan;
    AppliesExactlyWhen(c, c.tables, defs);
    ClosedTablesFit(c, defs);
    forall g ensures Declarable(WithTables(c, c.tables, defs), EdgesOf(ToCreate(c.tables, defs)), g) {
      ClosedDeclarable(c, defs, g);
    }
  }

  /**
   A table of rows whose name says a schema that is not there and that is not the schema declared
   for it: the document is reference-closed, no guess about a graph is wrong, and it is refused.
   */
  lemma MisnamedSchemaFails(c: Catalog, d: Def)
    requires d.edge.None? && d.collection == d.table && d.table !in c.tables
    requires SchemaOf(d.table) != "" && SchemaOf(d.table) != d.schema && SchemaOf(d.table) !in c.schemas
    ensures Named([d]) && ReferenceClosed([d], c.tables) && GraphsAgree(c, [d])
    ensures !ExecuteAll(c, Plan([d], c.tables)).ok
  {
    OneTable(c, d);
    assert !SchemaStands(c, [d], d);
    assert d in ToCreate(c.tables, [d]);
    hide SchemaStands, ToCreate, GraphsToDeclare, Plan, TakenToExist;
    ClosedAppliesExactlyWhen(c, [d]);
  }

  lemma OneTable(c: Catalog, d: Def)
    requires d.edge.None? && d.table !in c.tables
    ensures ToCreate(c.tables, [d]) == [d] && GraphsToDeclare(c.tables, [d]) == []
  {
    assert [d][..0] == [] && Created([], c.tables) == [] && RowsOf([]) == [] && EdgesOf([]) == [];
    assert RowsOf([d]) == [d] && EdgesOf([d]) == [] && Ordered([d]) == [d];
    assert Tables([]) == {} && GraphList([]) == [];
  }

  /** `geo.places` declared with the schema `other`, in an empty database. */
  lemma GeoPlacesFails()
    ensures !ExecuteAll(Catalog({}, {}, {}), Plan([Def("geo.places", "geo.places", "other", [], None)], {})).ok
  {
    hide SchemaOf, Plan, ExecuteAll;
    GeoIsSchema();
    MisnamedSchemaFails(Catalog({}, {}, {}), Def("geo.places", "geo.places", "other", [], None));
  }

  lemma GeoIsSchema()
    ensures SchemaOf("geo.places") == "geo"
  {
    assert "geo.places"[1..] == "eo.places" && "eo.places"[1..] == "o.places" && "o.places"[1..] == ".places";
    assert "geo.places"[3] == '.';
  }

  // ---- names --------------------------------------------------------------

  lemma {:induction false} NamesAccounted(defs: seq<Def>, live: set<string>)
    ensures multiset(Created(defs, live)) + multiset(Skipped(defs, live)) == multiset(defs)
  {
    if defs != [] {
      var n := |defs| - 1;
      assert defs == defs[..n] + [defs[n]];
      NamesAccounted(defs[..n], live);
    }
  }

  lemma {:induction false} OrderedKeeps(defs: seq<Def>)
    ensures multiset(RowsOf(defs)) + multiset(EdgesOf(defs)) == multiset(defs)
  {
    if defs != [] {
      var n := |defs| - 1;
      assert defs == defs[..n] + [defs[n]];
      OrderedKeeps(defs[..n]);
    }
  }

  lemma {:induction false} CreatedOnce(defs: seq<Def>, live: set<string>)
    ensures forall i, j :: 0 <= i < j < |Created(defs, live)| ==>
        Created(defs, live)[i].table != Created(defs, live)[j].table
  {
    if defs != [] { CreatedOnce(defs[..|defs| - 1], live); }
  }

  lemma {:induction false} SkippedWereThere(defs: seq<Def>, live: set<string>)
    ensures forall d :: d in Skipped(defs, live) ==> d.table in live + Tables(Created(defs, live))
  {
    if defs != [] {
      SkippedWereThere(defs[..|defs| - 1], live);
    }
  }

  /**
   Every table of the document is created or skipped, none both and none twice:
   created names are new and distinct, skipped names were there or had just been created.
   */
  lemma CreatedPlusSkipped(defs: seq<Def>, live: set<string>)
    ensures var created, skipped := Created(Ordered(defs), live), Skipped(Ordered(defs), live);
      && multiset(created) + multiset(skipped) == multiset(defs)
      && (forall i, j :: 0 <= i < j < |created| ==> created[i].table != created[j].table)
      && (forall d :: d in created ==> d.table !in live)
      && (forall d :: d in skipped ==> d.table in live + Tables(created))
  {
    NamesAccounted(Ordered(defs), live);
    OrderedKeeps(defs);
    CreatedOnce(Ordered(defs), live);
    CreatedTables(Ordered(defs), live);
    SkippedWereThere(Ordered(defs), live);
  }

  // ---- a second application -----------------------------------------------

  lemma NothingCreated(defs: seq<Def>, live: set<string>)
    ensures Created(defs, live) == [] <==> Tables(defs) <= live
  {
    CreatedTables(defs, live);
    if Created(defs, live) == [] {
      assert Tables([]) == {};
    } else {
      var d := Created(defs, live)[0];
      assert d in Created(defs, live) && d.table in Tables(defs);
    }
  }

  lemma NamedAreFound(c: Catalog, defs: seq<Def>)
    requires Named(defs)
    ensures Tables(defs) <= WithTables(c, c.tables, defs).tables
  {
    NewTables(c, defs);
  }

  /** With more tables found, less is created. */
  lemma {:induction false} MoreFoundLessCreated(defs: seq<Def>, live: set<string>, more: set<string>)
    requires live <= more
    ensures forall d :: d in Created(defs, more) ==> d in Created(defs, live)
  {
    if defs != [] {
      var rest, last := defs[..|defs| - 1], defs[|defs| - 1];
      MoreFoundLessCreated(rest, live, more);
      CreatedTables(rest, live);
      CreatedTables(rest, more);
      assert last.table in live + Tables(Created(rest, live)) <==> last.table in live + Tables(rest);
      assert last.table in more + Tables(Created(rest, more)) <==> last.table in more + Tables(rest);
    }
  }

  lemma NothingToCreate(c: Catalog, live: set<string>, defs: seq<Def>)
    requires ToCreate(live, defs) == []
    ensures Plan(defs, live) == SchemaStatements(SchemaNames(defs))
    ensures ExecuteAll(c, Plan(defs, live)) == Outcome(WithSchemas(c, defs), true)
  {
    assert EdgesOf([]) == [] && GraphList([]) == [] && GraphNames([]) == [];
    assert CreateStatements([]) == [] && GraphStatements(defs, live, [], []) == [];
    assert SchemaStatements(SchemaNames(defs)) + [] + [] == SchemaStatements(SchemaNames(defs));
    SchemasRun(c, SchemaNames(defs));
  }

  lemma FirstIsThere(c: Catalog, live: set<string>, defs: seq<Def>, after: Catalog, again: set<string>)
    requires after.tables == WithTables(c, live, defs).tables && live <= again && ToCreate(again, defs) != []
    ensures !Applicable(after, again, defs)
  {
    var created, repeated := ToCreate(live, defs), ToCreate(again, defs);
    MoreFoundLessCreated(Ordered(defs), live, again);
    assert repeated[0] in repeated && repeated[0] in created;
    var i :| 0 <= i < |created| && created[i] == repeated[0];
    assert Collections(created)[i] == repeated[0].collection;
    assert repeated[0].collection in TablesBefore(WithSchemas(after, defs), repeated, 0);
    assert !TableFits(WithSchemas(after, defs), repeated, 0);
  }

  /**
   Applied again after a first application that ran to its end, and finding at least the tables
   the first one found, a document is refused nothing exactly when all its tables are found; it
   then creates nothing, declares no graph, and leaves the database as it is.
   */
  lemma SecondApplication(c: Catalog, live: set<string>, defs: seq<Def>, again: set<string>)
    requires Applicable(c, live, defs) && live <= again
    ensures var after := ExecuteAll(c, Plan(defs, live)).catalog;
      && (ExecuteAll(after, Plan(defs, again)).ok <==> Tables(defs) <= again)
      && (Tables(defs) <= again ==>
            && ToCreate(again, defs) == []
            && Plan(defs, again) == SchemaStatements(SchemaNames(defs))
            && ExecuteAll(after, Plan(defs, again)) == Outcome(after, true))
  {
    hide Applicable, Plan, Created;
    AppliesExactlyWhen(c, live, defs);
    var after := ExecuteAll(c, Plan(defs, live)).catalog;
    PartsOf(defs);
    NothingCreated(Ordered(defs), again);
    if Tables(defs) <= again {
      NothingToCreate(after, again, defs);
      assert after.schemas + Elements(SchemaNames(defs)) == after.schemas;
    } else {
      FirstIsThere(c, live, defs, after, again);
      AppliesExactlyWhen(after, again, defs);
    }
  }

  /** What the database lists only grows, so the second application finds what the first one found. */
  lemma FoundGrows(c: Catalog, defs: seq<Def>)
    requires Applicable(c, Found(c), defs)
    ensures Found(c) <= Found(ExecuteAll(c, Plan(defs, Found(c))).catalog)
  {
    hide Applicable, Plan, QualifiedSlug;
    AppliesExactlyWhen(c, Found(c), defs);
  }

  ghost predicate DistinctTables(defs: seq<Def>) {
    forall i, j :: 0 <= i < j < |defs| ==> defs[i].table != defs[j].table
  }

  /** The names the database lists after the tables of a first application were created. */
  function LiveAfter(defs: seq<Def>, live: set<string>): set<string> {
    live + Elements(Collections(Created(Ordered(defs), live)))
  }

  /**
   Whatever was there before, a second application finds nothing to create exactly
   when every table is created under the name it is looked up by.
   */
  lemma SecondCreatesNothingIff(defs: seq<Def>)
    requires DistinctTables(defs)
    ensures (forall live :: Created(Ordered(defs), LiveAfter(defs, live)) == [])
        <==> (forall d :: d in defs ==> d.collection == d.table)
  {
    PartsOf(defs);
    if d :| d in defs && d.collection != d.table {
      OnlyOneMissing(defs, d);
    } else {
      forall live ensures Created(Ordered(defs), LiveAfter(defs, live)) == [] {
        EverythingListed(defs, live);
        NothingCreated(Ordered(defs), LiveAfter(defs, live));
      }
    }
  }

  lemma OrderedMembers(defs: seq<Def>)
    ensures forall d :: d in Ordered(defs) <==> d in defs
  {
    PartsOf(defs);
  }

  lemma EverythingListed(defs: seq<Def>, live: set<string>)
    requires forall d :: d in defs ==> d.collection == d.table
    ensures Tables(Ordered(defs)) <= LiveAfter(defs, live)
  {
    hide Created, Ordered;
    var created := Created(Ordered(defs), live);
    OrderedMembers(defs);
    CreatedTables(Ordered(defs), live);
    forall t | t in Tables(Ordered(defs)) ensures t in LiveAfter(defs, live) {
      assert t in live + Tables(created);
      if t !in live {
        var d :| d in created && d.table == t;
        var i :| 0 <= i < |created| && created[i] == d;
        assert Collections(created)[i] == t;
      }
    }
  }

  lemma OnlyOneMissing(defs: seq<Def>, d: Def)
    requires DistinctTables(defs) && d in defs && d.collection != d.table
    ensures exists live :: Created(Ordered(defs), LiveAfter(defs, live)) != []
  {
    var live := Tables(defs) - {d.table};
    var created := Created(Ordered(defs), live);
    PartsOf(defs);
    CreatedTables(Ordered(defs), live);
    forall n | n in Collections(created) ensures n != d.table {
      var i :| 0 <= i < |created| && Collections(created)[i] == n;
      assert created[i] in created && created[i] in defs && created[i].table == d.table;
      var j :| 0 <= j < |defs| && defs[j] == created[i];
      var k :| 0 <= k < |defs| && defs[k] == d;
      assert created[i] == d;
    }
    assert d.table !in LiveAfter(defs, live);
    NothingCreated(Ordered(defs), LiveAfter(defs, live));
    assert d.table in Tables(Ordered(defs));
  }
}
