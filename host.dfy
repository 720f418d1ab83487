/**
 * The host platform as the plugin sees it: the database behind `$wpdb`
 * (a list of tables, as SHOW TABLES gives it, and each table's ordered
 * column list) and the options store (get_option, add_option,
 * update_option, delete_option). Every statement sent to the database is
 * recorded in `issued`, so that contracts can say which statements ran.
 *
 * A statement the database rejects changes nothing: adding a column that
 * is there already, dropping one that is not, altering a missing table,
 * creating a table that exists.
 */
module Host {
  import opened Wrappers
  import opened DdlName

  datatype ColumnType = Int | VarChar(length: nat) | Date | TinyInt(width: nat)

  datatype Column = Column(name: string, kind: ColumnType)

  /** The two kinds of ALTER TABLE the plugin issues. */
  datatype Change = AddColumn(column: Column) | DropColumn(name: string)

  /**
   * A statement sent with `$wpdb->query`. `declared` stands for the column
   * list written in a CREATE TABLE statement's text, which is not parsed.
   */
  datatype Query = Create(ddl: string, declared: seq<Column>) | Alter(table: string, change: Change)

  /** An option's value: the schema version is a number, the settings are text. */
  datatype Value = Num(n: int) | Text(s: string)

  datatype Store = Store(
    tables: seq<string>,
    columns: map<string, seq<Column>>,
    options: map<string, Value>,
    issued: seq<Query>)

  /** The column names of a table, in order. */
  function Names(cols: seq<Column>): (r: seq<string>)
    ensures |r| == |cols|
    ensures forall i :: 0 <= i < |cols| ==> r[i] == cols[i].name
  {
    if cols == [] then [] else [cols[0].name] + Names(cols[1..])
  }

  /** The table without its column called `name` (unchanged when there is none). */
  function Without(cols: seq<Column>, name: string): seq<Column> {
    if cols == [] then []
    else if cols[0].name == name then Without(cols[1..], name)
    else [cols[0]] + Without(cols[1..], name)
  }

  /** DROP COLUMN removes every column of that name and keeps the rest; without one it changes nothing. */
  lemma {:induction false} WithoutEffect(cols: seq<Column>, name: string)
    ensures forall c :: c in Without(cols, name) <==> c in cols && c.name != name
    ensures name !in Names(cols) ==> Without(cols, name) == cols
  {
    if cols != [] {
      WithoutEffect(cols[1..], name);
      assert cols == [cols[0]] + cols[1..];
      assert Names(cols) == [cols[0].name] + Names(cols[1..]);
    }
  }

  /** The effect of one ALTER TABLE on a table's columns. */
  function ApplyChange(cols: seq<Column>, ch: Change): seq<Column> {
    match ch
    case AddColumn(c) => if c.name in Names(cols) then cols else cols + [c]
    case DropColumn(n) => Without(cols, n)
  }

  /** The effect of ALTER TABLE statements run one after another, first to last. */
  function ApplyChanges(cols: seq<Column>, chs: seq<Change>): seq<Column> {
    if chs == [] then cols else ApplyChange(ApplyChanges(cols, chs[..|chs| - 1]), chs[|chs| - 1])
  }

  /** ALTER TABLE ... ADD COLUMN for each column, in order. */
  function AddAll(cols: seq<Column>): (r: seq<Change>)
    ensures |r| == |cols|
    ensures forall i :: 0 <= i < |cols| ==> r[i] == AddColumn(cols[i])
  {
    if cols == [] then [] else AddAll(cols[..|cols| - 1]) + [AddColumn(cols[|cols| - 1])]
  }

  /** No two columns share a name. */
  predicate DistinctNames(cols: seq<Column>) {
    forall i, j :: 0 <= i < j < |cols| ==> cols[i].name != cols[j].name
  }

  lemma NamesIn(cols: seq<Column>, x: string)
    ensures x in Names(cols) <==> exists c :: c in cols && c.name == x
  {
    if x in Names(cols) {
      var i :| 0 <= i < |cols| && Names(cols)[i] == x;
      assert cols[i] in cols;
    }
  }

  lemma NamesAppend(a: seq<Column>, b: seq<Column>)
    ensures Names(a + b) == Names(a) + Names(b)
  {
    assert forall i :: 0 <= i < |a + b| ==> Names(a + b)[i] == (Names(a) + Names(b))[i];
  }

  /** Dropping a column from a table made of two parts drops it from each. */
  lemma {:induction false} WithoutAppend(a: seq<Column>, b: seq<Column>, name: string)
    ensures Without(a + b, name) == Without(a, name) + Without(b, name)
  {
    if a == [] {
      assert a + b == b;
    } else {
      assert (a + b)[0] == a[0] && (a + b)[1..] == a[1..] + b;
      WithoutAppend(a[1..], b, name);
      if a[0].name != name {
        assert Without(a + b, name) == [a[0]] + Without(a[1..] + b, name);
      }
    }
  }

  /** Running two lists of changes one after the other is running their concatenation. */
  lemma {:induction false} ApplyChangesAppend(cols: seq<Column>, a: seq<Change>, b: seq<Change>)
    ensures ApplyChanges(cols, a + b) == ApplyChanges(ApplyChanges(cols, a), b)
    decreases |b|
  {
    if b == [] {
      assert a + b == a;
    } else {
      assert (a + b)[..|a + b| - 1] == a + b[..|b| - 1];
      ApplyChangesAppend(cols, a, b[..|b| - 1]);
    }
  }

  /**
   * Adding columns whose names are new and distinct appends them: no
   * ADD COLUMN is refused as a duplicate.
   */
  lemma {:induction false} AddAllNew(cols: seq<Column>, news: seq<Column>)
    requires DistinctNames(news)
    requires forall c :: c in news ==> c.name !in Names(cols)
    ensures ApplyChanges(cols, AddAll(news)) == cols + news
    decreases |news|
  {
    if news != [] {
      var init, last := news[..|news| - 1], news[|news| - 1];
      assert AddAll(news)[..|news| - 1] == AddAll(init);
      AddAllNew(cols, init);
      NamesAppend(cols, init);
      NamesIn(init, last.name);
      assert last.name !in Names(cols + init);
      assert cols + init + [last] == cols + news;
    }
  }

  /**
   * ADD COLUMN for each column: afterwards a name is in the table exactly
   * when it was there before or is one of the added columns' names.
   */
  lemma {:induction false} AddAllNames(cols: seq<Column>, news: seq<Column>, x: string)
    ensures x in Names(ApplyChanges(cols, AddAll(news))) <==> x in Names(cols) || x in Names(news)
    decreases |news|
  {
    if news != [] {
      var init, last := news[..|news| - 1], news[|news| - 1];
      var before := ApplyChanges(cols, AddAll(init));
      assert AddAll(news)[..|news| - 1] == AddAll(init);
      AddAllNames(cols, init, x);
      NamesAppend(before, [last]);
      assert init + [last] == news;
      NamesAppend(init, [last]);
    }
  }

  /** Adding columns whose names are all there already changes nothing: each ADD COLUMN is refused. */
  lemma {:induction false} AddAllPresent(cols: seq<Column>, news: seq<Column>)
    requires forall c :: c in news ==> c.name in Names(cols)
    ensures ApplyChanges(cols, AddAll(news)) == cols
    decreases |news|
  {
    if news != [] {
      var init := news[..|news| - 1];
      assert AddAll(news)[..|news| - 1] == AddAll(init);
      AddAllPresent(cols, init);
    }
  }

  function Lookup(options: map<string, Value>, key: string): Option<Value> {
    if key in options then Some(options[key]) else None
  }

  /** add_option: sets the value only when the key is absent. */
  function AddIfAbsent(options: map<string, Value>, key: string, v: Value): (r: map<string, Value>)
    ensures key in r
    ensures forall k :: k in options ==> k in r && r[k] == options[k]
    ensures forall k :: k in r && k !in options ==> k == key && r[k] == v
  {
    if key in options then options else options[key := v]
  }

  /**
   * Running a CREATE TABLE statement. The created table is named by the
   * word the name pattern captures from the statement. For a statement such
   * as `CREATE TABLE IF NOT EXISTS t (...)` that word ("IF") is not the
   * table the database would create; such statements are outside this
   * model. `accepted` is false when the database refuses the statement for
   * a reason outside this model (a syntax error, a missing privilege).
   */
  function AfterCreate(s: Store, ddl: string, declared: seq<Column>, accepted: bool): Store {
    var s' := s.(issued := s.issued + [Create(ddl, declared)]);
    match ExtractTableName(ddl)
    case Some(n) =>
      if accepted && n !in s.tables
      then s'.(tables := s.tables + [n], columns := s.columns[n := declared])
      else s'
    case None => s'
  }

  /** Running ALTER TABLE `table` with one change. */
  function AfterAlter(s: Store, table: string, ch: Change): Store {
    s.(columns := if table in s.columns then s.columns[table := ApplyChange(s.columns[table], ch)] else s.columns,
       issued := s.issued + [Alter(table, ch)])
  }

  /** The statements ALTER TABLE `table` with each change, in order. */
  function Alters(table: string, chs: seq<Change>): (r: seq<Query>)
    ensures |r| == |chs|
    ensures forall i :: 0 <= i < |chs| ==> r[i] == Alter(table, chs[i])
  {
    if chs == [] then [] else Alters(table, chs[..|chs| - 1]) + [Alter(table, chs[|chs| - 1])]
  }

  /** Issuing ALTER TABLE `table` with each change, one after another. */
  function AlterAll(s: Store, table: string, chs: seq<Change>): Store {
    if chs == [] then s else AfterAlter(AlterAll(s, table, chs[..|chs| - 1]), table, chs[|chs| - 1])
  }

  /** Issuing the changes alters only `table`, leaves the options alone, and logs exactly those statements. */
  lemma {:induction false} AlterAllEffect(s: Store, table: string, chs: seq<Change>)
    ensures AlterAll(s, table, chs).tables == s.tables && AlterAll(s, table, chs).options == s.options
    ensures AlterAll(s, table, chs).issued == s.issued + Alters(table, chs)
    ensures table in s.columns ==>
      AlterAll(s, table, chs).columns == s.columns[table := ApplyChanges(s.columns[table], chs)]
    ensures table !in s.columns ==> AlterAll(s, table, chs).columns == s.columns
  {
    if chs != [] {
      AlterAllEffect(s, table, chs[..|chs| - 1]);
    }
  }

  /** The table list and the column map agree: a table has columns exactly when SHOW TABLES lists it. */
  ghost predicate Consistent(s: Store) {
    forall t :: t in s.tables <==> t in s.columns
  }

  /** A CREATE TABLE keeps the table list and the column map in step. */
  lemma CreateKeepsConsistent(s: Store, ddl: string, declared: seq<Column>, accepted: bool)
    requires Consistent(s)
    ensures Consistent(AfterCreate(s, ddl, declared, accepted))
  {
  }

  /** ALTERs never add or remove a table, so they keep the table list and the column map in step. */
  lemma AlterAllKeepsConsistent(s: Store, table: string, chs: seq<Change>)
    requires Consistent(s)
    ensures Consistent(AlterAll(s, table, chs))
  {
    AlterAllEffect(s, table, chs);
  }

  /** The state WordPress keeps: `$wpdb`'s database and the options table. */
  class Site {
    var tables: seq<string>
    var columns: map<string, seq<Column>>
    var options: map<string, Value>
    var issued: seq<Query>

    function State(): Store
      reads this
    {
      Store(tables, columns, options, issued)
    }

    constructor (s: Store)
      ensures State() == s
    {
      tables, columns, options, issued := s.tables, s.columns, s.options, s.issued;
    }

    /** `$wpdb->get_col("SHOW TABLES", 0)` */
    method ShowTables() returns (names: seq<string>)
      ensures names == tables
    {
      names := tables;
    }

    /** `$wpdb->query($ddl)` for a CREATE TABLE statement. */
    method ExecuteCreate(ddl: string, declared: seq<Column>, accepted: bool)
      modifies this
      ensures State() == AfterCreate(old(State()), ddl, declared, accepted)
    {
      issued := issued + [Create(ddl, declared)];
      match ExtractTableName(ddl)
      case Some(n) =>
        if accepted && n !in tables {
          tables := tables + [n];
          columns := columns[n := declared];
        }
      case None =>
    }

    /** `$wpdb->query("ALTER TABLE ...")` */
    method ExecuteAlter(table: string, ch: Change)
      modifies this
      ensures State() == AfterAlter(old(State()), table, ch)
    {
      if table in columns {
        columns := columns[table := ApplyChange(columns[table], ch)];
      }
      issued := issued + [Alter(table, ch)];
    }

    /** get_option / get_site_option: None stands for the `false` WordPress returns. */
    method GetOption(key: string) returns (v: Option<Value>)
      ensures v == Lookup(options, key)
    {
      v := if key in options then Some(options[key]) else None;
    }

    /** add_option: does nothing when the option exists. */
    method AddOption(key: string, v: Value)
      modifies this
      ensures State() == old(State()).(options := AddIfAbsent(old(options), key, v))
    {
      if key !in options {
        options := options[key := v];
      }
    }

    /** update_option: sets the value whether or not the option exists. */
    method UpdateOption(key: string, v: Value)
      modifies this
      ensures State() == old(State()).(options := old(options)[key := v])
    {
      options := options[key := v];
    }

    /** delete_option */
    method DeleteOption(key: string)
      modifies this
      ensures State() == old(State()).(options := old(options) - {key})
    {
      options := options - {key};
    }
  }
}
