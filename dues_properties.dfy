/**
 * What the plugin promises about its schema lifecycle, proved of the
 * specification functions in DuesSchema (and so, through their contracts,
 * of the methods in DuesLookup).
 */
module DuesProperties {
  import opened Wrappers
  import opened DdlName
  import opened Host
  import opened DuesSchema

  /**
   * A statement that opens with the keyword and one white-space character,
   * then a word, then white space, names that word.
   */
  lemma NameAfterKeyword(head: string, name: string, body: string)
    requires |head| == |Keyword| + 1 && KeywordAt(head, 0) && IsSpace(head[|Keyword|])
    requires |name| > 0 && IsWordString(name)
    requires |body| > 0 && IsSpace(body[0])
    ensures ExtractTableName(head + name + body) == Some(name)
  {
    var s := head + name + body;
    var j, k := |head|, |head| + |name|;
    assert forall x :: 0 <= x < |head| ==> s[x] == head[x];
    assert forall x :: 0 <= x < |name| ==> s[j + x] == name[x];
    assert KeywordAt(s, 0);
    assert !IsSpace(s[j]);
    assert SkipSpaces(s, |Keyword|) == j;
    assert s[k] == body[0];
    assert SkipWord(s, j) == k;
    assert s[j..k] == name;
  }

  /**
   * The pattern finds the dues table's own name in the statement
   * oadueslookup_install builds, whenever the database prefix is made of
   * word characters (as WordPress table prefixes are).
   */
  lemma DuesDdlNamesDuesTable(prefix: string)
    requires IsWordString(prefix)
    ensures ExtractTableName(DuesDdl(prefix)) == Some(DuesTable(prefix))
  {
    assert KeywordAt(DdlHead, 0);
    assert DdlBody[0] == ' ';
    assert IsWordString(DuesTable(prefix));
    NameAfterKeyword(DdlHead, DuesTable(prefix), DdlBody);
  }

  /**
   * oadueslookup_create_table on that statement: the CREATE TABLE runs only
   * when the dues table is not listed, and the call reports whether the
   * table exists afterwards.
   */
  lemma CreateDuesTable(s: Store, prefix: string, accepted: bool)
    requires IsWordString(prefix)
    ensures var t, r := DuesTable(prefix), CreateTableSpec(s, DuesDdl(prefix), DuesColumns, accepted);
      && r.1 == (t in s.tables || accepted)
      && r.0.tables == (if t in s.tables || !accepted then s.tables else s.tables + [t])
      && r.0.columns == (if t in s.tables || !accepted then s.columns else s.columns[t := DuesColumns])
      && r.0.issued == s.issued + (if t in s.tables then [] else [Create(DuesDdl(prefix), DuesColumns)])
      && r.0.options == s.options
  {
    DuesDdlNamesDuesTable(prefix);
  }

  /** The registration columns have four different names. */
  lemma RegistrationNamesDistinct()
    ensures DistinctNames(RegistrationColumns)
  {
  }

  /** Step 3 drops the two audit columns, then adds each registration column in order. */
  lemma Step3Shape()
    ensures Step3 == [DropColumn(RegAuditDate), DropColumn(RegAuditResult)] + AddAll(RegistrationColumns)
  {
  }

  /**
   * Step 3 on a table: the audit columns are gone and the registration
   * columns follow the remaining ones, provided none of them was there.
   */
  lemma ApplyStep3(cols: seq<Column>)
    requires forall c :: c in RegistrationColumns ==>
      c.name !in Names(Without(Without(cols, RegAuditDate), RegAuditResult))
    ensures ApplyChanges(cols, Step3)
      == Without(Without(cols, RegAuditDate), RegAuditResult) + RegistrationColumns
  {
    Step3Split(cols);
    RegistrationNamesDistinct();
    AddAllNew(Without(Without(cols, RegAuditDate), RegAuditResult), RegistrationColumns);
  }

  /** Step 3 is its two DROP COLUMNs followed by the ADD COLUMNs of the registration columns. */
  lemma Step3Split(cols: seq<Column>)
    ensures ApplyChanges(cols, Step3)
      == ApplyChanges(Without(Without(cols, RegAuditDate), RegAuditResult), AddAll(RegistrationColumns))
  {
    var drops := [DropColumn(RegAuditDate), DropColumn(RegAuditResult)];
    Step3Shape();
    ApplyChangesAppend(cols, drops, AddAll(RegistrationColumns));
    assert drops[..1] == [DropColumn(RegAuditDate)] && [DropColumn(RegAuditDate)][..0] == [];
    assert ApplyChanges(cols, drops[..1]) == Without(cols, RegAuditDate);
    assert ApplyChanges(cols, drops) == Without(Without(cols, RegAuditDate), RegAuditResult);
  }

  /**
   * The column names after step 3, whatever the table held: the audit names
   * are gone, the registration names are there, and every other name is
   * kept.
   */
  lemma Step3Names(cols: seq<Column>, x: string)
    ensures x in Names(ApplyChanges(cols, Step3)) <==>
      x != RegAuditDate && x != RegAuditResult && (x in Names(cols) || x in Names(RegistrationColumns))
  {
    var kept := Without(Without(cols, RegAuditDate), RegAuditResult);
    Step3Split(cols);
    AddAllNames(kept, RegistrationColumns, x);
    WithoutEffect(cols, RegAuditDate);
    WithoutEffect(Without(cols, RegAuditDate), RegAuditResult);
    NamesIn(kept, x);
    NamesIn(cols, x);
    RegistrationNotAudit();
  }

  /** Step 2 then step 3 on any table, as the table step 2 leaves. */
  lemma Step2Result(cols: seq<Column>)
    ensures ApplyChanges(cols, Step2 + Step3) == ApplyChanges(ApplyChanges(cols, Step2), Step3)
    ensures ApplyChanges(cols, Step2) == ApplyChange(cols, AddColumn(Column(RegAuditDate, Date)))
  {
    assert |Step2| == 1 && Step2[0] == AddColumn(Column(RegAuditDate, Date)) && Step2[..0] == [];
    assert ApplyChanges(cols, Step2) == ApplyChange(ApplyChanges(cols, Step2[..0]), Step2[0]);
    assert ApplyChanges(cols, []) == cols;
    ApplyChangesAppend(cols, Step2, Step3);
  }

  /** Dropping columns keeps a name out of the table when it was not there. */
  lemma RegistrationNamesStayOut(cols: seq<Column>)
    requires forall c :: c in RegistrationColumns ==> c.name !in Names(cols)
    ensures forall c :: c in RegistrationColumns ==>
      c.name !in Names(Without(Without(cols, RegAuditDate), RegAuditResult))
  {
    var kept := Without(Without(cols, RegAuditDate), RegAuditResult);
    WithoutEffect(cols, RegAuditDate);
    WithoutEffect(Without(cols, RegAuditDate), RegAuditResult);
    forall c | c in RegistrationColumns ensures c.name !in Names(kept) {
      NamesIn(cols, c.name);
      NamesIn(kept, c.name);
    }
  }

  /** Step 2 then step 3: the audit-date column step 2 adds is dropped again. */
  lemma ApplySteps2And3(cols: seq<Column>)
    requires forall c :: c in RegistrationColumns ==>
      c.name !in Names(Without(Without(cols, RegAuditDate), RegAuditResult))
    ensures ApplyChanges(cols, Step2 + Step3)
      == Without(Without(cols, RegAuditDate), RegAuditResult) + RegistrationColumns
  {
    var audit := Column(RegAuditDate, Date);
    var added := ApplyChanges(cols, Step2);
    Step2Result(cols);
    WithoutAppend(cols, [audit], RegAuditDate);
    assert Without([audit], RegAuditDate) == [];
    assert Without(added, RegAuditDate) == Without(cols, RegAuditDate);
    ApplyStep3(added);
  }

  /**
   * The columns of a table of any version below the current one after the
   * pending steps: from version 1 the audit-date column step 2 adds is
   * dropped again by step 3, so both starting points end with the same
   * layout.
   */
  lemma MigratedColumns(cols: seq<Column>, installed: int)
    requires installed < DbVersion
    requires forall c :: c in RegistrationColumns ==> c.name !in Names(cols)
    ensures ApplyChanges(cols, Pending(Migrations, installed))
      == Without(Without(cols, RegAuditDate), RegAuditResult) + RegistrationColumns
  {
    RegistrationNamesStayOut(cols);
    PendingMigrations(installed);
    if installed < 2 {
      ApplySteps2And3(cols);
    } else {
      assert Pending(Migrations, installed) == Step3;
      ApplyStep3(cols);
    }
  }

  /**
   * After the pending steps neither audit column is left (from version 1
   * too: the column step 2 adds is gone again), and a column of each
   * registration name is there, whatever the table held before.
   */
  lemma MigratedWithoutAudit(cols: seq<Column>, installed: int)
    requires installed < DbVersion
    ensures var m := ApplyChanges(cols, Pending(Migrations, installed));
      && RegAuditDate !in Names(m) && RegAuditResult !in Names(m)
      && forall c :: c in RegistrationColumns ==> c.name in Names(m)
  {
    PendingMigrations(installed);
    var before := if installed < 2 then ApplyChanges(cols, Step2) else cols;
    if installed < 2 {
      Step2Result(cols);
    } else {
      assert Pending(Migrations, installed) == Step3;
    }
    Step3Names(before, RegAuditDate);
    Step3Names(before, RegAuditResult);
    forall c | c in RegistrationColumns ensures c.name in Names(ApplyChanges(before, Step3)) {
      NamesIn(RegistrationColumns, c.name);
      Step3Names(before, c.name);
    }
  }

  /**
   * Re-running the pending steps on a table they already brought up to
   * date (an upgrade whose ALTERs ran but whose version update did not)
   * changes no column: every DROP and ADD is refused.
   */
  lemma MigrationRerun(cols: seq<Column>, installed: int)
    requires installed < DbVersion
    requires RegAuditDate !in Names(cols) && RegAuditResult !in Names(cols)
    requires forall c :: c in RegistrationColumns ==> c.name in Names(cols)
    ensures ApplyChanges(cols, Pending(Migrations, installed)) == cols
  {
    DropAuditOfCurrent(cols);
    PendingMigrations(installed);
    if installed < 2 {
      Step2Result(cols);
      Step3Rerun(cols + [Column(RegAuditDate, Date)], cols);
    } else {
      assert Pending(Migrations, installed) == Step3;
      Step3Rerun(cols, cols);
    }
  }

  /** The DROP COLUMNs of step 3 on a table without audit columns, or with only the one step 2 adds. */
  lemma DropAuditOfCurrent(cols: seq<Column>)
    requires RegAuditDate !in Names(cols) && RegAuditResult !in Names(cols)
    ensures Without(Without(cols, RegAuditDate), RegAuditResult) == cols
    ensures Without(Without(cols + [Column(RegAuditDate, Date)], RegAuditDate), RegAuditResult) == cols
  {
    var audit := Column(RegAuditDate, Date);
    WithoutEffect(cols, RegAuditDate);
    WithoutEffect(cols, RegAuditResult);
    WithoutAppend(cols, [audit], RegAuditDate);
    assert [audit][1..] == [];
    assert Without([audit], RegAuditDate) == [];
    assert Without(cols, RegAuditDate) + [] == cols;
    assert Without(cols + [audit], RegAuditDate) == cols;
  }

  /** Step 3 on a table whose drops leave `cols`, which holds every registration name, gives `cols`. */
  lemma Step3Rerun(table: seq<Column>, cols: seq<Column>)
    requires Without(Without(table, RegAuditDate), RegAuditResult) == cols
    requires forall c :: c in RegistrationColumns ==> c.name in Names(cols)
    ensures ApplyChanges(table, Step3) == cols
  {
    Step3Split(table);
    AddAllPresent(cols, RegistrationColumns);
  }

  /** Both DROP COLUMNs leave no audit column behind. */
  lemma AuditDropped(cols: seq<Column>)
    ensures var kept := Without(Without(cols, RegAuditDate), RegAuditResult);
      RegAuditDate !in Names(kept) && RegAuditResult !in Names(kept)
  {
    var kept := Without(Without(cols, RegAuditDate), RegAuditResult);
    WithoutEffect(cols, RegAuditDate);
    WithoutEffect(Without(cols, RegAuditDate), RegAuditResult);
    NamesIn(kept, RegAuditDate);
    NamesIn(kept, RegAuditResult);
  }

  lemma RegistrationNotAudit()
    ensures RegAuditDate !in Names(RegistrationColumns) && RegAuditResult !in Names(RegistrationColumns)
  {
    NamesIn(RegistrationColumns, RegAuditDate);
    NamesIn(RegistrationColumns, RegAuditResult);
  }

  /**
   * A fresh install (no stored version, or 0): no ALTER TABLE runs. The
   * version option is added as the current version when absent; a stored 0
   * is left as it is, since add_option does not overwrite and the final
   * update only runs below the current version.
   */
  lemma InstallFresh(s: Store, prefix: string, accepted: bool)
    requires VersionTyped(s.options)
    requires IsEmptyVersion(Lookup(s.options, VersionKey))
    ensures var s1, r := CreateTableSpec(s, DuesDdl(prefix), DuesColumns, accepted).0, InstallSpec(s, prefix, accepted);
      && r.tables == s1.tables && r.columns == s1.columns && r.issued == s1.issued
      && (VersionKey !in s.options ==> r.options == s.options[VersionKey := Num(DbVersion)])
      && (VersionKey in s.options ==> r.options == s.options)
  {
    PendingMigrations(DbVersion);
  }

  /** A stored version at or above the current one: no ALTER TABLE runs and the version is not lowered. */
  lemma InstallCurrentOrNewer(s: Store, prefix: string, accepted: bool)
    requires VersionTyped(s.options)
    requires VersionKey in s.options && s.options[VersionKey].n >= DbVersion
    ensures InstallSpec(s, prefix, accepted) == CreateTableSpec(s, DuesDdl(prefix), DuesColumns, accepted).0
  {
    PendingMigrations(s.options[VersionKey].n);
  }

  /**
   * The version option after oadueslookup_install: set to the current
   * version when absent or below it (apart from a stored 0), otherwise
   * untouched; no other option changes.
   */
  lemma InstallVersion(s: Store, prefix: string, accepted: bool)
    requires VersionTyped(s.options)
    ensures var r := InstallSpec(s, prefix, accepted);
      && VersionKey in r.options && VersionTyped(r.options)
      && (VersionKey !in s.options ==> r.options[VersionKey] == Num(DbVersion))
      && (VersionKey in s.options ==>
            var v := s.options[VersionKey].n;
            r.options[VersionKey] == if v == 0 || v >= DbVersion then Num(v) else Num(DbVersion))
      && (forall k :: k != VersionKey ==>
            (k in r.options <==> k in s.options) && (k in s.options ==> r.options[k] == s.options[k]))
  {
    var s1 := CreateTableSpec(s, DuesDdl(prefix), DuesColumns, accepted).0;
    var installed := InstalledVersion(s1.options);
    var s2 :=
      if IsEmptyVersion(Lookup(s1.options, VersionKey))
      then s1.(options := AddIfAbsent(s1.options, VersionKey, Num(DbVersion)))
      else s1;
    AlterAllEffect(s2, DuesTable(prefix), Pending(Migrations, installed));
  }

  /**
   * An upgrade from a version below the current one, on an existing dues
   * table without the registration columns: the pending steps run in order
   * on that table alone, the audit columns end up dropped, the registration
   * columns appended, and the version set to the current one.
   */
  lemma InstallUpgrade(s: Store, prefix: string, accepted: bool)
    requires VersionTyped(s.options) && IsWordString(prefix)
    requires VersionKey in s.options && s.options[VersionKey].n != 0 && s.options[VersionKey].n < DbVersion
    requires DuesTable(prefix) in s.tables && DuesTable(prefix) in s.columns
    requires forall c :: c in RegistrationColumns ==> c.name !in Names(s.columns[DuesTable(prefix)])
    ensures var t, r := DuesTable(prefix), InstallSpec(s, prefix, accepted);
      && r.tables == s.tables
      && r.columns == s.columns[t := Without(Without(s.columns[t], RegAuditDate), RegAuditResult) + RegistrationColumns]
      && r.issued == s.issued + Alters(t, Pending(Migrations, s.options[VersionKey].n))
      && r.options == s.options[VersionKey := Num(DbVersion)]
  {
    var t := DuesTable(prefix);
    CreateDuesTable(s, prefix, accepted);
    assert CreateTableSpec(s, DuesDdl(prefix), DuesColumns, accepted).0 == s;
    AlterAllEffect(s, t, Pending(Migrations, s.options[VersionKey].n));
    MigratedColumns(s.columns[t], s.options[VersionKey].n);
  }

  /**
   * Resuming an upgrade whose ALTERs ran but whose version update did not:
   * the pending ALTERs are issued again, every one is refused, so no column
   * changes, and the version becomes the current one.
   */
  lemma InstallResume(s: Store, prefix: string, accepted: bool)
    requires VersionTyped(s.options) && IsWordString(prefix)
    requires VersionKey in s.options && s.options[VersionKey].n != 0 && s.options[VersionKey].n < DbVersion
    requires DuesTable(prefix) in s.tables && DuesTable(prefix) in s.columns
    requires RegAuditDate !in Names(s.columns[DuesTable(prefix)]) && RegAuditResult !in Names(s.columns[DuesTable(prefix)])
    requires forall c :: c in RegistrationColumns ==> c.name in Names(s.columns[DuesTable(prefix)])
    ensures var t, r := DuesTable(prefix), InstallSpec(s, prefix, accepted);
      && r.tables == s.tables
      && r.columns == s.columns
      && r.issued == s.issued + Alters(t, Pending(Migrations, s.options[VersionKey].n))
      && r.options == s.options[VersionKey := Num(DbVersion)]
  {
    var t := DuesTable(prefix);
    CreateDuesTable(s, prefix, accepted);
    assert CreateTableSpec(s, DuesDdl(prefix), DuesColumns, accepted).0 == s;
    AlterAllEffect(s, t, Pending(Migrations, s.options[VersionKey].n));
    MigrationRerun(s.columns[t], s.options[VersionKey].n);
  }

  /**
   * A table of schema version 1 or 2 that holds the original four columns
   * and the audit columns it had then, once upgraded, has the layout the
   * CREATE TABLE statement gives a fresh install.
   */
  lemma UpgradeMatchesFreshLayout(s: Store, prefix: string, accepted: bool)
    requires VersionTyped(s.options) && IsWordString(prefix)
    requires VersionKey in s.options && s.options[VersionKey].n != 0 && s.options[VersionKey].n < DbVersion
    requires DuesTable(prefix) in s.tables && DuesTable(prefix) in s.columns
    requires forall c :: c in RegistrationColumns ==> c.name !in Names(s.columns[DuesTable(prefix)])
    requires Without(Without(s.columns[DuesTable(prefix)], RegAuditDate), RegAuditResult) == BaseColumns
    ensures InstallSpec(s, prefix, accepted).columns == s.columns[DuesTable(prefix) := DuesColumns]
  {
    InstallUpgrade(s, prefix, accepted);
  }

  /**
   * Running oadueslookup_install again right after it issues no ALTER
   * TABLE and changes neither the tables nor the options; it only repeats
   * the CREATE TABLE when the database refused it the first time.
   */
  lemma InstallIdempotent(s: Store, prefix: string, accepted: bool)
    requires VersionTyped(s.options) && IsWordString(prefix)
    ensures var t, r := DuesTable(prefix), InstallSpec(s, prefix, accepted);
      && VersionTyped(r.options)
      && InstallSpec(r, prefix, accepted).tables == r.tables
      && InstallSpec(r, prefix, accepted).columns == r.columns
      && InstallSpec(r, prefix, accepted).options == r.options
      && InstallSpec(r, prefix, accepted).issued
         == r.issued + (if t in r.tables then [] else [Create(DuesDdl(prefix), DuesColumns)])
  {
    var t, r := DuesTable(prefix), InstallSpec(s, prefix, accepted);
    InstallVersion(s, prefix, accepted);
    if IsEmptyVersion(Lookup(r.options, VersionKey)) {
      InstallFresh(r, prefix, accepted);
    } else {
      InstallCurrentOrNewer(r, prefix, accepted);
    }
    CreateDuesTable(s, prefix, accepted);
    var s1 := CreateTableSpec(s, DuesDdl(prefix), DuesColumns, accepted).0;
    var installed := InstalledVersion(s1.options);
    var s2 :=
      if IsEmptyVersion(Lookup(s1.options, VersionKey))
      then s1.(options := AddIfAbsent(s1.options, VersionKey, Num(DbVersion)))
      else s1;
    AlterAllEffect(s2, t, Pending(Migrations, installed));
    assert accepted ==> t in r.tables;
    CreateDuesTable(r, prefix, accepted);
  }

  /** No key occurs twice in a list of defaults. */
  predicate DistinctKeys(ds: seq<(string, Value)>) {
    forall a, b :: 0 <= a < b < |ds| ==> ds[a].0 != ds[b].0
  }

  /**
   * add_option defaults never overwrite: every option kept its value,
   * every default key is present afterwards, and nothing else appears.
   */
  lemma {:induction false} SeedDefaultsKeeps(options: map<string, Value>, ds: seq<(string, Value)>)
    ensures forall k :: k in options ==> k in SeedDefaults(options, ds) && SeedDefaults(options, ds)[k] == options[k]
    ensures forall i :: 0 <= i < |ds| ==> ds[i].0 in SeedDefaults(options, ds)
    ensures forall k :: k in SeedDefaults(options, ds) ==> k in options || exists i :: 0 <= i < |ds| && ds[i].0 == k
    decreases |ds|
  {
    if ds != [] {
      var o1 := AddIfAbsent(options, ds[0].0, ds[0].1);
      SeedDefaultsKeeps(o1, ds[1..]);
      forall k | k in SeedDefaults(options, ds) ensures k in options || exists i :: 0 <= i < |ds| && ds[i].0 == k {
        if k !in options {
          if k in o1 {
            assert ds[0].0 == k;
          } else {
            var i :| 0 <= i < |ds[1..]| && ds[1..][i].0 == k;
            assert ds[i + 1].0 == k;
          }
        }
      }
      forall i | 0 <= i < |ds| ensures ds[i].0 in SeedDefaults(options, ds) {
        if i > 0 {
          assert ds[i] == ds[1..][i - 1];
        }
      }
    }
  }

  /** An option that was absent takes the value its (only) default gives it. */
  lemma {:induction false} SeedDefaultsValue(options: map<string, Value>, ds: seq<(string, Value)>, i: int)
    requires DistinctKeys(ds) && 0 <= i < |ds| && ds[i].0 !in options
    ensures ds[i].0 in SeedDefaults(options, ds) && SeedDefaults(options, ds)[ds[i].0] == ds[i].1
    decreases |ds|
  {
    var o1 := AddIfAbsent(options, ds[0].0, ds[0].1);
    if i == 0 {
      SeedDefaultsKeeps(o1, ds[1..]);
    } else {
      assert ds[i] == ds[1..][i - 1];
      SeedDefaultsValue(o1, ds[1..], i - 1);
    }
  }

  /** Seeding a second time changes nothing. */
  lemma SeedDefaultsIdempotent(options: map<string, Value>, ds: seq<(string, Value)>)
    ensures SeedDefaults(SeedDefaults(options, ds), ds) == SeedDefaults(options, ds)
  {
    SeedDefaultsKeeps(options, ds);
    SeedPresent(SeedDefaults(options, ds), ds);
  }

  /** Defaults whose keys are all present change nothing. */
  lemma {:induction false} SeedPresent(options: map<string, Value>, ds: seq<(string, Value)>)
    requires forall i :: 0 <= i < |ds| ==> ds[i].0 in options
    ensures SeedDefaults(options, ds) == options
    decreases |ds|
  {
    if ds != [] {
      assert forall i :: 0 <= i < |ds[1..]| ==> ds[1..][i] == ds[i + 1];
      SeedPresent(options, ds[1..]);
    }
  }

  /** The ten defaults of oadueslookup_update_db_check have different keys, none of them the version's. */
  lemma DefaultsKeys()
    ensures DistinctKeys(Defaults)
    ensures forall i :: 0 <= i < |Defaults| ==> Defaults[i].0 != VersionKey
  {
  }

  /**
   * The options after oadueslookup_update_db_check: the version as
   * oadueslookup_install leaves it (or untouched when already current),
   * every other option kept, and every default present, with its default
   * value when it was missing.
   */
  lemma UpdateDbCheckOptions(s: Store, prefix: string, accepted: bool)
    requires VersionTyped(s.options)
    ensures var r := UpdateDbCheckSpec(s, prefix, accepted);
      && VersionKey in r.options
      && (VersionKey !in s.options ==> r.options[VersionKey] == Num(DbVersion))
      && (VersionKey in s.options ==>
            var v := s.options[VersionKey].n;
            r.options[VersionKey] == if v == 0 || v >= DbVersion then Num(v) else Num(DbVersion))
      && (forall k :: k in s.options && k != VersionKey ==> k in r.options && r.options[k] == s.options[k])
      && (forall i :: 0 <= i < |Defaults| ==> Defaults[i].0 in r.options)
      && (forall i :: 0 <= i < |Defaults| && Defaults[i].0 !in s.options ==> r.options[Defaults[i].0] == Defaults[i].1)
  {
    var s1 := if Lookup(s.options, VersionKey) != Some(Num(DbVersion)) then InstallSpec(s, prefix, accepted) else s;
    InstallVersion(s, prefix, accepted);
    DefaultsKeys();
    SeedDefaultsKeeps(s1.options, Defaults);
    forall i | 0 <= i < |Defaults| && Defaults[i].0 !in s.options
      ensures SeedDefaults(s1.options, Defaults)[Defaults[i].0] == Defaults[i].1
    {
      SeedDefaultsValue(s1.options, Defaults, i);
    }
  }

  /**
   * oadueslookup_update_db_check is how an upgrade happens: from version 1
   * or 2, on an existing dues table without the registration columns, it
   * runs the pending ALTERs on that table and leaves it with the audit
   * columns dropped and the registration columns appended.
   */
  lemma UpdateDbCheckUpgrades(s: Store, prefix: string, accepted: bool)
    requires VersionTyped(s.options) && IsWordString(prefix)
    requires VersionKey in s.options && s.options[VersionKey].n != 0 && s.options[VersionKey].n < DbVersion
    requires DuesTable(prefix) in s.tables && DuesTable(prefix) in s.columns
    requires forall c :: c in RegistrationColumns ==> c.name !in Names(s.columns[DuesTable(prefix)])
    ensures var t, r := DuesTable(prefix), UpdateDbCheckSpec(s, prefix, accepted);
      && r.tables == s.tables
      && r.columns == s.columns[t := Without(Without(s.columns[t], RegAuditDate), RegAuditResult) + RegistrationColumns]
      && r.issued == s.issued + Alters(t, Pending(Migrations, s.options[VersionKey].n))
  {
    InstallUpgrade(s, prefix, accepted);
  }

  /** oadueslookup_create_table keeps the table list and the column map in step. */
  lemma CreateTableKeepsConsistent(s: Store, ddl: string, declared: seq<Column>, accepted: bool)
    requires Consistent(s)
    ensures Consistent(CreateTableSpec(s, ddl, declared, accepted).0)
  {
    if ExtractTableName(ddl).Some? && ExtractTableName(ddl).value !in s.tables {
      CreateKeepsConsistent(s, ddl, declared, accepted);
    }
  }

  /** The installer keeps the table list and the column map in step. */
  lemma InstallKeepsConsistent(s: Store, prefix: string, accepted: bool)
    requires VersionTyped(s.options) && Consistent(s)
    ensures Consistent(InstallSpec(s, prefix, accepted))
  {
    var s1 := CreateTableSpec(s, DuesDdl(prefix), DuesColumns, accepted).0;
    CreateTableKeepsConsistent(s, DuesDdl(prefix), DuesColumns, accepted);
    var s2 :=
      if IsEmptyVersion(Lookup(s1.options, VersionKey))
      then s1.(options := AddIfAbsent(s1.options, VersionKey, Num(DbVersion)))
      else s1;
    AlterAllKeepsConsistent(s2, DuesTable(prefix), Pending(Migrations, InstalledVersion(s1.options)));
  }

  /** oadueslookup_update_db_check keeps the table list and the column map in step. */
  lemma UpdateDbCheckKeepsConsistent(s: Store, prefix: string, accepted: bool)
    requires VersionTyped(s.options) && Consistent(s)
    ensures Consistent(UpdateDbCheckSpec(s, prefix, accepted))
  {
    InstallKeepsConsistent(s, prefix, accepted);
  }

  /** Once the stored version is current, oadueslookup_update_db_check changes nothing. */
  lemma UpdateDbCheckSettles(s: Store, prefix: string, accepted: bool)
    requires VersionTyped(s.options)
    ensures var r := UpdateDbCheckSpec(s, prefix, accepted);
      Lookup(r.options, VersionKey) == Some(Num(DbVersion)) ==> UpdateDbCheckSpec(r, prefix, accepted) == r
  {
    var s1 := if Lookup(s.options, VersionKey) != Some(Num(DbVersion)) then InstallSpec(s, prefix, accepted) else s;
    SeedDefaultsIdempotent(s1.options, Defaults);
  }

  /** The move happens once: a second oadueslookup_update_shortcodes changes nothing. */
  lemma ShortcodesIdempotent(s: Store)
    ensures UpdateShortcodesSpec(UpdateShortcodesSpec(s)) == UpdateShortcodesSpec(s)
  {
  }
}
