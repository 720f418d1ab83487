/**
 * The four schema-lifecycle functions of the plugin, written as the PHP
 * writes them: loops over the table list, guarded statements and option
 * calls against the site. Each is proved to have exactly the effect its
 * specification function in DuesSchema describes.
 */
module DuesLookup {
  import opened Wrappers
  import opened DdlName
  import opened Host
  import opened DuesSchema

  /** The foreach over SHOW TABLES: is `table` one of the listed names? */
  method FindTable(listed: seq<string>, table: string) returns (found: bool)
    ensures found <==> table in listed
  {
    for i := 0 to |listed|
      invariant forall p :: 0 <= p < i ==> listed[p] != table
    {
      if listed[i] == table {
        return true;
      }
    }
    return false;
  }

  /** oadueslookup_create_table */
  method CreateTable(site: Site, ddl: string, declared: seq<Column>, accepted: bool) returns (ok: bool)
    modifies site
    ensures (site.State(), ok) == CreateTableSpec(old(site.State()), ddl, declared, accepted)
  {
    var name := ExtractTableName(ddl);
    if name.None? {
      return false;
    }
    var table := name.value;
    var listed := site.ShowTables();
    ok := FindTable(listed, table);
    if ok {
      return;
    }
    // not listed yet, so create it, then look again
    site.ExecuteCreate(ddl, declared, accepted);
    listed := site.ShowTables();
    ok := FindTable(listed, table);
  }

  /** oadueslookup_install */
  method Install(site: Site, prefix: string, accepted: bool)
    requires VersionTyped(site.options)
    modifies site
    ensures site.State() == InstallSpec(old(site.State()), prefix, accepted)
  {
    var dbprefix := prefix + "oalm_";
    var table := dbprefix + "dues_data";
    assert table == DuesTable(prefix);
    var _ := CreateTable(site, DuesDdl(prefix), DuesColumns, accepted);

    var installed := site.GetOption(VersionKey);
    var version: int;
    if IsEmptyVersion(installed) {
      // a new install: the table was just created with the current layout
      version := DbVersion;
      site.AddOption(VersionKey, Num(DbVersion));
    } else {
      version := installed.value.n;
    }
    Migrate(site, table, version);

    if version < DbVersion {
      site.UpdateOption(VersionKey, Num(DbVersion));
    }
  }

  /** The guarded ALTER TABLE blocks of oadueslookup_install, oldest first. */
  method Migrate(site: Site, table: string, version: int)
    modifies site
    ensures site.State() == AlterAll(old(site.State()), table, Pending(Migrations, version))
  {
    ghost var s0 := site.State();
    ghost var done: seq<Change> := [];

    if version < 2 {
      // add a column for the last audit date
      done := Issue(site, table, AddColumn(Column(RegAuditDate, Date)), s0, done);
    }
    assert done == if version < 2 then Step2 else [];
    ghost var before3 := done;

    if version < 3 {
      // drop the old registration audit fields, then add the registration fields
      done := Issue(site, table, DropColumn(RegAuditDate), s0, done);
      done := Issue(site, table, DropColumn(RegAuditResult), s0, done);
      done := Issue(site, table, AddColumn(Column("bsa_reg", TinyInt(1))), s0, done);
      done := Issue(site, table, AddColumn(Column("bsa_reg_overridden", TinyInt(1))), s0, done);
      done := Issue(site, table, AddColumn(Column("bsa_verify_date", Date)), s0, done);
      done := Issue(site, table, AddColumn(Column("bsa_verify_status", VarChar(50))), s0, done);
      assert done == before3 + Step3;
    }
    PendingMigrations(version);
  }

  /** `$wpdb->query` of one ALTER TABLE, keeping count of the changes issued since state `s0`. */
  method Issue(site: Site, table: string, ch: Change, ghost s0: Store, ghost done: seq<Change>)
    returns (ghost done': seq<Change>)
    requires site.State() == AlterAll(s0, table, done)
    modifies site
    ensures done' == done + [ch]
    ensures site.State() == AlterAll(s0, table, done')
  {
    site.ExecuteAlter(table, ch);
    AlterAllSnoc(s0, table, done, ch);
    done' := done + [ch];
  }

  /** oadueslookup_update_db_check */
  method UpdateDbCheck(site: Site, prefix: string, accepted: bool)
    requires VersionTyped(site.options)
    modifies site
    ensures site.State() == UpdateDbCheckSpec(old(site.State()), prefix, accepted)
  {
    var stored := site.GetOption(VersionKey);
    if stored != Some(Num(DbVersion)) {
      Install(site, prefix, accepted);
    }
    AddDefaults(site, Defaults);
  }

  /**
   * add_option for each pair, in order: defaults that never overwrite.
   * oadueslookup_update_db_check makes these calls for the ten Defaults.
   */
  method AddDefaults(site: Site, defaults: seq<(string, Value)>)
    modifies site
    ensures site.State() == old(site.State()).(options := SeedDefaults(old(site.options), defaults))
  {
    ghost var seeded := SeedDefaults(site.options, defaults);
    for i := 0 to |defaults|
      invariant site.State() == old(site.State()).(options := site.options)
      invariant SeedDefaults(site.options, defaults[i..]) == seeded
    {
      site.AddOption(defaults[i].0, defaults[i].1);
      assert defaults[i..][1..] == defaults[i + 1..];
    }
  }

  /** oadueslookup_update_shortcodes; the page wp_insert_post creates is not modelled. */
  method UpdateShortcodes(site: Site)
    modifies site
    ensures site.State() == UpdateShortcodesSpec(old(site.State()))
  {
    var stored := site.GetOption(SlugKey);
    var lookupSlug := if stored.Some? then stored.value else Text(NotSet);
    if lookupSlug != Text(NotSet) {
      site.DeleteOption(SlugKey);
      site.AddOption(OldSlugKey, lookupSlug);
    }
  }
}
