/**
 * The dues table's schema lifecycle, as pure functions over the host's
 * state (Host.Store): what oadueslookup_create_table, oadueslookup_install,
 * oadueslookup_update_db_check and oadueslookup_update_shortcodes do to the
 * database, the statement log and the options. The methods in DuesLookup
 * are proved to have exactly these effects; the lemmas here state what the
 * plugin promises about them.
 */
module DuesSchema {
  import opened Wrappers
  import opened DdlName
  import opened Host

  /** `$oadueslookup_db_version`: the schema version this code expects. */
  const DbVersion: int := 3

  const VersionKey: string := "oadueslookup_db_version"
  const SlugKey: string := "oadueslookup_slug"
  const OldSlugKey: string := "oadueslookup_oldslug"

  /** The default get_option returns for an unset slug, compared with `===`. */
  const NotSet: string := "it was not set"

  /** `${dbprefix}dues_data` with `$dbprefix = $wpdb->prefix . "oalm_"`. */
  function DuesTable(prefix: string): string {
    prefix + "oalm_dues_data"
  }

  const DdlHead: string := "CREATE TABLE "
  const DdlBody: string := " (\n" + DdlLines
  const DdlLines: string :=
    "  bsaid                 INT NOT NULL,\n  max_dues_year         VARCHAR(4),\n"
    + "  dues_paid_date        DATE,\n  level                 VARCHAR(12),\n"
    + "  bsa_reg               TINYINT(1),\n  bsa_reg_overridden    TINYINT(1),\n"
    + "  bsa_verify_date       DATE,\n  bsa_verify_status     VARCHAR(50),\n"
    + "  PRIMARY KEY (bsaid)\n);"

  /** The statement oadueslookup_install hands to oadueslookup_create_table. */
  function DuesDdl(prefix: string): string {
    DdlHead + DuesTable(prefix) + DdlBody
  }

  /** The columns the dues table has had since the first schema version. */
  const BaseColumns: seq<Column> :=
    [Column("bsaid", Int), Column("max_dues_year", VarChar(4)),
     Column("dues_paid_date", Date), Column("level", VarChar(12))]

  /** The registration-verification columns of schema version 3. */
  const RegistrationColumns: seq<Column> :=
    [Column("bsa_reg", TinyInt(1)), Column("bsa_reg_overridden", TinyInt(1)),
     Column("bsa_verify_date", Date), Column("bsa_verify_status", VarChar(50))]

  /** The column list of DuesDdl: the layout of the current schema version. */
  const DuesColumns: seq<Column> := BaseColumns + RegistrationColumns

  const RegAuditDate: string := "reg_audit_date"
  const RegAuditResult: string := "reg_audit_result"

  /** Step 2: add the last-audit-date column. */
  const Step2: seq<Change> := [AddColumn(Column(RegAuditDate, Date))]

  /** Step 3: drop both audit columns, then add the four registration columns. */
  const Step3: seq<Change> :=
    [DropColumn(RegAuditDate), DropColumn(RegAuditResult),
     AddColumn(RegistrationColumns[0]), AddColumn(RegistrationColumns[1]),
     AddColumn(RegistrationColumns[2]), AddColumn(RegistrationColumns[3])]

  /** A migration step: the changes that bring a table older than `version` up to it. */
  datatype Step = Step(version: int, changes: seq<Change>)

  /** The update code of oadueslookup_install, as an ordered list of steps. */
  const Migrations: seq<Step> := [Step(2, Step2), Step(3, Step3)]

  /** The changes of every step newer than `installed`, in the order of the list. */
  function Pending(steps: seq<Step>, installed: int): seq<Change> {
    if steps == [] then []
    else (if installed < steps[0].version then steps[0].changes else []) + Pending(steps[1..], installed)
  }

  /** The model keeps the stored schema version a number (see README, Left out). */
  predicate VersionTyped(options: map<string, Value>) {
    VersionKey in options ==> options[VersionKey].Num?
  }

  /** PHP's `empty()` on what get_option returned: `false` (absent) or 0. */
  predicate IsEmptyVersion(v: Option<Value>) {
    v == None || v == Some(Num(0))
  }

  /** `$installed_version` once the fresh-install branch has run. */
  function InstalledVersion(options: map<string, Value>): int
    requires VersionTyped(options)
  {
    var v := Lookup(options, VersionKey);
    if IsEmptyVersion(v) then DbVersion else v.value.n
  }

  /**
   * oadueslookup_create_table: the new state and the returned flag. The
   * flag says whether the named table exists afterwards; the statement runs
   * at most once, and only when a name was found and no such table is listed.
   */
  function CreateTableSpec(s: Store, ddl: string, declared: seq<Column>, accepted: bool): (r: (Store, bool))
    ensures r.1 <==> ExtractTableName(ddl).Some? && ExtractTableName(ddl).value in r.0.tables
    ensures ExtractTableName(ddl).None? ==> r == (s, false)
    ensures ExtractTableName(ddl).Some? && ExtractTableName(ddl).value in s.tables ==> r == (s, true)
    ensures ExtractTableName(ddl).Some? && ExtractTableName(ddl).value !in s.tables ==>
      r.0.issued == s.issued + [Create(ddl, declared)]
    ensures r.0.options == s.options
    ensures |s.tables| <= |r.0.tables| && r.0.tables[..|s.tables|] == s.tables
    ensures forall t :: t in s.tables && t in s.columns ==> t in r.0.columns && r.0.columns[t] == s.columns[t]
  {
    match ExtractTableName(ddl)
    case None => (s, false)
    case Some(name) =>
      if name in s.tables then (s, true)
      else
        var s' := AfterCreate(s, ddl, declared, accepted);
        (s', name in s'.tables)
  }

  /** oadueslookup_install: create the table if need be, then run the pending steps. */
  function InstallSpec(s: Store, prefix: string, accepted: bool): Store
    requires VersionTyped(s.options)
  {
    var s1 := CreateTableSpec(s, DuesDdl(prefix), DuesColumns, accepted).0;
    var installed := InstalledVersion(s1.options);
    var s2 :=
      if IsEmptyVersion(Lookup(s1.options, VersionKey))
      then s1.(options := AddIfAbsent(s1.options, VersionKey, Num(DbVersion)))
      else s1;
    var s3 := AlterAll(s2, DuesTable(prefix), Pending(Migrations, installed));
    if installed < DbVersion then s3.(options := s3.options[VersionKey := Num(DbVersion)]) else s3
  }

  /** The add_option defaults of oadueslookup_update_db_check, in call order. */
  const Defaults: seq<(string, Value)> := [
    ("oadueslookup_dues_url", Text("http://www.example.tld/paydues")),
    ("oadueslookup_dues_register", Text("1")),
    ("oadueslookup_dues_register_msg", Text("You must register and login on the MyCouncil site before paying dues.")),
    ("oadueslookup_update_url", Text("http://www.example.tld/paydues")),
    ("oadueslookup_update_option_text", Text("Update Contact Information")),
    ("oadueslookup_update_option_link_text", Text("dues form")),
    ("oadueslookup_help_email", Text("duesadmin@example.tld")),
    ("oadueslookup_last_import", Text("1900-01-01")),
    ("oadueslookup_last_update", Text("1900-01-01")),
    ("oadueslookup_max_dues_year", Text("2016"))
  ]

  /** add_option for each pair, first to last. */
  function SeedDefaults(options: map<string, Value>, ds: seq<(string, Value)>): map<string, Value>
    decreases |ds|
  {
    if ds == [] then options else SeedDefaults(AddIfAbsent(options, ds[0].0, ds[0].1), ds[1..])
  }

  /**
   * oadueslookup_update_db_check: the installer runs exactly when the stored
   * version is not DbVersion, then the defaults are seeded, which touches
   * only the options.
   */
  function UpdateDbCheckSpec(s: Store, prefix: string, accepted: bool): (r: Store)
    requires VersionTyped(s.options)
    ensures Lookup(s.options, VersionKey) == Some(Num(DbVersion)) ==>
      r.tables == s.tables && r.columns == s.columns && r.issued == s.issued
    ensures Lookup(s.options, VersionKey) != Some(Num(DbVersion)) ==>
      && r.tables == InstallSpec(s, prefix, accepted).tables
      && r.columns == InstallSpec(s, prefix, accepted).columns
      && r.issued == InstallSpec(s, prefix, accepted).issued
  {
    var s1 := if Lookup(s.options, VersionKey) != Some(Num(DbVersion)) then InstallSpec(s, prefix, accepted) else s;
    s1.(options := SeedDefaults(s1.options, Defaults))
  }

  /**
   * oadueslookup_update_shortcodes, apart from the page it inserts: without
   * a stored slug nothing changes; with one, the slug option is deleted and
   * its value kept as the old slug, unless an old slug is stored already
   * (add_option leaves it alone); nothing else changes.
   */
  function UpdateShortcodesSpec(s: Store): (r: Store)
    ensures SlugKey !in s.options ==> r == s
    ensures SlugKey in s.options && s.options[SlugKey] != Text(NotSet) ==>
      && r.tables == s.tables && r.columns == s.columns && r.issued == s.issued
      && SlugKey !in r.options
      && OldSlugKey in r.options
      && r.options[OldSlugKey] == (if OldSlugKey in s.options then s.options[OldSlugKey] else s.options[SlugKey])
      && (forall k :: k != SlugKey && k != OldSlugKey ==>
            (k in r.options <==> k in s.options) && (k in s.options ==> r.options[k] == s.options[k]))
  {
    var slug := if SlugKey in s.options then s.options[SlugKey] else Text(NotSet);
    if slug == Text(NotSet) then s
    else s.(options := AddIfAbsent(s.options - {SlugKey}, OldSlugKey, slug))
  }

  /** The list of steps is the code's sequence of guards: step 2 when below 2, then step 3 when below 3. */
  lemma PendingMigrations(installed: int)
    ensures Pending(Migrations, installed)
      == (if installed < 2 then Step2 else []) + (if installed < 3 then Step3 else [])
  {
    var rest := Migrations[1..];
    assert rest == [Step(3, Step3)];
    assert Pending(rest, installed) == (if installed < 3 then Step3 else []) + Pending(rest[1..], installed);
    assert rest[1..] == [];
  }

  /** Issuing one more change after a list of them. */
  lemma AlterAllSnoc(s: Store, table: string, chs: seq<Change>, ch: Change)
    ensures AlterAll(s, table, chs + [ch]) == AfterAlter(AlterAll(s, table, chs), table, ch)
  {
    assert (chs + [ch])[..|chs|] == chs;
  }

}
